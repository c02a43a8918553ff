/**
 * The sanitizer `_sanitize_summary`: left-strip every line of a generated
 * summary, drop a leading two-digit numbering such as "12.", and join the
 * non-empty lines with single spaces.
 */
module Sanitizer {
  import opened Strings

  /** The first test on a left-stripped line: its first two characters are
      digits and its second character is a dot.  No line passes it. */
  predicate FirstGuard(st: string) {
    IsDigits(Slice(st, 0, 2)) && Slice(st, 1, 2) == "."
  }

  /** The second test: at least three characters, two digits, then a dot. */
  predicate SecondGuard(st: string) {
    |st| >= 3 && IsDigit(st[0]) && IsDigits(Slice(st, 1, 2)) && Slice(st, 2, 3) == "."
  }

  /** The numbering tests applied to a left-stripped line. */
  function Unnumber(st: string): string {
    if FirstGuard(st) then LStrip(Slice(st, 2, |st|))
    else if SecondGuard(st) then LStrip(Slice(st, 3, |st|))
    else st
  }

  /** One line after the loop body: left-stripped, numbering removed. */
  function CleanLine(line: string): string {
    Unnumber(LStrip(line))
  }

  /** `b` is a suffix of `a`. */
  predicate IsSuffix(b: string, a: string) {
    |b| <= |a| && b == a[|a| - |b|..]
  }

  lemma SuffixTrans(c: string, b: string, a: string)
    requires IsSuffix(c, b) && IsSuffix(b, a)
    ensures IsSuffix(c, a)
  {
    assert a[|a| - |b|..][|b| - |c|..] == a[|a| - |c|..];
  }

  lemma DropSuffix(st: string, n: nat)
    requires n <= |st|
    ensures IsSuffix(Slice(st, n, |st|), st)
  {
  }

  /** A cleaned line is a suffix of the line that does not start with
      whitespace. */
  lemma CleanLineShape(line: string)
    ensures IsSuffix(CleanLine(line), line)
    ensures CleanLine(line) == [] || !IsSpace(CleanLine(line)[0])
  {
    var st := LStrip(line);
    assert IsSuffix(st, line);
    if SecondGuard(st) {
      var d := Slice(st, 3, |st|);
      DropSuffix(st, 3);
      SuffixTrans(d, st, line);
      assert IsSuffix(LStrip(d), d);
      SuffixTrans(LStrip(d), d, line);
      FirstGuardDead(st);
    } else {
      FirstGuardDead(st);
    }
  }

  function CleanLines(ls: seq<string>): (r: seq<string>)
    ensures |r| == |ls|
    ensures forall k :: 0 <= k < |r| ==> r[k] == CleanLine(ls[k])
  {
    seq(|ls|, k requires 0 <= k < |ls| => CleanLine(ls[k]))
  }

  /** What `_sanitize_summary(text)` returns. */
  function Sanitized(text: string): string {
    Strip(JoinWith(" ", NonEmpty(CleanLines(Lines(text)))))
  }

  /** The guard that would remove a one-digit "1." can never hold: it asks
      for a digit and a dot at the same position. */
  lemma FirstGuardDead(st: string)
    ensures !FirstGuard(st)
  {
    if |st| >= 2 {
      assert Slice(st, 0, 2) == st[..2];
      assert Slice(st, 1, 2) == [st[1]];
      assert IsDigits(st[..2]) ==> IsDigit(st[..2][1]);
    }
  }

  /** A line that starts with non-space text left-strips to itself. */
  lemma LStripOfStart(s: string)
    requires s == [] || !IsSpace(s[0])
    ensures LStrip(s) == s
  {
  }

  /** Blanks before a line make no difference. */
  lemma CleanAfterBlank(w: string, st: string)
    requires IsBlank(w)
    ensures CleanLine(w + st) == CleanLine(st)
  {
    LStripBlankPrefix(w, st);
  }

  lemma NumberedGuard(d1: char, d2: char, rest: string)
    requires IsDigit(d1) && IsDigit(d2)
    ensures SecondGuard([d1, d2, '.'] + rest)
  {
    var st := [d1, d2, '.'] + rest;
    SliceAt(st, 1);
    SliceAt(st, 2);
    assert st[1] == d2 && st[2] == '.';
  }

  /** A line starting with a two-digit numbering loses it and the blanks
      after it. */
  lemma CleanNumberedStart(d1: char, d2: char, rest: string)
    requires IsDigit(d1) && IsDigit(d2)
    ensures CleanLine([d1, d2, '.'] + rest) == LStrip(rest)
  {
    var st := [d1, d2, '.'] + rest;
    LStripOfStart(st);
    FirstGuardDead(st);
    NumberedGuard(d1, d2, rest);
    SliceDrop([d1, d2, '.'], rest);
  }

  /** A two-digit numbering, with the blanks before and after it, is
      removed. */
  lemma CleanNumbered(w: string, d1: char, d2: char, rest: string)
    requires IsBlank(w) && IsDigit(d1) && IsDigit(d2)
    ensures CleanLine(w + [d1, d2, '.'] + rest) == LStrip(rest)
  {
    var st := [d1, d2, '.'] + rest;
    assert w + [d1, d2, '.'] + rest == w + st;
    CleanAfterBlank(w, st);
    CleanNumberedStart(d1, d2, rest);
  }

  /** A line starting with a one-digit numbering such as "1." is kept. */
  lemma CleanSingleDigitStart(d: char, rest: string)
    requires IsDigit(d)
    ensures CleanLine([d, '.'] + rest) == [d, '.'] + rest
  {
    var st := [d, '.'] + rest;
    LStripOfStart(st);
    FirstGuardDead(st);
    SliceAt(st, 1);
    assert st[1] == '.';
  }

  /** A one-digit numbering such as "1." is kept, as is the line it starts;
      only the blanks before it go. */
  lemma CleanSingleDigit(w: string, d: char, rest: string)
    requires IsBlank(w) && IsDigit(d)
    ensures CleanLine(w + [d, '.'] + rest) == [d, '.'] + rest
  {
    var st := [d, '.'] + rest;
    assert w + [d, '.'] + rest == w + st;
    CleanAfterBlank(w, st);
    CleanSingleDigitStart(d, rest);
  }

  /** Without a two-digit numbering a line is only left-stripped. */
  lemma CleanUnnumbered(line: string)
    requires !SecondGuard(LStrip(line))
    ensures CleanLine(line) == LStrip(line)
  {
    FirstGuardDead(LStrip(line));
  }

  /** A blank line cleans to nothing. */
  lemma CleanBlank(w: string)
    requires IsBlank(w)
    ensures CleanLine(w) == []
  {
    LStripBlankPrefix(w, []);
    AppendNil(w);
  }

  lemma CleanLineNoLineBreak(line: string)
    requires NoLineBreak(line)
    ensures NoLineBreak(CleanLine(line))
  {
    CleanLineShape(line);
    var r := CleanLine(line);
    assert forall i :: 0 <= i < |r| ==> r[i] == line[|line| - |r| + i];
  }

  /** The cleaned lines, once empty ones are dropped, hold no line break. */
  lemma KeptNoLineBreak(text: string)
    ensures forall k :: 0 <= k < |NonEmpty(CleanLines(Lines(text)))| ==> NoLineBreak(NonEmpty(CleanLines(Lines(text)))[k])
  {
    var cs := CleanLines(Lines(text));
    LinesNoLineBreak(text);
    forall k | 0 <= k < |cs|
      ensures NoLineBreak(cs[k])
    {
      CleanLineNoLineBreak(Lines(text)[k]);
    }
    NonEmptyFrom(cs);
  }

  /** The output is one line with no surrounding whitespace. */
  lemma SanitizedShape(text: string)
    ensures NoLineBreak(Sanitized(text))
    ensures IsStripped(Sanitized(text))
  {
    KeptNoLineBreak(text);
    JoinedShape(NonEmpty(CleanLines(Lines(text))));
  }

  /** Lines joined with spaces and stripped make one stripped line. */
  lemma JoinedShape(kept: seq<string>)
    requires forall k :: 0 <= k < |kept| ==> NoLineBreak(kept[k])
    ensures NoLineBreak(Strip(JoinWith(" ", kept)))
    ensures IsStripped(Strip(JoinWith(" ", kept)))
  {
    JoinNoLineBreak(" ", kept);
    StripNoLineBreak(JoinWith(" ", kept));
  }

  /** Lines given one per `"\n"` are cleaned one by one, the empty results
      dropped, and the rest joined with single spaces. */
  lemma SanitizedOfLines(ls: seq<string>)
    requires |ls| > 0
    requires forall k :: 0 <= k < |ls| ==> NoLineBreak(ls[k])
    ensures Sanitized(JoinWith("\n", ls)) == Strip(JoinWith(" ", NonEmpty(CleanLines(ls))))
  {
    LinesOfJoin(ls);
  }

  /** A single line with no surrounding whitespace and no two-digit
      numbering comes back unchanged. */
  lemma SanitizedPlain(s: string)
    requires NoLineBreak(s) && IsStripped(s) && !SecondGuard(s)
    ensures Sanitized(s) == s
  {
    SanitizedSingle(s);
    LStripOfStart(s);
    CleanUnnumbered(s);
    StripOfStripped(s);
  }

  lemma CleanLinesAppend(a: seq<string>, b: seq<string>)
    ensures CleanLines(a + b) == CleanLines(a) + CleanLines(b)
  {
  }

  lemma LinesWithBlank(a: string, c: char, w: string, b: string)
    requires IsLineBreak(c) && NoLineBreak(w)
    ensures Lines(a + [c] + (w + [c] + b)) == Lines(a) + ([w] + Lines(b))
  {
    LinesAppend(a, c, w + [c] + b);
    LinesAppend(w, c, b);
    LinesOfUnbroken(w);
  }

  lemma KeptWithBlank(la: seq<string>, w: string, lb: seq<string>)
    requires IsBlank(w)
    ensures NonEmpty(CleanLines(la + ([w] + lb))) == NonEmpty(CleanLines(la + lb))
  {
    CleanBlank(w);
    CleanLinesAppend(la, [w] + lb);
    CleanLinesAppend([w], lb);
    CleanLinesAppend(la, lb);
    var ca, cb := CleanLines(la), CleanLines(lb);
    assert CleanLines([w]) == [[]];
    NonEmptyAppend(ca, [[]] + cb);
    NonEmptyAppend([[]], cb);
    NonEmptyAppend(ca, cb);
  }

  /** Inserting a blank line anywhere leaves the output unchanged. */
  lemma SanitizedBlankLine(a: string, c: char, w: string, b: string)
    requires IsLineBreak(c) && IsBlank(w) && NoLineBreak(w)
    ensures Sanitized(a + [c] + (w + [c] + b)) == Sanitized(a + [c] + b)
  {
    LinesWithBlank(a, c, w, b);
    LinesAppend(a, c, b);
    KeptWithBlank(Lines(a), w, Lines(b));
  }

  /** One blank before non-space text is stripped. */
  lemma LStripSpaceThen(rest: string)
    requires rest != [] && !IsSpace(rest[0])
    ensures LStrip([' '] + rest) == rest
  {
    assert ([' '] + rest)[1..] == rest;
    LStripOfStart(rest);
  }

  /** Sanitizing is not idempotent: on "12. 34. x" a second pass removes
      the numbering that the first pass exposed. */
  lemma SanitizedTwice(once: string, twice: string)
    requires once == "12. 34. x" && twice == "34. x"
    ensures Sanitized(once) == twice
    ensures Sanitized(twice) == "x"
    ensures Sanitized(Sanitized(once)) != Sanitized(once)
  {
    FirstPass(once, twice);
    var x := twice[4..];
    assert x == "x";
    SecondPass(twice, x);
  }

  lemma FirstPass(once: string, twice: string)
    requires once == "12. 34. x" && twice == "34. x"
    ensures Sanitized(once) == twice
  {
    assert once == ['1', '2', '.'] + ([' '] + twice);
    assert NoLineBreak([' '] + twice) && IsStripped(twice);
    LStripSpaceThen(twice);
    SanitizedNumbered(once, '1', '2', [' '] + twice);
  }

  lemma SecondPass(twice: string, x: string)
    requires twice == "34. x" && x == "x"
    ensures Sanitized(twice) == x
  {
    assert twice == ['3', '4', '.'] + ([' '] + x);
    assert NoLineBreak([' '] + x) && IsStripped(x);
    LStripSpaceThen(x);
    SanitizedNumbered(twice, '3', '4', [' '] + x);
  }

  lemma CleanLinesOne(s: string)
    ensures CleanLines([s]) == [CleanLine(s)]
  {
    assert |CleanLines([s])| == 1;
    assert CleanLines([s])[0] == CleanLine(s);
  }

  lemma JoinOne(l: string)
    ensures Strip(JoinWith(" ", NonEmpty([l]))) == Strip(l)
  {
    if l == [] {
      assert NonEmpty([l]) == [];
    } else {
      assert NonEmpty([l]) == [l];
    }
  }

  /** A single line is cleaned and stripped. */
  lemma SanitizedSingle(s: string)
    requires NoLineBreak(s)
    ensures Sanitized(s) == Strip(CleanLine(s))
  {
    LinesOfUnbroken(s);
    CleanLinesOne(s);
    JoinOne(CleanLine(s));
  }

  /** A single line that starts with a two-digit numbering loses it. */
  lemma SanitizedNumbered(s: string, d1: char, d2: char, rest: string)
    requires IsDigit(d1) && IsDigit(d2) && s == [d1, d2, '.'] + rest
    requires NoLineBreak(rest) && IsStripped(LStrip(rest))
    ensures Sanitized(s) == LStrip(rest)
  {
    assert NoLineBreak(s) by {
      assert forall i :: 3 <= i < |s| ==> s[i] == rest[i - 3];
    }
    SanitizedSingle(s);
    CleanNumberedStart(d1, d2, rest);
    StripOfStripped(LStrip(rest));
  }

  lemma CleanLinesEq(lines: seq<string>, ls: seq<string>)
    requires |lines| == |ls|
    requires forall j :: 0 <= j < |ls| ==> lines[j] == CleanLine(ls[j])
    ensures lines == CleanLines(ls)
  {
    assert forall j :: 0 <= j < |lines| ==> lines[j] == CleanLines(ls)[j];
  }

  lemma CleanLinesSnoc(lines: seq<string>, ls: seq<string>, x: string)
    requires |lines| < |ls| && x == CleanLine(ls[|lines|])
    requires forall j :: 0 <= j < |lines| ==> lines[j] == CleanLine(ls[j])
    ensures forall j :: 0 <= j < |lines| + 1 ==> (lines + [x])[j] == CleanLine(ls[j])
  {
  }

  /** `_sanitize_summary`: the loop over `splitlines()` that builds `lines`. */
  method Sanitize(text: string) returns (r: string)
    ensures r == Sanitized(text)
  {
    var ls := Lines(text);
    var lines: seq<string> := [];
    for k := 0 to |ls|
      invariant |lines| == k
      invariant forall j :: 0 <= j < k ==> lines[j] == CleanLine(ls[j])
    {
      var stripped := LStrip(ls[k]);
      ghost var st := stripped;
      if FirstGuard(stripped) {
        stripped := LStrip(Slice(stripped, 2, |stripped|));
      } else if SecondGuard(stripped) {
        stripped := LStrip(Slice(stripped, 3, |stripped|));
      }
      assert stripped == CleanLine(ls[k]);
      CleanLinesSnoc(lines, ls, stripped);
      lines := lines + [stripped];
    }
    CleanLinesEq(lines, ls);
    r := Strip(JoinWith(" ", NonEmpty(lines)));
  }
}
