/**
 * The Python string built-ins the pipeline relies on: `str.isspace`,
 * `str.strip`/`lstrip`, `str.split()`, `str.splitlines()`, `str.lower()`,
 * `str.isdigit()` and `sep.join(...)`.
 *
 * Character classes are the ASCII part of Python's; `ToLower` also folds the
 * basic Cyrillic capitals, since the retry prompt asks for Russian output.
 */
module Strings {

  /** Python's `str.isspace()` restricted to ASCII (it includes the four
      information separators 0x1C..0x1F). */
  predicate IsSpace(c: char) {
    c == ' ' || c == '\t' || c == '\n' || c == '\r' || c == '\U{B}' || c == '\U{C}'
    || ('\U{1C}' <= c <= '\U{1F}')
  }

  /** The ASCII characters at which `str.splitlines()` breaks a line. */
  predicate IsLineBreak(c: char) {
    c == '\n' || c == '\r' || c == '\U{B}' || c == '\U{C}' || ('\U{1C}' <= c <= '\U{1E}')
  }

  /** `str.isdigit()` on one ASCII character. */
  predicate IsDigit(c: char) {
    '0' <= c <= '9'
  }

  /** `str.isdigit()` on a string: non-empty and every character a digit. */
  predicate IsDigits(s: string) {
    |s| > 0 && forall i :: 0 <= i < |s| ==> IsDigit(s[i])
  }

  predicate NoSpace(s: string) {
    forall i :: 0 <= i < |s| ==> !IsSpace(s[i])
  }

  predicate NoLineBreak(s: string) {
    forall i :: 0 <= i < |s| ==> !IsLineBreak(s[i])
  }

  predicate IsBlank(s: string) {
    forall i :: 0 <= i < |s| ==> IsSpace(s[i])
  }

  /** Neither leading nor trailing whitespace: what `strip()` produces. */
  predicate IsStripped(s: string) {
    s == [] || (!IsSpace(s[0]) && !IsSpace(s[|s| - 1]))
  }

  /** `s.lstrip()`: the suffix of `s` left after its leading whitespace. */
  function LStrip(s: string): (r: string)
    ensures |r| <= |s| && r == s[|s| - |r|..]
    ensures forall i :: 0 <= i < |s| - |r| ==> IsSpace(s[i])
    ensures r == [] || !IsSpace(r[0])
  {
    if s != [] && IsSpace(s[0]) then LStrip(s[1..]) else s
  }

  /** `s.rstrip()`: the prefix of `s` left after its trailing whitespace. */
  function RStrip(s: string): (r: string)
    ensures |r| <= |s| && r == s[..|r|]
    ensures forall i :: |r| <= i < |s| ==> IsSpace(s[i])
    ensures r == [] || !IsSpace(r[|r| - 1])
  {
    if s != [] && IsSpace(s[|s| - 1]) then RStrip(s[..|s| - 1]) else s
  }

  /** `s.strip()`. */
  function Strip(s: string): (r: string)
    ensures IsStripped(r)
    ensures r == [] <==> IsBlank(s)
  {
    var l := LStrip(s);
    assert l != [] ==> l[0] == s[|s| - |l|];
    assert s[..|s|] == s;
    var r := RStrip(l);
    assert l[|l|..] == [];
    r
  }

  lemma LStripDropsBlank(s: string)
    ensures IsBlank(s[..|s| - |LStrip(s)|])
  {
    var i := |s| - |LStrip(s)|;
    forall k | 0 <= k < i ensures IsSpace(s[..i][k]) {
      assert s[..i][k] == s[k];
    }
  }

  lemma RStripDropsBlank(l: string)
    ensures IsBlank(l[|RStrip(l)|..])
  {
    var j := |RStrip(l)|;
    forall k | 0 <= k < |l| - j ensures IsSpace(l[j..][k]) {
      assert l[j..][k] == l[j + k];
    }
  }

  /** `strip()` removes exactly a blank prefix and a blank suffix: the
      result is a slice of the input with only whitespace around it. */
  lemma StripSlice(s: string)
    ensures exists i, j ::
      && 0 <= i <= j <= |s| && Strip(s) == s[i..j]
      && IsBlank(s[..i]) && IsBlank(s[j..]) && IsStripped(s[i..j])
  {
    var l := LStrip(s);
    var r := RStrip(l);
    var i := |s| - |l|;
    var j := i + |r|;
    LStripDropsBlank(s);
    RStripDropsBlank(l);
    SuffixSlices(s, i, |r|);
    assert Strip(s) == r;
  }

  lemma SuffixSlices<T>(s: seq<T>, i: nat, n: nat)
    requires i + n <= |s|
    ensures s[i..][..n] == s[i..i + n] && s[i..][n..] == s[i + n..]
  {
  }

  lemma StripOfStripped(s: string)
    requires IsStripped(s)
    ensures Strip(s) == s
  {
  }

  /** Stripping a string that ends with a non-space keeps a suffix of it that
      still ends with that character. */
  lemma StripKeepsEnd(s: string)
    requires s != [] && !IsSpace(s[|s| - 1])
    ensures Strip(s) == LStrip(s) && Strip(s) != []
    ensures Strip(s)[|Strip(s)| - 1] == s[|s| - 1]
  {
    assert s[..|s|] == s;
    var l := LStrip(s);
    assert l != [] ==> l[|l| - 1] == s[|s| - 1];
  }

  /** `s.lower()`: ASCII capitals and the Cyrillic capitals U+0400..U+042F. */
  function ToLower(c: char): char {
    if 'A' <= c <= 'Z' then (c as int + 32) as char
    else if '\U{410}' <= c <= '\U{42F}' then (c as int + 32) as char
    else if '\U{400}' <= c <= '\U{40F}' then (c as int + 80) as char
    else c
  }

  function Lower(s: string): (r: string)
    ensures |r| == |s|
  {
    seq(|s|, i requires 0 <= i < |s| => ToLower(s[i]))
  }

  /** The length of the run of non-space characters that starts `s`. */
  function WordLength(s: string): (k: nat)
    ensures k <= |s| && NoSpace(s[..k])
    ensures k < |s| ==> IsSpace(s[k])
  {
    if s == [] || IsSpace(s[0]) then 0
    else
      var k := 1 + WordLength(s[1..]);
      assert s[..k] == [s[0]] + s[1..][..k - 1];
      k
  }

  /** `s.split()` with no separator: the maximal runs of non-space
      characters, in order. */
  function Words(s: string): (ws: seq<string>)
    ensures forall k :: 0 <= k < |ws| ==> ws[k] != [] && NoSpace(ws[k])
    decreases |s|
  {
    if s == [] then []
    else if IsSpace(s[0]) then Words(s[1..])
    else
      var k := WordLength(s);
      [s[..k]] + Words(s[k..])
  }

  /** The pieces of `s` between line-break characters.  This is
      `str.splitlines()` except that it also yields an empty piece where
      Python yields none (for the empty string, after a final line break,
      and between the two halves of "\r\n"); the only caller drops empty
      lines, so the difference never shows. */
  function Lines(s: string): (ls: seq<string>)
    ensures |ls| > 0
  {
    if s == [] then [[]]
    else
      var rest := Lines(s[1..]);
      if IsLineBreak(s[0]) then [[]] + rest
      else [[s[0]] + rest[0]] + rest[1..]
  }

  /** No line holds a line break. */
  lemma {:induction false} LinesNoLineBreak(s: string)
    ensures forall k :: 0 <= k < |Lines(s)| ==> NoLineBreak(Lines(s)[k])
  {
    if s != [] {
      LinesNoLineBreak(s[1..]);
      var rest := Lines(s[1..]);
      if !IsLineBreak(s[0]) {
        var first := [s[0]] + rest[0];
        assert forall i :: 1 <= i < |first| ==> first[i] == rest[0][i - 1];
      }
    }
  }

  lemma {:induction false} LinesOfUnbroken(s: string)
    requires NoLineBreak(s)
    ensures Lines(s) == [s]
  {
    if s != [] {
      LinesOfUnbroken(s[1..]);
      assert [s[0]] + s[1..] == s;
    }
  }

  /** Breaking a string at one line break splits its lines in two. */
  lemma {:induction false} LinesAppend(a: string, b: char, c: string)
    requires IsLineBreak(b)
    ensures Lines(a + [b] + c) == Lines(a) + Lines(c)
  {
    if a == [] {
      assert a + [b] + c == [b] + c;
      assert ([b] + c)[1..] == c;
    } else {
      assert (a + [b] + c)[1..] == a[1..] + [b] + c;
      LinesAppend(a[1..], b, c);
    }
  }

  /** `sep.join(parts)`. */
  function JoinWith(sep: string, parts: seq<string>): string {
    if parts == [] then []
    else if |parts| == 1 then parts[0]
    else parts[0] + sep + JoinWith(sep, parts[1..])
  }

  /** The non-empty elements of `parts`, in order (`[p for p in parts if p]`). */
  function NonEmpty(parts: seq<string>): (r: seq<string>)
    ensures |r| <= |parts|
    ensures forall k :: 0 <= k < |r| ==> r[k] != []
  {
    if parts == [] then []
    else if parts[0] == [] then NonEmpty(parts[1..])
    else [parts[0]] + NonEmpty(parts[1..])
  }

  lemma {:induction false} NonEmptyAppend(a: seq<string>, b: seq<string>)
    ensures NonEmpty(a + b) == NonEmpty(a) + NonEmpty(b)
  {
    if a == [] {
      assert a + b == b;
    } else {
      assert (a + b)[1..] == a[1..] + b;
      NonEmptyAppend(a[1..], b);
    }
  }

  /** The concatenation of a sequence of strings (`"".join(parts)`). */
  function Concat(parts: seq<string>): string {
    if parts == [] then [] else parts[0] + Concat(parts[1..])
  }

  lemma {:induction false} ConcatAppend(a: seq<string>, b: seq<string>)
    ensures Concat(a + b) == Concat(a) + Concat(b)
  {
    if a == [] {
      assert a + b == b;
    } else {
      assert (a + b)[1..] == a[1..] + b;
      ConcatAppend(a[1..], b);
    }
  }

  /** `[s.strip() for s in parts]`. */
  function StripAll(parts: seq<string>): (r: seq<string>)
    ensures |r| == |parts|
    ensures forall k :: 0 <= k < |r| ==> r[k] == Strip(parts[k])
  {
    seq(|parts|, k requires 0 <= k < |parts| => Strip(parts[k]))
  }

  lemma StripAllAppend(a: seq<string>, b: seq<string>)
    ensures StripAll(a + b) == StripAll(a) + StripAll(b)
  {
  }

  lemma {:induction false} NonEmptyOfNonEmpty(parts: seq<string>)
    requires forall k :: 0 <= k < |parts| ==> parts[k] != []
    ensures NonEmpty(parts) == parts
  {
    if parts != [] {
      NonEmptyOfNonEmpty(parts[1..]);
    }
  }

  /** Leading blanks make no difference to `lstrip()`. */
  lemma {:induction false} LStripBlankPrefix(w: string, s: string)
    requires IsBlank(w)
    ensures LStrip(w + s) == LStrip(s)
  {
    if w != [] {
      assert (w + s)[1..] == w[1..] + s;
      LStripBlankPrefix(w[1..], s);
    } else {
      assert w + s == s;
    }
  }
  // Small sequence identities, kept as lemmas so that proofs over strings
  // need not rediscover them.

  lemma NilAppend<T>(xs: seq<T>)
    ensures [] + xs == xs
  {
  }

  lemma AppendNil<T>(xs: seq<T>)
    ensures xs + [] == xs
  {
  }

  lemma AppendAssoc<T>(a: seq<T>, b: seq<T>, c: seq<T>)
    ensures a + (b + c) == (a + b) + c
  {
  }

  lemma DropHead<T>(x: T, xs: seq<T>)
    ensures ([x] + xs)[1..] == xs
  {
  }

  lemma SplitHead<T>(xs: seq<T>)
    requires |xs| > 0
    ensures xs == [xs[0]] + xs[1..]
  {
  }

  lemma PairSplit<T>(a: T, b: T)
    ensures [a, b] == [a] + [b]
  {
  }

  lemma SliceDrop(a: string, b: string)
    ensures Slice(a + b, |a|, |a + b|) == b
  {
    assert (a + b)[|a|..] == b;
  }

  lemma SliceAt(s: string, i: nat)
    requires i < |s|
    ensures Slice(s, i, i + 1) == [s[i]]
  {
  }

  /** Python's slice `s[i:j]` for non-negative bounds: both are clamped to
      the length, and an inverted range is empty. */
  function Slice(s: string, i: nat, j: nat): (r: string)
    ensures j <= |s| && i <= j ==> r == s[i..j]
    ensures |r| <= |s|
  {
    var hi := if j < |s| then j else |s|;
    var lo := if i < hi then i else hi;
    s[lo..hi]
  }

  /** `strip()` keeps a run of consecutive characters of its input. */
  lemma StripInside(s: string)
    ensures |s| - |LStrip(s)| + |Strip(s)| <= |s|
    ensures forall i :: 0 <= i < |Strip(s)| ==> Strip(s)[i] == s[|s| - |LStrip(s)| + i]
  {
  }

  lemma StripNoLineBreak(s: string)
    requires NoLineBreak(s)
    ensures NoLineBreak(Strip(s))
  {
    StripInside(s);
  }

  /** Every element kept by `NonEmpty` is an element of its input. */
  lemma {:induction false} NonEmptyFrom(parts: seq<string>)
    ensures forall k :: 0 <= k < |NonEmpty(parts)| ==> NonEmpty(parts)[k] in parts
  {
    if parts != [] {
      NonEmptyFrom(parts[1..]);
    }
  }

  /** Joining line-free parts with a line-free separator gives a line-free
      string. */
  lemma {:induction false} JoinNoLineBreak(sep: string, parts: seq<string>)
    requires NoLineBreak(sep)
    requires forall k :: 0 <= k < |parts| ==> NoLineBreak(parts[k])
    ensures NoLineBreak(JoinWith(sep, parts))
  {
    if |parts| > 1 {
      JoinNoLineBreak(sep, parts[1..]);
      var j := JoinWith(sep, parts[1..]);
      var whole := parts[0] + sep + j;
      assert forall i :: 0 <= i < |parts[0]| ==> whole[i] == parts[0][i];
      assert forall i :: 0 <= i < |sep| ==> whole[|parts[0]| + i] == sep[i];
      assert forall i :: 0 <= i < |j| ==> whole[|parts[0]| + |sep| + i] == j[i];
    }
  }

  /** `splitlines()` undoes `"\n".join(...)` on parts without line breaks. */
  lemma {:induction false} LinesOfJoin(parts: seq<string>)
    requires |parts| > 0
    requires forall k :: 0 <= k < |parts| ==> NoLineBreak(parts[k])
    ensures Lines(JoinWith("\n", parts)) == parts
  {
    if |parts| == 1 {
      LinesOfUnbroken(parts[0]);
    } else {
      LinesOfJoin(parts[1..]);
      LinesAppend(parts[0], '\n', JoinWith("\n", parts[1..]));
      LinesOfUnbroken(parts[0]);
      assert parts[0] + "\n" + JoinWith("\n", parts[1..]) == parts[0] + ['\n'] + JoinWith("\n", parts[1..]);
      assert parts == [parts[0]] + parts[1..];
    }
  }
  /** Characters that `lower()` leaves alone. */
  predicate IsLowerCase(s: string) {
    forall i :: 0 <= i < |s| ==> ToLower(s[i]) == s[i]
  }

  lemma LowerOfLowerCase(s: string)
    requires IsLowerCase(s)
    ensures Lower(s) == s
  {
  }

  /** Joining lower-case parts with a lower-case separator gives lower-case
      text. */
  lemma {:induction false} JoinLowerCase(sep: string, parts: seq<string>)
    requires IsLowerCase(sep)
    requires forall k :: 0 <= k < |parts| ==> IsLowerCase(parts[k])
    ensures IsLowerCase(JoinWith(sep, parts))
  {
    if |parts| > 1 {
      JoinLowerCase(sep, parts[1..]);
      var j := JoinWith(sep, parts[1..]);
      var whole := parts[0] + sep + j;
      assert forall i :: 0 <= i < |parts[0]| ==> whole[i] == parts[0][i];
      assert forall i :: 0 <= i < |sep| ==> whole[|parts[0]| + i] == sep[i];
      assert forall i :: 0 <= i < |j| ==> whole[|parts[0]| + |sep| + i] == j[i];
    }
  }

  /** A run of non-space characters ended by a space or the end of the text
      is one word long. */
  lemma {:induction false} WordLengthOf(w: string, r: string)
    requires NoSpace(w) && (r == [] || IsSpace(r[0]))
    ensures WordLength(w + r) == |w|
  {
    if w != [] {
      assert (w + r)[1..] == w[1..] + r;
      WordLengthOf(w[1..], r);
    } else {
      assert w + r == r;
    }
  }

  /** A blank text has no words. */
  lemma {:induction false} WordsOfBlank(b: string)
    requires IsBlank(b)
    ensures Words(b) == []
  {
    if b != [] {
      WordsOfBlank(b[1..]);
    }
  }

  /** Leading whitespace does not change the words. */
  lemma {:induction false} WordsBlankPrefix(b: string, s: string)
    requires IsBlank(b)
    ensures Words(b + s) == Words(s)
  {
    if b == [] {
      NilAppend(s);
    } else {
      assert (b + s)[1..] == b[1..] + s;
      WordsBlankPrefix(b[1..], s);
    }
  }

  /** A run of non-space characters ended by a space or the end of the text
      is the first word. */
  lemma WordsOfWord(w: string, r: string)
    requires w != [] && NoSpace(w) && (r == [] || IsSpace(r[0]))
    ensures Words(w + r) == [w] + Words(r)
  {
    WordLengthOf(w, r);
    assert (w + r)[..|w|] == w;
    assert (w + r)[|w|..] == r;
  }

  /** `split()` undoes `" ".join(...)` on non-empty words. */
  lemma {:induction false} WordsOfJoin(ws: seq<string>)
    requires forall k :: 0 <= k < |ws| ==> ws[k] != [] && NoSpace(ws[k])
    ensures Words(JoinWith(" ", ws)) == ws
  {
    if |ws| == 1 {
      WordsOfWord(ws[0], []);
      AppendNil(ws[0]);
    } else if |ws| > 1 {
      var j := JoinWith(" ", ws[1..]);
      WordsOfJoin(ws[1..]);
      AppendAssoc(ws[0], " ", j);
      WordsOfWord(ws[0], " " + j);
      DropHead(' ', j);
      SplitHead(ws);
    }
  }
}
