/**
 * The sentence splitter `_split_sentences`: scan the text character by
 * character, cut after every `.`, `!` or `?`, and keep the stripped pieces
 * that are not blank.
 */
module Splitter {
  import opened Strings

  predicate IsTerminator(c: char) {
    c == '.' || c == '!' || c == '?'
  }

  predicate NoTerminator(s: string) {
    forall i :: 0 <= i < |s| ==> !IsTerminator(s[i])
  }

  /** A piece that was cut at a terminator: it ends with one and holds no
      other. */
  predicate IsClosed(p: string) {
    p != [] && IsTerminator(p[|p| - 1]) && TerminatorOnlyLast(p)
  }

  /** No terminator before the last character. */
  predicate TerminatorOnlyLast(p: string) {
    forall i :: 0 <= i < |p| - 1 ==> !IsTerminator(p[i])
  }

  /** A well-formed sentence: closed and already stripped. */
  predicate IsSentence(p: string) {
    IsClosed(p) && IsStripped(p)
  }

  /** The number of terminator characters in `s`. */
  function CountTerminators(s: string): nat {
    if s == [] then 0
    else CountTerminators(s[..|s| - 1]) + (if IsTerminator(s[|s| - 1]) then 1 else 0)
  }

  /** The text after the last terminator of `s` (all of `s` if it has none). */
  function Tail(s: string): string {
    if s == [] then []
    else if IsTerminator(s[|s| - 1]) then []
    else Tail(s[..|s| - 1]) + [s[|s| - 1]]
  }

  /** One step of the scan: append `c` to the open piece, and close it when
      `c` is a terminator. */
  function Extend(ps: seq<string>, c: char): (r: seq<string>)
    requires |ps| > 0
    ensures |r| > 0
  {
    var open := ps[|ps| - 1] + [c];
    if IsTerminator(c) then ps[..|ps| - 1] + [open, []]
    else ps[..|ps| - 1] + [open]
  }

  /** `s` cut after every terminator, read left to right as the loop does:
      the last element is the text not yet closed by a terminator (possibly
      empty). */
  function Pieces(s: string): (ps: seq<string>)
    ensures |ps| > 0
  {
    if s == [] then [[]]
    else Extend(Pieces(s[..|s| - 1]), s[|s| - 1])
  }

  /** What `_split_sentences(text)` returns. */
  function Sentences(text: string): seq<string> {
    NonEmpty(StripAll(Pieces(text)))
  }

  // Small facts about one scan step, kept apart so that each proof stays cheap.

  lemma SplitLast<T>(xs: seq<T>)
    requires |xs| > 0
    ensures xs == xs[..|xs| - 1] + [xs[|xs| - 1]]
  {
  }

  lemma ExtendOpen(ps: seq<string>, c: char)
    requires |ps| > 0 && !IsTerminator(c)
    ensures Extend(ps, c) == ps[..|ps| - 1] + [ps[|ps| - 1] + [c]]
  {
  }

  lemma ExtendClose(ps: seq<string>, c: char)
    requires |ps| > 0 && IsTerminator(c)
    ensures Extend(ps, c) == (ps[..|ps| - 1] + [ps[|ps| - 1] + [c]]) + [[]]
  {
  }

  lemma ExtendShape(ps: seq<string>, c: char)
    requires |ps| > 0
    ensures var r := Extend(ps, c);
      && |r| == |ps| + (if IsTerminator(c) then 1 else 0)
      && (forall k :: 0 <= k < |ps| - 1 ==> r[k] == ps[k])
      && r[|ps| - 1] == ps[|ps| - 1] + [c]
      && r[|r| - 1] == (if IsTerminator(c) then [] else ps[|ps| - 1] + [c])
  {
  }

  lemma PiecesSnoc(s: string, c: char)
    ensures Pieces(s + [c]) == Extend(Pieces(s), c)
  {
    assert (s + [c])[..|s|] == s;
  }

  lemma ExtendAppend(done: seq<string>, ps: seq<string>, c: char)
    requires |ps| > 0
    ensures Extend(done + ps, c) == done + Extend(ps, c)
  {
    var all := done + ps;
    assert all[..|all| - 1] == done + ps[..|ps| - 1];
  }

  lemma ConcatSnoc(done: seq<string>, x: string)
    ensures Concat(done + [x]) == Concat(done) + x
  {
    ConcatAppend(done, [x]);
    assert Concat([x]) == x + Concat([]);
  }

  lemma ConcatGrow(done: seq<string>, last: string, c: char)
    ensures Concat(done + [last + [c]]) == Concat(done + [last]) + [c]
  {
    ConcatSnoc(done, last);
    ConcatSnoc(done, last + [c]);
    var d := Concat(done);
    assert d + (last + [c]) == (d + last) + [c];
  }

  lemma ConcatEmptyLast(front: seq<string>)
    ensures Concat(front + [[]]) == Concat(front)
  {
    ConcatSnoc(front, []);
    assert Concat(front) + [] == Concat(front);
  }

  lemma ExtendConcat(ps: seq<string>, c: char)
    requires |ps| > 0
    ensures Concat(Extend(ps, c)) == Concat(ps) + [c]
  {
    var done, last := ps[..|ps| - 1], ps[|ps| - 1];
    SplitLast(ps);
    ConcatGrow(done, last, c);
    if IsTerminator(c) {
      ExtendClose(ps, c);
      ConcatEmptyLast(done + [last + [c]]);
    } else {
      ExtendOpen(ps, c);
    }
  }

  /** The pieces give back the text. */
  lemma {:induction false} PiecesConcat(s: string)
    ensures Concat(Pieces(s)) == s
  {
    if s != [] {
      var init := s[..|s| - 1];
      PiecesConcat(init);
      ExtendConcat(Pieces(init), s[|s| - 1]);
      SplitLast(s);
    }
  }

  /** There is one more piece than there are terminators, and the last piece
      is the text after the last terminator. */
  lemma {:induction false} PiecesCount(s: string)
    ensures |Pieces(s)| == CountTerminators(s) + 1
    ensures Pieces(s)[|Pieces(s)| - 1] == Tail(s)
  {
    if s != [] {
      PiecesCount(s[..|s| - 1]);
      ExtendShape(Pieces(s[..|s| - 1]), s[|s| - 1]);
    }
  }

  lemma {:induction false} TailOpen(s: string)
    ensures NoTerminator(Tail(s))
  {
    if s != [] && !IsTerminator(s[|s| - 1]) {
      TailOpen(s[..|s| - 1]);
    }
  }

  lemma ExtendClosed(ps: seq<string>, c: char)
    requires |ps| > 0 && NoTerminator(ps[|ps| - 1])
    requires forall k :: 0 <= k < |ps| - 1 ==> IsClosed(ps[k])
    ensures var r := Extend(ps, c);
      forall k :: 0 <= k < |r| - 1 ==> IsClosed(r[k])
  {
    ExtendShape(ps, c);
  }

  /** Every piece but the last is closed. */
  lemma {:induction false} PiecesClosed(s: string)
    ensures forall k :: 0 <= k < |Pieces(s)| - 1 ==> IsClosed(Pieces(s)[k])
  {
    if s != [] {
      var init := s[..|s| - 1];
      PiecesClosed(init);
      PiecesCount(init);
      TailOpen(init);
      ExtendClosed(Pieces(init), s[|s| - 1]);
    }
  }

  /** The pieces give back the text, there is one more piece than there are
      terminators, every piece but the last is closed, and the last is the
      text after the last terminator. */
  lemma PiecesShape(s: string)
    ensures Concat(Pieces(s)) == s
    ensures |Pieces(s)| == CountTerminators(s) + 1
    ensures Pieces(s)[|Pieces(s)| - 1] == Tail(s)
    ensures NoTerminator(Tail(s))
    ensures forall k :: 0 <= k < |Pieces(s)| - 1 ==> IsClosed(Pieces(s)[k])
  {
    PiecesConcat(s);
    PiecesCount(s);
    TailOpen(s);
    PiecesClosed(s);
  }

  /** A text with no terminator is a single piece. */
  lemma {:induction false} PiecesOfOpen(s: string)
    requires NoTerminator(s)
    ensures Pieces(s) == [s]
  {
    if s != [] {
      var init := s[..|s| - 1];
      PiecesOfOpen(init);
      ExtendOpen([init], s[|s| - 1]);
      SplitLast(s);
    }
  }

  /** A closed piece is one piece followed by the empty tail. */
  lemma PiecesOfClosed(p: string)
    requires IsClosed(p)
    ensures Pieces(p) == [p, []]
  {
    var init := p[..|p| - 1];
    PiecesOfOpen(init);
    ExtendClose([init], p[|p| - 1]);
    SplitLast(p);
  }

  lemma DropEmptyLast(ps: seq<string>)
    requires |ps| > 0 && ps[|ps| - 1] == []
    ensures ps == ps[..|ps| - 1] + [[]]
  {
  }

  lemma {:induction false} PiecesAppendNil(a: string)
    requires a == [] || IsTerminator(a[|a| - 1])
    ensures Pieces(a) == Pieces(a)[..|Pieces(a)| - 1] + [[]]
  {
    if a != [] {
      PiecesCount(a);
    }
    DropEmptyLast(Pieces(a));
  }

  /** After a terminator the scan starts afresh. */
  lemma {:induction false} PiecesAppend(a: string, b: string)
    requires a == [] || IsTerminator(a[|a| - 1])
    ensures Pieces(a + b) == Pieces(a)[..|Pieces(a)| - 1] + Pieces(b)
  {
    if b == [] {
      assert a + b == a;
      PiecesAppendNil(a);
    } else {
      var pa := Pieces(a);
      var b', c := b[..|b| - 1], b[|b| - 1];
      SplitLast(b);
      assert a + b == (a + b') + [c];
      PiecesAppend(a, b');
      PiecesSnoc(a + b', c);
      PiecesSnoc(b', c);
      ExtendAppend(pa[..|pa| - 1], Pieces(b'), c);
    }
  }

  lemma SuffixClosed(p: string, j: nat)
    requires IsClosed(p) && j < |p|
    ensures IsClosed(p[j..])
  {
    var r := p[j..];
    assert forall i :: 0 <= i < |r| ==> r[i] == p[j + i];
  }

  /** Stripping a closed piece leaves a non-empty closed piece. */
  lemma StripClosed(p: string)
    requires IsClosed(p)
    ensures IsSentence(Strip(p))
  {
    StripKeepsEnd(p);
    SuffixClosed(p, |p| - |Strip(p)|);
  }

  lemma StripAllClosed(ps: seq<string>)
    requires forall k :: 0 <= k < |ps| ==> IsClosed(ps[k])
    ensures forall k :: 0 <= k < |ps| ==> IsSentence(StripAll(ps)[k])
  {
    forall k | 0 <= k < |ps|
      ensures IsSentence(StripAll(ps)[k])
    {
      StripClosed(ps[k]);
    }
  }

  lemma StripAllOne(x: string)
    ensures StripAll([x]) == [Strip(x)]
  {
  }

  lemma NonEmptyOne(x: string)
    ensures NonEmpty([x]) == if x == [] then [] else [x]
  {
  }

  /** Stripping and dropping blanks distributes over a split at the last
      element. */
  lemma CleanSnoc(done: seq<string>, x: string)
    ensures NonEmpty(StripAll(done + [x])) == NonEmpty(StripAll(done)) + (if Strip(x) == [] then [] else [Strip(x)])
  {
    StripAllAppend(done, [x]);
    NonEmptyAppend(StripAll(done), StripAll([x]));
    StripAllOne(x);
    NonEmptyOne(Strip(x));
  }

  lemma CleanClosed(done: seq<string>)
    requires forall k :: 0 <= k < |done| ==> IsClosed(done[k])
    ensures NonEmpty(StripAll(done)) == StripAll(done)
    ensures forall k :: 0 <= k < |done| ==> IsSentence(StripAll(done)[k])
  {
    StripAllClosed(done);
    NonEmptyOfNonEmpty(StripAll(done));
  }

  /** Closed pieces followed by an open one: the closed ones stripped, then
      the open one stripped unless that leaves nothing. */
  lemma CleanLayout(ps: seq<string>, t: string)
    requires |ps| > 0 && ps[|ps| - 1] == t
    requires forall k :: 0 <= k < |ps| - 1 ==> IsClosed(ps[k])
    ensures NonEmpty(StripAll(ps)) == StripAll(ps[..|ps| - 1]) + (if Strip(t) == [] then [] else [Strip(t)])
  {
    var done := ps[..|ps| - 1];
    SplitLast(ps);
    CleanSnoc(done, t);
    CleanClosed(done);
  }

  /** The closed pieces, stripped, are sentences. */
  lemma DoneSentences(s: string)
    ensures var done := Pieces(s)[..|Pieces(s)| - 1];
      forall k :: 0 <= k < |done| ==> IsSentence(StripAll(done)[k])
  {
    PiecesClosed(s);
    ClosedPrefix(Pieces(s));
  }

  lemma ClosedPrefix(ps: seq<string>)
    requires |ps| > 0
    requires forall k :: 0 <= k < |ps| - 1 ==> IsClosed(ps[k])
    ensures var done := ps[..|ps| - 1];
      forall k :: 0 <= k < |done| ==> IsSentence(StripAll(done)[k])
  {
    var done := ps[..|ps| - 1];
    assert forall k :: 0 <= k < |done| ==> done[k] == ps[k];
    CleanClosed(done);
  }

  /** The sentences are the stripped closed pieces followed by the stripped
      tail when that is not empty. */
  lemma SentencesSplit(s: string)
    ensures var done := Pieces(s)[..|Pieces(s)| - 1];
      && |done| == CountTerminators(s)
      && Sentences(s) == StripAll(done) + (if Strip(Tail(s)) == [] then [] else [Strip(Tail(s))])
      && (forall k :: 0 <= k < |done| ==> IsSentence(StripAll(done)[k]))
  {
    PiecesCount(s);
    PiecesClosed(s);
    CleanLayout(Pieces(s), Tail(s));
    DoneSentences(s);
  }

  /** The stripped tail holds no terminator either. */
  lemma StrippedTailOpen(s: string)
    ensures NoTerminator(Strip(Tail(s)))
  {
    TailOpen(s);
    StripInside(Tail(s));
  }

  /** The positions of a sequence made of two parts. */
  lemma TwoParts<T>(ss: seq<T>, xs: seq<T>, extra: seq<T>)
    requires ss == xs + extra
    ensures |ss| == |xs| + |extra|
    ensures forall k :: 0 <= k < |xs| ==> ss[k] == xs[k]
    ensures |extra| == 1 ==> ss[|ss| - 1] == extra[0]
  {
  }

  lemma SentencesIndexed(s: string)
    ensures var ss := Sentences(s);
      var st := Strip(Tail(s));
      && |ss| == CountTerminators(s) + (if st == [] then 0 else 1)
      && (forall k :: 0 <= k < CountTerminators(s) ==> IsSentence(ss[k]))
      && (|ss| > CountTerminators(s) ==> ss[|ss| - 1] == st)
  {
    SentencesSplit(s);
    var done := Pieces(s)[..|Pieces(s)| - 1];
    var st := Strip(Tail(s));
    TwoParts(Sentences(s), StripAll(done), if st == [] then [] else [st]);
  }

  /** A closed, stripped part. */
  lemma PartClosed(p: string)
    requires IsSentence(p)
    ensures p != [] && IsStripped(p) && TerminatorOnlyLast(p) && IsTerminator(p[|p| - 1])
  {
  }

  /** The stripped tail, when it is not empty. */
  lemma PartOpen(st: string)
    requires st != [] && IsStripped(st) && NoTerminator(st)
    ensures TerminatorOnlyLast(st)
  {
  }

  /** One part of a split laid out as `SentencesIndexed` describes, by its
      position: `n` closed parts, then the stripped tail `st` if it is not
      empty. */
  lemma PartShape(ss: seq<string>, n: nat, st: string, k: nat)
    requires |ss| == n + (if st == [] then 0 else 1)
    requires forall j :: 0 <= j < n ==> IsSentence(ss[j])
    requires |ss| > n ==> ss[|ss| - 1] == st
    requires IsStripped(st) && NoTerminator(st)
    requires k < |ss|
    ensures ss[k] != [] && IsStripped(ss[k]) && TerminatorOnlyLast(ss[k])
    ensures k < |ss| - 1 ==> IsTerminator(ss[k][|ss[k]| - 1])
  {
    if k < n {
      PartClosed(ss[k]);
    } else {
      assert ss[k] == st;
      PartOpen(st);
    }
  }

  /** The shape of a split laid out as `SentencesIndexed` describes. */
  lemma LayoutShape(ss: seq<string>, n: nat, st: string)
    requires |ss| == n + (if st == [] then 0 else 1)
    requires forall j :: 0 <= j < n ==> IsSentence(ss[j])
    requires |ss| > n ==> ss[|ss| - 1] == st
    requires IsStripped(st) && NoTerminator(st)
    ensures forall k :: 0 <= k < |ss| ==> ss[k] != [] && IsStripped(ss[k]) && TerminatorOnlyLast(ss[k])
    ensures forall k :: 0 <= k < |ss| - 1 ==> IsTerminator(ss[k][|ss[k]| - 1])
  {
    forall k | 0 <= k < |ss|
      ensures ss[k] != [] && IsStripped(ss[k]) && TerminatorOnlyLast(ss[k])
      ensures k < |ss| - 1 ==> IsTerminator(ss[k][|ss[k]| - 1])
    {
      PartShape(ss, n, st, k);
    }
  }

  /** The parts number the terminators, plus one when the text after the
      last terminator is not blank. */
  lemma SentencesCount(s: string)
    ensures |Sentences(s)| == CountTerminators(s) + (if IsBlank(Tail(s)) then 0 else 1)
  {
    SentencesIndexed(s);
  }

  lemma SentencesParts(s: string)
    ensures var ss := Sentences(s);
      forall k :: 0 <= k < |ss| ==> ss[k] != [] && IsStripped(ss[k]) && TerminatorOnlyLast(ss[k])
    ensures var ss := Sentences(s);
      forall k :: 0 <= k < |ss| - 1 ==> IsTerminator(ss[k][|ss[k]| - 1])
  {
    SentencesIndexed(s);
    StrippedTailOpen(s);
    LayoutShape(Sentences(s), CountTerminators(s), Strip(Tail(s)));
  }

  lemma SentencesLast(s: string)
    ensures var ss := Sentences(s);
      |ss| > CountTerminators(s) ==> ss[|ss| - 1] == Strip(Tail(s)) && NoTerminator(ss[|ss| - 1])
  {
    SentencesIndexed(s);
    StrippedTailOpen(s);
  }

  /** What `_split_sentences` promises: every part is non-empty and stripped;
      a terminator can only be a part's last character; every part but the
      last ends with a terminator; the parts number the terminators, plus
      one when the text after the last terminator is not blank, and that
      extra part is the stripped tail. */
  lemma SentencesShape(s: string)
    ensures |Sentences(s)| == CountTerminators(s) + (if IsBlank(Tail(s)) then 0 else 1)
    ensures var ss := Sentences(s);
      forall k :: 0 <= k < |ss| ==> ss[k] != [] && IsStripped(ss[k]) && TerminatorOnlyLast(ss[k])
    ensures var ss := Sentences(s);
      forall k :: 0 <= k < |ss| - 1 ==> IsTerminator(ss[k][|ss[k]| - 1])
    ensures var ss := Sentences(s);
      |ss| > CountTerminators(s) ==> ss[|ss| - 1] == Strip(Tail(s)) && NoTerminator(ss[|ss| - 1])
  {
    SentencesCount(s);
    SentencesParts(s);
    SentencesLast(s);
  }

  /** A text without terminators is one sentence: the whole text stripped,
      unless it is blank. */
  lemma SentencesOfOpen(s: string)
    requires NoTerminator(s)
    ensures Sentences(s) == if IsBlank(s) then [] else [Strip(s)]
  {
    PiecesOfOpen(s);
    CleanSnoc([], s);
    NilAppend([s]);
  }

  lemma BlankThenClosed(w: string, p: string)
    requires IsBlank(w) && IsClosed(p)
    ensures IsClosed(w + p)
  {
    var wp := w + p;
    assert forall i :: 0 <= i < |p| ==> wp[|w| + i] == p[i];
    assert forall i :: 0 <= i < |w| ==> wp[i] == w[i];
  }

  lemma StripBlankThen(w: string, p: string)
    requires IsBlank(w) && IsSentence(p)
    ensures IsClosed(w + p) && Strip(w + p) == p
  {
    BlankThenClosed(w, p);
    LStripBlankPrefix(w, p);
    StripOfStripped(p);
  }

  lemma JoinCons(ps: seq<string>)
    requires |ps| > 1
    ensures JoinWith(" ", ps) == ps[0] + (" " + JoinWith(" ", ps[1..]))
  {
  }

  lemma CleanCons(x: string, rest: seq<string>)
    requires !IsBlank(x)
    ensures NonEmpty(StripAll([x] + rest)) == [Strip(x)] + NonEmpty(StripAll(rest))
  {
    StripAllAppend([x], rest);
    StripAllOne(x);
    NonEmptyAppend([Strip(x)], StripAll(rest));
    NonEmptyOne(Strip(x));
  }

  lemma PiecesAfterClosed(wp: string, rest: string)
    requires IsClosed(wp)
    ensures Pieces(wp + rest) == [wp] + Pieces(rest)
  {
    PiecesAppend(wp, rest);
    PiecesOfClosed(wp);
    assert [wp, []][..1] == [wp];
  }

  /** Blank text holds no sentence. */
  lemma BlankPieces(w: string)
    requires IsBlank(w)
    ensures NonEmpty(StripAll(Pieces(w))) == []
  {
    assert NoTerminator(w);
    PiecesOfOpen(w);
    CleanSnoc([], w);
    NilAppend([w]);
  }

  /** A closed piece whose stripped form is `p` gives just `p`. */
  lemma CleanClosedOne(wp: string, p: string)
    requires IsClosed(wp) && Strip(wp) == p && p != []
    ensures NonEmpty(StripAll(Pieces(wp))) == [p]
  {
    PiecesOfClosed(wp);
    PairSplit(wp, []);
    CleanCons(wp, [[]]);
    assert NonEmpty(StripAll([[]])) == [] by {
      BlankPieces([]);
    }
  }

  /** Leading blanks and one sentence give that sentence. */
  lemma CleanOne(w: string, p: string)
    requires IsBlank(w) && IsSentence(p)
    ensures NonEmpty(StripAll(Pieces(w + p))) == [p]
  {
    StripBlankThen(w, p);
    CleanClosedOne(w + p, p);
  }

  /** Leading blanks and one sentence, then more text: the sentence comes
      first, and the rest is split on its own. */
  lemma CleanFirst(w: string, p: string, rest: string)
    requires IsBlank(w) && IsSentence(p)
    ensures NonEmpty(StripAll(Pieces((w + p) + rest))) == [p] + NonEmpty(StripAll(Pieces(rest)))
  {
    StripBlankThen(w, p);
    PiecesAfterClosed(w + p, rest);
    CleanCons(w + p, Pieces(rest));
  }

  lemma JoinAfter(w: string, ps: seq<string>)
    requires |ps| > 1
    ensures w + JoinWith(" ", ps) == (w + ps[0]) + (" " + JoinWith(" ", ps[1..]))
  {
    JoinCons(ps);
  }

  lemma JoinStep(w: string, ps: seq<string>)
    requires IsBlank(w) && |ps| > 1 && IsSentence(ps[0])
    requires NonEmpty(StripAll(Pieces(" " + JoinWith(" ", ps[1..])))) == ps[1..]
    ensures NonEmpty(StripAll(Pieces(w + JoinWith(" ", ps)))) == ps
  {
    JoinAfter(w, ps);
    CleanFirst(w, ps[0], " " + JoinWith(" ", ps[1..]));
    assert ps == [ps[0]] + ps[1..];
  }

  /** Leading blanks followed by sentences joined with single spaces split
      back into exactly those sentences. */
  lemma {:induction false} SentencesOfJoinAfter(w: string, ps: seq<string>)
    requires IsBlank(w)
    requires forall k :: 0 <= k < |ps| ==> IsSentence(ps[k])
    ensures NonEmpty(StripAll(Pieces(w + JoinWith(" ", ps)))) == ps
    decreases ps
  {
    if ps == [] {
      assert w + JoinWith(" ", ps) == w;
      BlankPieces(w);
    } else if |ps| == 1 {
      assert w + JoinWith(" ", ps) == w + ps[0];
      CleanOne(w, ps[0]);
    } else {
      SentencesOfJoinAfter(" ", ps[1..]);
      JoinStep(w, ps);
    }
  }

  /** Sentences joined with single spaces split back into the same
      sentences. */
  lemma SentencesOfJoin(ps: seq<string>)
    requires forall k :: 0 <= k < |ps| ==> IsSentence(ps[k])
    ensures Sentences(JoinWith(" ", ps)) == ps
  {
    SentencesOfJoinAfter([], ps);
    NilAppend(JoinWith(" ", ps));
  }

  /** Non-empty stripped strings joined with single spaces are stripped. */
  lemma {:induction false} JoinStripped(ps: seq<string>)
    requires forall k :: 0 <= k < |ps| ==> ps[k] != [] && IsStripped(ps[k])
    ensures IsStripped(JoinWith(" ", ps))
    ensures ps != [] ==> JoinWith(" ", ps) != []
  {
    if |ps| > 1 {
      JoinStripped(ps[1..]);
      var j := JoinWith(" ", ps[1..]);
      JoinCons(ps);
      var whole := ps[0] + (" " + j);
      assert whole[0] == ps[0][0];
      assert whole[|whole| - 1] == j[|j| - 1];
    }
  }

  /** One iteration of the scan, on the pieces: the character joins the open
      piece, which is closed (and a new empty one opened) at a terminator. */
  lemma ScanStep(text: string, i: nat, done: seq<string>, buf: string)
    requires i < |text| && Pieces(text[..i]) == done + [buf]
    ensures IsTerminator(text[i]) ==> Pieces(text[..i + 1]) == (done + [buf + [text[i]]]) + [[]]
    ensures !IsTerminator(text[i]) ==> Pieces(text[..i + 1]) == done + [buf + [text[i]]]
  {
    var ch := text[i];
    assert text[..i + 1] == text[..i] + [ch];
    PiecesSnoc(text[..i], ch);
    ExtendAppend(done, [buf], ch);
    if IsTerminator(ch) {
      ExtendClose([buf], ch);
    } else {
      ExtendOpen([buf], ch);
    }
  }

  /** Closing a piece adds its stripped form to the output unless it is
      blank. */
  lemma ScanClose(done: seq<string>, buf: string)
    ensures NonEmpty(StripAll(done + [buf])) == NonEmpty(StripAll(done)) + (if Strip(buf) == [] then [] else [Strip(buf)])
  {
    CleanSnoc(done, buf);
  }

  /** `_split_sentences`: the `for` loop over the characters with the buffer
      `buf`. */
  method SplitSentences(text: string) returns (parts: seq<string>)
    ensures parts == Sentences(text)
  {
    parts := [];
    var buf: string := [];
    ghost var done: seq<string> := [];
    for i := 0 to |text|
      invariant Pieces(text[..i]) == done + [buf]
      invariant parts == NonEmpty(StripAll(done))
    {
      var ch := text[i];
      ScanStep(text, i, done, buf);
      buf := buf + [ch];
      if IsTerminator(ch) {
        var sentence := Strip(buf);
        ScanClose(done, buf);
        if sentence != [] {
          parts := parts + [sentence];
        }
        done := done + [buf];
        buf := [];
      }
    }
    assert text[..|text|] == text;
    var tail := Strip(buf);
    ScanClose(done, buf);
    if tail != [] {
      parts := parts + [tail];
    }
  }
}
