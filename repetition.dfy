/**
 * The repetition detector `_is_repetitive`: count the case-folded 3-token
 * windows of a text in a dictionary and report whether one of them occurs
 * `threshold` times, ignoring texts of fewer than 20 tokens.
 */
module Repetition {
  import opened Strings

  /** Texts with fewer tokens are never repetitive. */
  const MinTokens: int := 20

  /** The default `threshold`. */
  const DefaultThreshold: int := 6

  /** The dictionary key of the window at `i`: `" ".join(tokens[i:i+3])`. */
  function Window(tokens: seq<string>, i: nat): string
    requires i + 3 <= |tokens|
  {
    JoinWith(" ", tokens[i..i + 3])
  }

  /** Every window, in order: one per start in `range(len(tokens) - 2)`. */
  function Windows(tokens: seq<string>): (ws: seq<string>)
    ensures |ws| == if |tokens| >= 3 then |tokens| - 2 else 0
    ensures forall i :: 0 <= i < |ws| ==> ws[i] == Window(tokens, i)
  {
    seq(if |tokens| >= 3 then |tokens| - 2 else 0, i requires 0 <= i && i + 3 <= |tokens| => Window(tokens, i))
  }

  /** At least `MinTokens` tokens, and some window occurs at least
      `threshold` times among all windows. */
  predicate RepetitiveTokens(tokens: seq<string>, threshold: int) {
    var ws := Windows(tokens);
    |tokens| >= MinTokens && exists i :: 0 <= i < |ws| && multiset(ws)[ws[i]] >= threshold
  }

  /** What `_is_repetitive(text, threshold)` returns. */
  predicate Repetitive(text: string, threshold: int) {
    RepetitiveTokens(Words(Lower(text)), threshold)
  }

  /** `counts.get(gram, 0)`. */
  function Get(counts: map<string, int>, g: string): int {
    if g in counts then counts[g] else 0
  }

  /** A prefix holds no more copies of an element than the whole. */
  lemma PrefixCount(ws: seq<string>, k: nat, g: string)
    requires k <= |ws|
    ensures multiset(ws[..k])[g] <= multiset(ws)[g]
  {
    assert ws == ws[..k] + ws[k..];
  }

  /** Counting one more window keeps the dictionary equal to the counts of
      the windows seen so far. */
  lemma CountStep(counts: map<string, int>, ws: seq<string>, i: nat)
    requires i < |ws|
    requires forall g :: Get(counts, g) == multiset(ws[..i])[g]
    ensures var next := counts[ws[i] := Get(counts, ws[i]) + 1];
      forall g :: Get(next, g) == multiset(ws[..i + 1])[g]
  {
    assert ws[..i + 1] == ws[..i] + [ws[i]];
  }

  /** When the new count stays below the threshold, so do those of all the
      windows seen so far. */
  lemma BelowStep(ws: seq<string>, i: nat, threshold: int)
    requires i < |ws|
    requires forall j :: 0 <= j < i ==> multiset(ws[..i])[ws[j]] < threshold
    requires multiset(ws[..i + 1])[ws[i]] < threshold
    ensures forall j :: 0 <= j < i + 1 ==> multiset(ws[..i + 1])[ws[j]] < threshold
  {
    assert ws[..i + 1] == ws[..i] + [ws[i]];
  }

  /** No window reaching the threshold means the tokens are not
      repetitive. */
  lemma NoneReached(tokens: seq<string>, threshold: int)
    requires var ws := Windows(tokens);
      forall j :: 0 <= j < |ws| ==> multiset(ws[..|ws|])[ws[j]] < threshold
    ensures !RepetitiveTokens(tokens, threshold)
  {
    var ws := Windows(tokens);
    assert ws[..|ws|] == ws;
  }

  /** One window reaching the threshold in a prefix makes a long enough
      text repetitive. */
  lemma OneReached(tokens: seq<string>, i: nat, threshold: int)
    requires |tokens| >= MinTokens && i < |Windows(tokens)|
    requires multiset(Windows(tokens)[..i + 1])[Windows(tokens)[i]] >= threshold
    ensures RepetitiveTokens(tokens, threshold)
  {
    PrefixCount(Windows(tokens), i + 1, Windows(tokens)[i]);
  }

  /** `_is_repetitive`: the dictionary loop with its early return.  Returning
      as soon as a count reaches the threshold gives the same answer as
      counting every window first. */
  method IsRepetitive(text: string, threshold: int) returns (r: bool)
    ensures r == Repetitive(text, threshold)
  {
    var tokens := Words(Lower(text));
    if |tokens| < MinTokens {
      return false;
    }
    ghost var ws := Windows(tokens);
    var counts: map<string, int> := map[];
    for i := 0 to |tokens| - 2
      invariant forall g :: Get(counts, g) == multiset(ws[..i])[g]
      invariant forall j :: 0 <= j < i ==> multiset(ws[..i])[ws[j]] < threshold
    {
      var gram := JoinWith(" ", tokens[i..i + 3]);
      assert gram == ws[i];
      CountStep(counts, ws, i);
      counts := counts[gram := Get(counts, gram) + 1];
      if counts[gram] >= threshold {
        assert Get(counts, ws[i]) >= threshold;
        OneReached(tokens, i, threshold);
        return true;
      }
      BelowStep(ws, i, threshold);
    }
    NoneReached(tokens, threshold);
    return false;
  }

  /** A text of fewer than `MinTokens` tokens is never repetitive. */
  lemma ShortNotRepetitive(text: string, threshold: int)
    requires |Words(Lower(text))| < MinTokens
    ensures !Repetitive(text, threshold)
  {
  }

  /** A lower threshold flags everything a higher one does. */
  lemma ThresholdMonotone(text: string, low: int, high: int)
    requires low <= high && Repetitive(text, high)
    ensures Repetitive(text, low)
  {
  }

  /** With a threshold of one or less, every text long enough is flagged. */
  lemma LowThreshold(text: string, threshold: int)
    requires threshold <= 1 && |Words(Lower(text))| >= MinTokens
    ensures Repetitive(text, threshold)
  {
    var ws := Windows(Words(Lower(text)));
    assert ws[0] in multiset(ws);
  }

  /** `n` copies of the tokens `p`, one after the other. */
  function Cycle(p: seq<string>, n: nat): seq<string>
    requires |p| == 3
  {
    seq(3 * n, i requires 0 <= i < 3 * n => p[i % 3])
  }

  lemma CycleWindow(p: seq<string>, n: nat, k: nat)
    requires |p| == 3 && k < n
    ensures Cycle(p, n)[3 * k..3 * k + 3] == p
  {
    var ts := Cycle(p, n);
    assert ts[3 * k] == p[0] && ts[3 * k + 1] == p[1] && ts[3 * k + 2] == p[2];
  }

  lemma FirstOf<T>(ws: seq<T>)
    requires |ws| > 0
    ensures ws[..1] == [ws[0]]
  {
  }

  lemma PrefixSplit<T>(ws: seq<T>, a: nat, b: nat)
    requires a <= b <= |ws|
    ensures ws[..b] == ws[..a] + ws[a..b]
  {
  }

  /** If every third element from the start, `n` of them, is `g`, then `g`
      occurs at least `n` times. */
  lemma {:induction false} EveryThird(ws: seq<string>, g: string, n: nat)
    requires n > 0 && 3 * (n - 1) < |ws|
    requires forall k :: 0 <= k < n ==> ws[3 * k] == g
    ensures multiset(ws[..3 * (n - 1) + 1])[g] >= n
  {
    var m := 3 * (n - 1) + 1;
    if n == 1 {
      assert ws[0] == g;
      FirstOf(ws);
    } else {
      var m' := 3 * (n - 2) + 1;
      EveryThird(ws, g, n - 1);
      PrefixSplit(ws, m', m);
      assert ws[3 * (n - 1)] == g;
      assert ws[m'..m][2] == g;
    }
  }

  /** A phrase of three tokens said `n` times is flagged by any threshold up
      to `n`, once there are enough tokens. */
  lemma RepeatedPhrase(p: seq<string>, n: nat, threshold: int)
    requires |p| == 3 && 3 * n >= MinTokens && threshold <= n
    ensures RepetitiveTokens(Cycle(p, n), threshold)
  {
    var ts := Cycle(p, n);
    var ws := Windows(ts);
    var g := JoinWith(" ", p);
    forall k | 0 <= k < n
      ensures ws[3 * k] == g
    {
      CycleWindow(p, n, k);
    }
    EveryThird(ws, g, n);
    PrefixCount(ws, 3 * (n - 1) + 1, g);
    assert ws[3 * 0] == g;
  }

  /** "the cat sat" seven times over is repetitive; six times over is too
      short to be checked. */
  lemma TheCatSat()
    ensures Repetitive(JoinWith(" ", Cycle(["the", "cat", "sat"], 7)), DefaultThreshold)
    ensures !Repetitive(JoinWith(" ", Cycle(["the", "cat", "sat"], 6)), DefaultThreshold)
  {
    var p := ["the", "cat", "sat"];
    PhraseText(p, 7);
    RepeatedPhrase(p, 7, DefaultThreshold);
    PhraseText(p, 6);
  }

  /** Lower-case words joined with spaces tokenize back into those words. */
  lemma PhraseText(p: seq<string>, n: nat)
    requires |p| == 3
    requires forall k :: 0 <= k < 3 ==> p[k] != [] && NoSpace(p[k]) && IsLowerCase(p[k])
    ensures Words(Lower(JoinWith(" ", Cycle(p, n)))) == Cycle(p, n)
  {
    var ts := Cycle(p, n);
    assert forall k :: 0 <= k < |ts| ==> ts[k] == p[k % 3];
    JoinLowerCase(" ", ts);
    LowerOfLowerCase(JoinWith(" ", ts));
    WordsOfJoin(ts);
  }
}
