/**
 * The segmenter `_chunk_text`: cut the document text at raw character
 * offsets into pieces of at most `maxChars` characters.
 */
module Segmenter {
  import opened Strings

  /** The default bound of `_chunk_text`. */
  const DefaultMaxChars: int := 8000

  /** Consecutive slices of `text`, each of `m` characters except the last,
      which holds the (non-empty) remainder. */
  function Slices(text: string, m: nat): seq<string>
    requires m > 0
    decreases |text|
  {
    if text == [] then []
    else if |text| <= m then [text]
    else [text[..m]] + Slices(text[m..], m)
  }

  /** What `_chunk_text(text, maxChars)` returns. */
  function Chunks(text: string, maxChars: int): seq<string>
    requires maxChars > 0 || |text| <= maxChars
  {
    if |text| <= maxChars then [text] else Slices(text, maxChars)
  }

  /** The slices put back together give the text. */
  lemma {:induction false} SlicesConcat(text: string, m: nat)
    requires m > 0
    ensures Concat(Slices(text, m)) == text
  {
    if text != [] && |text| > m {
      SlicesConcat(text[m..], m);
      assert text[..m] + text[m..] == text;
    }
  }

  /** Every slice is non-empty and at most `m` long; all but the last are
      exactly `m` long. */
  lemma {:induction false} SlicesSizes(text: string, m: nat)
    requires m > 0
    ensures forall k :: 0 <= k < |Slices(text, m)| ==> 0 < |Slices(text, m)[k]| <= m
    ensures forall k :: 0 <= k < |Slices(text, m)| - 1 ==> |Slices(text, m)[k]| == m
  {
    if text != [] && |text| > m {
      SlicesSizes(text[m..], m);
    }
  }

  lemma DivStep(x: int, m: int)
    requires m > 0 && x >= m
    ensures (x - m) / m == x / m - 1
  {
    var q, r := x / m, x % m;
    assert x == q * m + r;
    assert x - m == (q - 1) * m + r;
    DivUnique(x - m, m, q - 1, r);
  }

  lemma DivUnique(x: int, m: int, q: int, r: int)
    requires m > 0 && 0 <= r < m && x == q * m + r
    ensures x / m == q
  {
    var q', r' := x / m, x % m;
    assert x == q' * m + r';
    assert (q - q') * m == r' - r by {
      assert q * m - q' * m == (q - q') * m;
    }
    if q > q' {
      MulAtLeast(q - q', m);
    } else if q < q' {
      MulAtLeast(q' - q, m);
    }
  }

  lemma MulAtLeast(a: int, m: int)
    requires a >= 1 && m > 0
    ensures a * m >= m
  {
    assert a * m == (a - 1) * m + m;
  }

  /** There are ceil(|text| / m) slices. */
  lemma {:induction false} SlicesCount(text: string, m: nat)
    requires m > 0
    ensures |Slices(text, m)| == (|text| + m - 1) / m
  {
    if text == [] {
      assert (m - 1) / m == 0;
    } else if |text| <= m {
      DivUnique(|text| + m - 1, m, 1, |text| - 1);
    } else {
      SlicesCount(text[m..], m);
      DivStep(|text| + m - 1, m);
    }
  }

  /** The cases of `_chunk_text`: a text within the bound is its own single
      chunk (so the empty text gives one empty chunk); a longer text is cut
      into ceil(|text| / maxChars) non-empty chunks that put back together
      give the text, all of exactly `maxChars` characters but the last. */
  lemma ChunksShape(text: string, maxChars: int)
    requires maxChars > 0 || |text| <= maxChars
    ensures |text| <= maxChars ==> Chunks(text, maxChars) == [text]
    ensures |text| > maxChars ==>
      var cs := Chunks(text, maxChars);
      && Concat(cs) == text
      && |cs| == (|text| + maxChars - 1) / maxChars
      && (forall k :: 0 <= k < |cs| ==> 0 < |cs[k]| <= maxChars)
      && (forall k :: 0 <= k < |cs| - 1 ==> |cs[k]| == maxChars)
  {
    if |text| > maxChars {
      SlicesConcat(text, maxChars);
      SlicesCount(text, maxChars);
      SlicesSizes(text, maxChars);
    }
  }

  /** Every text yields at least one chunk, and a text longer than the bound
      at least two. */
  lemma ChunksCount(text: string, maxChars: int)
    requires maxChars > 0 || |text| <= maxChars
    ensures |Chunks(text, maxChars)| >= 1
    ensures |Chunks(text, maxChars)| == 1 <==> |text| <= maxChars
  {
    if |text| > maxChars {
      assert Slices(text, maxChars) == [text[..maxChars]] + Slices(text[maxChars..], maxChars);
      assert text[maxChars..] != [];
    }
  }

  /** `_chunk_text`: the `while` loop advancing `start` and appending slices. */
  method ChunkText(text: string, maxChars: int) returns (chunks: seq<string>)
    requires maxChars > 0 || |text| <= maxChars
    ensures chunks == Chunks(text, maxChars)
    ensures |text| <= maxChars ==> chunks == [text]
    ensures |text| > maxChars ==>
      && Concat(chunks) == text
      && |chunks| == (|text| + maxChars - 1) / maxChars
      && (forall k :: 0 <= k < |chunks| ==> 0 < |chunks[k]| <= maxChars)
      && (forall k :: 0 <= k < |chunks| - 1 ==> |chunks[k]| == maxChars)
  {
    if |text| <= maxChars {
      return [text];
    }
    chunks := [];
    var start := 0;
    while start < |text|
      invariant 0 <= start <= |text|
      invariant chunks + Slices(text[start..], maxChars) == Slices(text, maxChars)
      decreases |text| - start
    {
      var end := if start + maxChars < |text| then start + maxChars else |text|;
      ghost var rest := text[start..];
      if |rest| <= maxChars {
        assert rest[..end - start] == rest && rest[end - start..] == [];
      }
      assert Slices(rest, maxChars) == [rest[..end - start]] + Slices(rest[end - start..], maxChars);
      assert text[start..][..end - start] == text[start..end];
      assert text[start..][end - start..] == text[end..];
      chunks := chunks + [text[start..end]];
      start := end;
    }
    ChunksShape(text, maxChars);
  }
}
