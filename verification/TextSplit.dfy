/** Splitting a text into segments whose UTF-8 encoding fits a byte length. */
module TextSplit {
  import opened Common
  import opened Utf8

  /** A segment and the byte count reported for it. */
  datatype Segment = Segment(text: Text, size: nat)

  /** The segmentation as a recursion over characters: take the longest prefix that fits; a
      character too wide for an empty segment is skipped and leaves an empty segment behind. */
  function Segments(t: Text, length: nat, n: nat): seq<Segment>
    decreases |t|
  {
    if t == [] || n == 0 then []
    else if Width(t) <= length then [Segment(t, Width(t))]
    else
      var k := FitCount(t, length);
      [Segment(t[..k], Width(t[..k]))] + Segments(if k == 0 then t[1..] else t[k..], length, n - 1)
  }

  /** What the splitter returns, with the two early exits in front of the segmentation. */
  function Split(t: Text, length: int, n: int): seq<Segment> {
    if length < 1 then [Segment([], 0)]
    else if Width(t) <= length then [Segment(t, Width(t))]
    else Segments(t, length, if n < 0 then 0 else n)
  }

  function Texts(segments: seq<Segment>): Text {
    if segments == [] then [] else segments[0].text + Texts(segments[1..])
  }

  /** The byte loop: backtrack from the byte limit to a character start, decode the slice, and
      step over a character that is too wide. Every slice decodes: no segment is malformed. */
  method SplitEncoded(t: Text, length: int, n: int) returns (splits: seq<Segment>)
    ensures splits == Split(t, length, n)
  {
    hide *;
    Start(t, length, n);
    if length < 1 {
      return [Segment([], 0)];
    }
    var es := Encode(t);
    var le := |es|;
    if le <= length {
      return [Segment(t, le)];
    }
    splits := [];
    var ib := 0;
    ghost var j: nat := 0;  // es[ib..] encodes t[j..]
    while ib < le && |splits| < n
      invariant Reached(t, es, ib, j)
      invariant Ahead(t, length, n, splits, j)
      decreases le - ib
    {
      var ie := ib + length;
      if ie >= le {
        Finish(t, es, length, n, splits, ib, j);
        var last := Decode(es[ib..]);
        splits := splits + [Segment(last.value, le - ib)];
        return;
      }
      ghost var k, stop := FindEnd(t, es, ib, j, length);
      ie := Backtrack(es, ib, ie);
      var segment := Decode(es[ib..ie]);
      Emit(t, length, n, splits, j, k);
      splits := splits + [Segment(segment.value, ie - ib)];
      if ib == ie {
        ie := StepOver(es, ie);
        ghost var next := FindNext(t, es, ib, j);
        j := j + 1;
      } else {
        j := j + k;
      }
      ib := ie;
    }
    Stop(t, length, n, splits, ib, j);
  }

  /** The last character start at or before `limit`, not going below `ib`. */
  method Backtrack(es: seq<byte>, ib: nat, limit: nat) returns (ie: nat)
    requires ib <= limit < |es|
    ensures ib <= ie <= limit
    ensures ie == ib || !IsContinuation(es[ie])
    ensures forall i :: ie < i <= limit ==> IsContinuation(es[i])
  {
    ie := limit;
    while IsContinuation(es[ie]) && ie > ib
      invariant ib <= ie <= limit
      invariant forall i :: ie < i <= limit ==> IsContinuation(es[i])
    {
      ie := ie - 1;
    }
  }

  /** The next character start after byte `ib`, or the end of the encoding. */
  method StepOver(es: seq<byte>, ib: nat) returns (ie: nat)
    requires ib < |es|
    ensures ib < ie <= |es|
    ensures ie == |es| || !IsContinuation(es[ie])
    ensures forall i :: ib < i < ie ==> IsContinuation(es[i])
  {
    ie := ib + 1;
    while ie < |es| && IsContinuation(es[ie])
      invariant ib < ie <= |es|
      invariant forall i :: ib < i < ie ==> IsContinuation(es[i])
    {
      ie := ie + 1;
    }
  }

  /** Byte `ib` of the encoding is where character `j` starts. */
  ghost predicate Reached(t: Text, es: seq<byte>, ib: int, j: nat) {
    es == Encode(t) && j <= |t| && ib == Width(t[..j]) <= |es| && es[ib..] == Encode(t[j..])
  }

  /** What is still to be emitted is the segmentation from character `j` on. */
  ghost predicate Ahead(t: Text, length: nat, n: int, splits: seq<Segment>, j: nat) {
    && j <= |t|
    && Split(t, length, n) == splits + Segments(t[j..], length, if n < |splits| then 0 else n - |splits|)
  }

  lemma Start(t: Text, length: int, n: int)
    ensures length < 1 ==> Split(t, length, n) == [Segment([], 0)]
    ensures 1 <= length && |Encode(t)| <= length ==> Split(t, length, n) == [Segment(t, |Encode(t)|)]
    ensures 1 <= length < |Encode(t)| ==> Reached(t, Encode(t), 0, 0) && Ahead(t, length, n, [], 0)
  {
    hide EncodeChar;
    EncodeWidth(t);
    assert t[0..] == t && t[..0] == [];
  }

  lemma Stop(t: Text, length: nat, n: int, splits: seq<Segment>, ib: nat, j: nat)
    requires Reached(t, Encode(t), ib, j) && Ahead(t, length, n, splits, j)
    requires ib >= |Encode(t)| || |splits| >= n
    ensures splits == Split(t, length, n)
  {
    hide EncodeChar;
    if ib >= |Encode(t)| {
      EncodeWidth(t[j..]);
    }
  }

  lemma Emit(t: Text, length: nat, n: int, splits: seq<Segment>, j: nat, k: nat)
    requires Ahead(t, length, n, splits, j) && |splits| < n
    requires j < |t| && Width(t[j..]) > length && k == FitCount(t[j..], length)
    ensures Ahead(t, length, n, splits + [Segment(t[j..][..k], Width(t[j..][..k]))], if k == 0 then j + 1 else j + k)
  {
    hide EncodeChar;
    assert t[j..][1..] == t[j + 1..] && t[j..][k..] == t[j + k..];
  }

  lemma Finish(t: Text, es: seq<byte>, length: nat, n: int, splits: seq<Segment>, ib: nat, j: nat)
    requires Reached(t, es, ib, j) && Ahead(t, length, n, splits, j)
    requires |splits| < n && ib < |es| <= ib + length
    ensures Decode(es[ib..]).Some?
    ensures Split(t, length, n) == splits + [Segment(Decode(es[ib..]).value, |es| - ib)]
  {
    hide EncodeChar, CharLen, Width, Decode;
    DecodeEncode(t[j..]);
    EncodeSplit(t, j);
    EncodeWidth(t[j..]);
  }

  /** Where the segment that starts at character `j` ends. */
  lemma FindEnd(t: Text, es: seq<byte>, ib: nat, j: nat, length: nat) returns (k: nat, stop: nat)
    requires Reached(t, es, ib, j) && ib + length < |es|
    ensures k == FitCount(t[j..], length) && Width(t[j..]) > length && j + k <= |t|
    ensures ib <= stop <= ib + length && stop - ib == Width(t[j..][..k])
    ensures stop == ib <==> k == 0
    ensures !IsContinuation(es[stop])
    ensures forall i :: stop < i <= ib + length ==> IsContinuation(es[i])
    ensures Decode(es[ib..stop]) == Some(t[j..][..k])
    ensures Reached(t, es, stop, j + k)
  {
    hide EncodeChar, CharLen, Width, FitCount, Encode, IsContinuation, Decode;
    var tail := t[j..];
    EncodeSplit(t, j);
    EncodeWidth(tail);
    k := FitCount(tail, length);
    SegmentEnd(tail, length);
    stop := ib + Width(tail[..k]);
    Shifted(es, ib, es[ib..]);
    EncodeWidth(tail[..k]);
    Advance(t, es, ib, j, k);
    DecodeEncode(tail[..k]);
  }

  /** Where the character after character `j` starts. */
  lemma FindNext(t: Text, es: seq<byte>, ib: nat, j: nat) returns (next: nat)
    requires Reached(t, es, ib, j) && j < |t|
    ensures ib < next <= |es| && Reached(t, es, next, j + 1)
    ensures forall i :: ib < i < next ==> IsContinuation(es[i])
    ensures next < |es| ==> !IsContinuation(es[next])
  {
    hide EncodeChar, CharLen, Width, Encode, IsContinuation;
    NextStart(t[j..]);
    Shifted(es, ib, es[ib..]);
    next := ib + CharLen(t[j]);
    assert Width(t[j..][..1]) == CharLen(t[j]) by {
      WidthOne(t[j]);
      assert t[j..][..1] == [t[j]];
    }
    Advance(t, es, ib, j, 1);
  }

  lemma Shifted(es: seq<byte>, ib: nat, tail: seq<byte>)
    requires ib <= |es| && tail == es[ib..]
    ensures |tail| == |es| - ib
    ensures forall i :: ib <= i < |es| ==> es[i] == tail[i - ib]
  {
    hide EncodeChar;
  }

  /** Moving `k` characters on from character `j`. */
  lemma Advance(t: Text, es: seq<byte>, ib: nat, j: nat, k: nat)
    requires Reached(t, es, ib, j) && j + k <= |t|
    ensures Reached(t, es, ib + Width(t[j..][..k]), j + k)
    ensures es[ib..ib + Width(t[j..][..k])] == Encode(t[j..][..k])
  {
    hide EncodeChar, CharLen, Width, FitCount, Encode;
    EncodeSplit(t, j + k);
    EncodeSplit(t[j..], k);
    EncodeWidth(t[j..][..k]);
    assert t[..j + k] == t[..j] + t[j..][..k];
    assert t[j..][k..] == t[j + k..];
    EncodeConcat(t[..j], t[j..][..k]);
    var w := Width(t[j..][..k]);
    assert es[ib..][..w] == es[ib..ib + w];
  }

  /** The last character start at or before the byte limit is where the longest fit ends. */
  lemma SegmentEnd(t: Text, length: nat)
    requires length < Width(t)
    ensures var e := Width(t[..FitCount(t, length)]);
      && e <= length < |Encode(t)|
      && !IsContinuation(Encode(t)[e])
      && forall i :: e < i <= length ==> IsContinuation(Encode(t)[i])
  {
    hide EncodeChar, CharLen, Width, FitCount, Encode, IsContinuation;
    var k := FitCount(t, length);
    var e := Width(t[..k]);
    FitPrefixLongest(t, length);
    EncodeWidth(t);
    FitAll(t, length);
    EncodeSplit(t, k);
    NextStart(t[k..]);
    Shifted(Encode(t), e, Encode(t[k..]));
    WidthOfNext(t, k);
  }

  /** Within a non-empty encoding the first byte starts a character, and exactly its
      continuation bytes come before the next start. */
  lemma NextStart(t: Text)
    requires t != []
    ensures CharLen(t[0]) <= |Encode(t)| && !IsContinuation(Encode(t)[0])
    ensures forall i :: 1 <= i < CharLen(t[0]) ==> IsContinuation(Encode(t)[i])
    ensures CharLen(t[0]) < |Encode(t)| ==> !IsContinuation(Encode(t)[CharLen(t[0])])
  {
    hide EncodeChar;
    var bs := EncodeChar(t[0]);
    assert forall i :: 0 <= i < |bs| ==> Encode(t)[i] == bs[i];
    if CharLen(t[0]) < |Encode(t)| {
      assert Encode(t)[CharLen(t[0])] == Encode(t[1..])[0] == EncodeChar(t[1..][0])[0];
    }
  }

  // What the segmentation guarantees -------------------------------------------------------

  /** Every segment fits, its byte count is exact, and there are at most `n` of them. */
  lemma {:induction false} SegmentsFit(t: Text, length: nat, n: nat)
    ensures |Segments(t, length, n)| <= n
    ensures forall s :: s in Segments(t, length, n) ==> s.size == |Encode(s.text)| <= length
    decreases |t|
  {
    hide EncodeChar, CharLen, Width, FitCount, Encode;
    if t != [] && n > 0 {
      if Width(t) <= length {
        EncodeWidth(t);
      } else {
        var k := FitCount(t, length);
        FitPrefixLongest(t, length);
        EncodeWidth(t[..k]);
        SegmentsFit(if k == 0 then t[1..] else t[k..], length, n - 1);
      }
    }
  }

  /** Every segment is maximal: the character that follows it in the text would not fit. The
      segments sit in the text one after the other, with exactly the too-wide characters
      between them. */
  ghost predicate Tiles(t: Text, length: nat, segments: seq<Segment>, whole: bool)
    decreases segments
  {
    if segments == [] then !whole || t == []
    else
      var s := segments[0];
      && s.text <= t
      && (if |s.text| == |t| then segments == [s]
          else
            && Width(s.text + [t[|s.text|]]) > length
            && Tiles(if s.text == [] then t[1..] else t[|s.text|..], length, segments[1..], whole))
  }

  /** One segment and the rest, when the text does not fit whole. */
  lemma SegmentsFirst(t: Text, length: nat, n: nat)
    requires t != [] && n > 0 && Width(t) > length
    ensures
      var k := FitCount(t, length);
      Segments(t, length, n) ==
        [Segment(t[..k], Width(t[..k]))] + Segments(if k == 0 then t[1..] else t[k..], length, n - 1)
  {
    hide Width, FitCount;
  }

  lemma TilesAtOnce(t: Text, length: nat, n: nat)
    requires t == [] || n == 0 || Width(t) <= length
    ensures Tiles(t, length, Segments(t, length, n), |Segments(t, length, n)| < n)
  {
    hide Width;
  }

  lemma {:induction false} SegmentsTile(t: Text, length: nat, n: nat)
    ensures Tiles(t, length, Segments(t, length, n), |Segments(t, length, n)| < n)
    decreases |t|
  {
    hide EncodeChar, CharLen, Width, FitCount, Segments, Tiles;
    if t == [] || n == 0 || Width(t) <= length {
      TilesAtOnce(t, length, n);
    } else {
      var k := FitCount(t, length);
      FitPrefixLongest(t, length);
      FitAll(t, length);
      SegmentsFirst(t, length, n);
      var next := if k == 0 then t[1..] else t[k..];
      SegmentsTile(next, length, n - 1);
      TilesBefore(t, k, length, Segments(next, length, n - 1), |Segments(next, length, n - 1)| < n - 1);
    }
  }

  lemma TilesBefore(t: Text, k: nat, length: nat, rest: seq<Segment>, whole: bool)
    requires k < |t| && Width(t[..k + 1]) > length
    requires Tiles(if k == 0 then t[1..] else t[k..], length, rest, whole)
    ensures Tiles(t, length, [Segment(t[..k], Width(t[..k]))] + rest, whole)
  {
    hide Width;
    var all := [Segment(t[..k], Width(t[..k]))] + rest;
    assert all[1..] == rest;
    assert t[..k] + [t[k]] == t[..k + 1];
  }

  /** No character is wider than a segment. */
  predicate Narrow(t: Text, length: int) {
    forall i :: 0 <= i < |t| ==> CharLen(t[i]) <= length
  }

  /** With room for every character nothing is skipped: the segments are non-empty and
      concatenate to a prefix of the text, and to all of it when fewer than `n` are returned. */
  lemma {:induction false} SegmentsRejoin(t: Text, length: nat, n: nat)
    requires Narrow(t, length)
    ensures Texts(Segments(t, length, n)) <= t
    ensures |Segments(t, length, n)| < n || |t| <= n ==> Texts(Segments(t, length, n)) == t
    ensures forall s :: s in Segments(t, length, n) ==> s.text != []
    decreases |t|
  {
    hide EncodeChar, CharLen, Width, FitCount, Segments, Texts;
    if t == [] || n == 0 || Width(t) <= length {
      RejoinAtOnce(t, length, n);
    } else {
      var k := FitCount(t, length);
      FitSome(t, length);
      SegmentsFirst(t, length, n);
      var rest := Segments(t[k..], length, n - 1);
      SegmentsRejoin(t[k..], length, n - 1);
      TextsFirst(Segment(t[..k], Width(t[..k])), rest);
      Rejoined(t, k, Texts(rest));
    }
  }

  lemma RejoinAtOnce(t: Text, length: nat, n: nat)
    requires t == [] || n == 0 || Width(t) <= length
    ensures n > 0 ==> Texts(Segments(t, length, n)) == t
    ensures n == 0 ==> Segments(t, length, n) == [] && Texts([]) == []
    ensures forall s :: s in Segments(t, length, n) ==> s.text != []
    ensures t == [] || n == 0 ==> Texts(Segments(t, length, n)) == []
    ensures |Segments(t, length, n)| <= n
  {
    hide Width;
  }

  lemma TextsFirst(s: Segment, rest: seq<Segment>)
    ensures Texts([s] + rest) == s.text + Texts(rest)
  {
    assert ([s] + rest)[1..] == rest;
  }

  lemma {:induction false} WidthOfOne(t: Text, i: nat)
    requires i < |t|
    ensures CharLen(t[i]) <= Width(t)
  {
    if i > 0 {
      WidthOfOne(t[1..], i - 1);
    }
  }

  lemma {:induction false} TextsShorter(t: Text, length: nat, n: nat)
    ensures |Texts(Segments(t, length, n))| <= |t|
    ensures !Narrow(t, length) ==> |Texts(Segments(t, length, n))| < |t|
    decreases |t|
  {
    hide EncodeChar, CharLen, Width, FitCount, Segments, Texts, Narrow;
    if t == [] || n == 0 || Width(t) <= length {
      RejoinAtOnce(t, length, n);
      WholeIsNarrow(t, length);
    } else {
      var k := FitCount(t, length);
      var next := if k == 0 then t[1..] else t[k..];
      SegmentsFirst(t, length, n);
      TextsShorter(next, length, n - 1);
      TextsFirst(Segment(t[..k], Width(t[..k])), Segments(next, length, n - 1));
      FitPrefixLongest(t, length);
      WholeIsNarrow(t[..k], length);
      NarrowInParts(t, k, length);
    }
  }

  lemma WholeIsNarrow(t: Text, length: int)
    ensures t == [] || Width(t) <= length ==> Narrow(t, length)
  {
    hide CharLen, Width;
    forall i | 0 <= i < |t| ensures CharLen(t[i]) <= Width(t) {
      WidthOfOne(t, i);
    }
  }

  lemma NarrowInParts(t: Text, k: nat, length: int)
    requires k <= |t|
    ensures Narrow(t, length) <==> Narrow(t[..k], length) && Narrow(t[k..], length)
  {
    hide CharLen;
    assert forall i :: k <= i < |t| ==> t[i] == t[k..][i - k];
    assert forall i :: 0 <= i < k ==> t[i] == t[..k][i];
  }

  /** With enough segments allowed, they concatenate to the whole text if and only if none of its
      characters is wider than the length. */
  lemma SegmentsRejoinExactly(t: Text, length: nat, n: nat)
    requires n >= |t|
    ensures Texts(Segments(t, length, n)) == t <==> Narrow(t, length)
  {
    hide CharLen, Segments;
    TextsShorter(t, length, n);
    if Narrow(t, length) {
      SegmentsRejoin(t, length, n);
    }
  }

  lemma Rejoined(t: Text, k: nat, tail: Text)
    requires k <= |t| && tail <= t[k..]
    ensures t[..k] + tail <= t
    ensures tail == t[k..] ==> t[..k] + tail == t
  {
  }

  /** Only a length under four can lose a character; this is what is left of one alone. */
  lemma SegmentsSkipWide(c: Scalar, length: nat, n: nat)
    requires 1 <= length < CharLen(c) && n >= 2
    ensures Split([c], length, n) == [Segment([], 0)]
    ensures Texts(Split([c], length, n)) != [c]
  {
    assert [c][..0] == [] && [c][1..] == [];
    assert Width([c]) == CharLen(c);
    assert Segments([c], length, n) == [Segment([], 0)] + Segments([], length, n - 1);
  }

  /** The first segment, which is the one every truncating caller uses. */
  lemma FirstSegment(t: Text, length: int)
    ensures |Split(t, length, 1)| == 1
    ensures Split(t, length, 1)[0].text == (if length < 1 then [] else FitPrefix(t, length)) <= t
    ensures Split(t, length, 1)[0].size == Width(Split(t, length, 1)[0].text) <= (if length < 1 then 0 else length)
    ensures Split(t, length, 1)[0].text == t <==> t == [] || (length >= 1 && Width(t) <= length)
  {
    if length >= 1 {
      assert Width(t) > length ==> |Segments(t, length, 1)| == 1;
      FitAll(t, length);
      FitPrefixLongest(t, length);
      EncodeWidth(t);
    }
  }
}
