/** UTF-8 as specified in section 3 of RFC 3629, on unbounded integers. A text is a
    sequence of Unicode scalar values; an encoding is a sequence of bytes. */
module Utf8 {
  import opened Common

  type byte = x: int | 0 <= x < 256
  type Scalar = x: int | 0 <= x < 0xD800 || 0xE000 <= x < 0x110000
  type Text = seq<Scalar>

  function CharLen(c: Scalar): (n: nat)
    ensures 1 <= n <= 4
  {
    if c < 0x80 then 1 else if c < 0x800 then 2 else if c < 0x10000 then 3 else 4
  }

  function EncodeChar(c: Scalar): (bs: seq<byte>)
    ensures |bs| == CharLen(c)
    ensures !IsContinuation(bs[0])
    ensures forall i :: 1 <= i < |bs| ==> IsContinuation(bs[i])
  {
    if c < 0x80 then [c]
    else if c < 0x800 then [0xC0 + c / 64, 0x80 + c % 64]
    else if c < 0x10000 then [0xE0 + c / 64 / 64, 0x80 + c / 64 % 64, 0x80 + c % 64]
    else [0xF0 + c / 64 / 64 / 64, 0x80 + c / 64 / 64 % 64, 0x80 + c / 64 % 64, 0x80 + c % 64]
  }

  /** The bit test `0b10xxxxxx`: the byte cannot start a character. */
  predicate IsContinuation(b: byte) {
    0x80 <= b < 0xC0
  }

  function Encode(t: Text): seq<byte> {
    if t == [] then [] else EncodeChar(t[0]) + Encode(t[1..])
  }

  /** The number of bytes of the encoding, without building it. */
  function Width(t: Text): nat {
    if t == [] then 0 else CharLen(t[0]) + Width(t[1..])
  }

  lemma {:induction false} EncodeWidth(t: Text)
    ensures |Encode(t)| == Width(t) >= |t|
  {
    hide EncodeChar;
    if t != [] {
      EncodeWidth(t[1..]);
    }
  }

  lemma {:induction false} EncodeConcat(a: Text, b: Text)
    ensures Encode(a + b) == Encode(a) + Encode(b)
    ensures Width(a + b) == Width(a) + Width(b)
  {
    hide EncodeChar;
    if a == [] {
      assert a + b == b;
    } else {
      assert (a + b)[1..] == a[1..] + b;
      EncodeConcat(a[1..], b);
    }
  }

  lemma WidthOne(c: Scalar)
    ensures Width([c]) == CharLen(c)
  {
  }

  lemma WidthOfNext(t: Text, k: nat)
    requires k < |t|
    ensures Width(t[..k + 1]) == Width(t[..k]) + CharLen(t[k])
  {
    assert t[..k + 1] == t[..k] + [t[k]];
    EncodeConcat(t[..k], [t[k]]);
  }

  /** Cutting the text at character `k` cuts its encoding at byte `Width(t[..k])`. */
  lemma EncodeSplit(t: Text, k: nat)
    requires k <= |t|
    ensures Width(t[..k]) <= |Encode(t)|
    ensures Encode(t) == Encode(t[..k]) + Encode(t[k..])
    ensures Encode(t)[..Width(t[..k])] == Encode(t[..k])
    ensures Encode(t)[Width(t[..k])..] == Encode(t[k..])
  {
    hide EncodeChar, Encode, Width;
    assert t == t[..k] + t[k..];
    EncodeConcat(t[..k], t[k..]);
    EncodeWidth(t[..k]);
  }

  /** A number of groups of six bits. */
  ghost function Bits(a: int, b: int, c: int, d: int): int {
    0x4_0000 * a + 0x1000 * b + 0x40 * c + d
  }

  /** The bytes of a character, as the table of section 3 of RFC 3629 has them. */
  lemma CharBytes(c: Scalar)
    ensures
      var bs := EncodeChar(c);
      if c <= 0x7F then bs == [c]
      else if c <= 0x7FF then
        && |bs| == 2 && 0xC2 <= bs[0] <= 0xDF && 0x80 <= bs[1] <= 0xBF
        && c == Bits(0, 0, bs[0] - 0xC0, bs[1] - 0x80)
      else if c <= 0xFFFF then
        && |bs| == 3 && 0xE0 <= bs[0] <= 0xEF && 0x80 <= bs[1] <= 0xBF && 0x80 <= bs[2] <= 0xBF
        && c == Bits(0, bs[0] - 0xE0, bs[1] - 0x80, bs[2] - 0x80)
      else
        && |bs| == 4 && 0xF0 <= bs[0] <= 0xF4
        && 0x80 <= bs[1] <= 0xBF && 0x80 <= bs[2] <= 0xBF && 0x80 <= bs[3] <= 0xBF
        && c == Bits(bs[0] - 0xF0, bs[1] - 0x80, bs[2] - 0x80, bs[3] - 0x80)
  {
    Sixties(c);
    Sixties(c / 64);
    Sixties(c / 64 / 64);
  }

  lemma Sixties(c: nat)
    ensures c == 64 * (c / 64) + c % 64 && 0 <= c % 64 < 64
  {
  }

  // Decoding ------------------------------------------------------------------

  /** Appends the six payload bits of a continuation byte. */
  function Extend(high: int, b: byte): int {
    high * 64 + (b - 0x80)
  }

  /** The character that a byte sequence starts with, or None when the first bytes are not a
      complete shortest-form encoding of a scalar value. */
  function DecodeChar(bs: seq<byte>): (r: Option<Scalar>)
    ensures r.Some? ==> CharLen(r.value) <= |bs|
  {
    if |bs| == 0 then None
    else if bs[0] < 0x80 then Some(bs[0])
    else if |bs| >= 2 && 0xC2 <= bs[0] < 0xE0 && IsContinuation(bs[1]) then
      Some(Extend(bs[0] - 0xC0, bs[1]))
    else if |bs| >= 3 && 0xE0 <= bs[0] < 0xF0 && IsContinuation(bs[1]) && IsContinuation(bs[2]) then
      var c := Extend(Extend(bs[0] - 0xE0, bs[1]), bs[2]);
      if 0x800 <= c < 0xD800 || 0xE000 <= c then Some(c) else None
    else if |bs| >= 4 && 0xF0 <= bs[0] < 0xF8
            && IsContinuation(bs[1]) && IsContinuation(bs[2]) && IsContinuation(bs[3]) then
      var c := Extend(Extend(Extend(bs[0] - 0xF0, bs[1]), bs[2]), bs[3]);
      if 0x10000 <= c < 0x110000 then Some(c) else None
    else None
  }

  /** `bytes.decode("utf-8")`: None stands for the UnicodeDecodeError. */
  function Decode(bs: seq<byte>): Option<Text> {
    if bs == [] then Some([])
    else
      var c := DecodeChar(bs);
      if c.None? then None
      else
        var rest := Decode(bs[CharLen(c.value)..]);
        if rest.None? then None else Some([c.value] + rest.value)
  }

  /** `bytes.decode("utf-8", "ignore")`: undecodable bytes are skipped. */
  function DecodeIgnore(bs: seq<byte>): Text {
    if bs == [] then []
    else
      var c := DecodeChar(bs);
      if c.None? then DecodeIgnore(bs[1..]) else [c.value] + DecodeIgnore(bs[CharLen(c.value)..])
  }

  lemma ExtendParts(high: int, b: byte)
    requires IsContinuation(b)
    ensures Extend(high, b) / 64 == high && Extend(high, b) % 64 == b - 0x80
  {
  }

  /** The decoder accepts only the encoding of what it returns: overlong forms and surrogates
      are refused. */
  lemma EncodeCharDecodeChar(bs: seq<byte>)
    requires DecodeChar(bs).Some?
    ensures bs[..CharLen(DecodeChar(bs).value)] == EncodeChar(DecodeChar(bs).value)
  {
    var n := CharLen(DecodeChar(bs).value);
    if n == 2 {
      ExtendParts(bs[0] - 0xC0, bs[1]);
    } else if n == 3 {
      ExtendParts(bs[0] - 0xE0, bs[1]);
      ExtendParts(Extend(bs[0] - 0xE0, bs[1]), bs[2]);
    } else if n == 4 {
      ExtendParts(bs[0] - 0xF0, bs[1]);
      ExtendParts(Extend(bs[0] - 0xF0, bs[1]), bs[2]);
      ExtendParts(Extend(Extend(bs[0] - 0xF0, bs[1]), bs[2]), bs[3]);
    }
  }

  lemma DecodeCharEncodeChar(c: Scalar, rest: seq<byte>)
    ensures DecodeChar(EncodeChar(c) + rest) == Some(c)
  {
    var bs := EncodeChar(c) + rest;
    assert bs[..CharLen(c)] == EncodeChar(c);
    assert forall i :: 0 <= i < CharLen(c) ==> bs[i] == EncodeChar(c)[i];
  }

  /** Round trip of the strict decoder. */
  lemma {:induction false} DecodeEncode(t: Text)
    ensures Decode(Encode(t)) == Some(t)
  {
    hide EncodeChar, DecodeChar;
    if t != [] {
      DecodeCharEncodeChar(t[0], Encode(t[1..]));
      assert Encode(t)[CharLen(t[0])..] == Encode(t[1..]);
      DecodeEncode(t[1..]);
      assert [t[0]] + t[1..] == t;
    }
  }

  /** The strict decoder accepts nothing but encodings. */
  lemma {:induction false} EncodeDecode(bs: seq<byte>)
    requires Decode(bs).Some?
    ensures Encode(Decode(bs).value) == bs
  {
    hide EncodeChar, DecodeChar, Encode, Decode, CharLen;
    if bs == [] {
      EmptyBothWays();
    } else {
      DecodeFirst(bs);
      var c := DecodeChar(bs).value;
      var rest := bs[CharLen(c)..];
      EncodeCharDecodeChar(bs);
      EncodeDecode(rest);
      EncodeFirst(c, Decode(rest).value);
      assert bs[..CharLen(c)] + rest == bs;
    }
  }

  lemma EmptyBothWays()
    ensures Decode([]) == Some([]) && Encode([]) == []
  {
  }

  lemma DecodeFirst(bs: seq<byte>)
    requires bs != [] && Decode(bs).Some?
    ensures DecodeChar(bs).Some?
    ensures var c := DecodeChar(bs).value;
      Decode(bs[CharLen(c)..]).Some? && Decode(bs) == Some([c] + Decode(bs[CharLen(c)..]).value)
    ensures 0 < CharLen(DecodeChar(bs).value)
  {
    hide DecodeChar;
  }

  lemma EncodeFirst(c: Scalar, rest: Text)
    ensures Encode([c] + rest) == EncodeChar(c) + Encode(rest)
  {
    hide EncodeChar;
    assert ([c] + rest)[1..] == rest;
  }

  // Prefixes that fit a byte budget -------------------------------------------------

  /** How many leading characters fit in `room` bytes. */
  function FitCount(t: Text, room: int): (k: nat)
    ensures k <= |t|
  {
    if t == [] || CharLen(t[0]) > room then 0 else 1 + FitCount(t[1..], room - CharLen(t[0]))
  }

  function FitPrefix(t: Text, room: int): Text {
    t[..FitCount(t, room)]
  }

  /** FitPrefix is the longest prefix that fits: it fits, and no longer prefix does. */
  lemma {:induction false} FitPrefixLongest(t: Text, room: int)
    requires room >= 0
    ensures Width(FitPrefix(t, room)) <= room
    ensures forall j :: FitCount(t, room) < j <= |t| ==> Width(t[..j]) > room
  {
    if t != [] && CharLen(t[0]) <= room {
      var k := FitCount(t, room);
      FitPrefixLongest(t[1..], room - CharLen(t[0]));
      assert t[..k][1..] == t[1..][..k - 1];
      forall j | k < j <= |t| ensures Width(t[..j]) > room {
        assert t[..j][1..] == t[1..][..j - 1];
      }
    }
  }

  lemma FitSome(t: Text, room: int)
    requires t != [] && CharLen(t[0]) <= room
    ensures 1 <= FitCount(t, room)
  {
  }

  lemma FitAll(t: Text, room: int)
    ensures FitCount(t, room) == |t| && FitPrefix(t, room) == t <==> Width(t) <= room || t == []
  {
    if t == [] {
    } else if room < 0 {
    } else {
      FitPrefixLongest(t, room);
      assert t[..|t|] == t;
    }
  }

  /** A character cut short decodes to nothing. */
  lemma {:induction false} DecodeIgnorePartial(c: Scalar, k: nat)
    requires k < CharLen(c)
    ensures DecodeIgnore(EncodeChar(c)[..k]) == []
  {
    var bs := EncodeChar(c)[..k];
    if k > 0 {
      forall j | 1 <= j <= k ensures DecodeIgnore(bs[j..]) == [] {
        OnlyContinuations(bs[j..]);
      }
      assert DecodeChar(bs).None?;
    }
  }

  lemma {:induction false} OnlyContinuations(bs: seq<byte>)
    requires forall i :: 0 <= i < |bs| ==> IsContinuation(bs[i])
    ensures DecodeIgnore(bs) == []
  {
    if bs != [] {
      OnlyContinuations(bs[1..]);
    }
  }

  /** Cutting an encoding at any byte and decoding with "ignore" keeps the longest prefix
      of whole characters: the trailing partial character is dropped and nothing else. */
  lemma {:induction false} DecodeIgnoreCut(t: Text, room: nat)
    ensures DecodeIgnore(if room <= |Encode(t)| then Encode(t)[..room] else Encode(t)) == FitPrefix(t, room)
  {
    hide EncodeChar, DecodeChar, CharLen;
    var bs := Encode(t);
    if t != [] {
      var n := CharLen(t[0]);
      if n > room {
        assert bs[..room] == EncodeChar(t[0])[..room];
        DecodeIgnorePartial(t[0], room);
      } else {
        DecodeIgnoreCut(t[1..], room - n);
        var cut := if room <= |bs| then bs[..room] else bs;
        var rest := if room - n <= |Encode(t[1..])| then Encode(t[1..])[..room - n] else Encode(t[1..]);
        assert cut == EncodeChar(t[0]) + rest;
        DecodeCharEncodeChar(t[0], rest);
        assert cut[n..] == rest;
        assert [t[0]] + FitPrefix(t[1..], room - n) == FitPrefix(t, room);
      }
    }
  }
}
