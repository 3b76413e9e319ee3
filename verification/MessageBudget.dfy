/** Assembling an outbound message inside the byte budget of one IRC line, with a known prefix
    length and no character that low-level quoting would expand. */
module MessageBudget {
  import opened Common
  import opened Utf8
  import opened TextSplit

  /** A format string: literal text and numbered replacement fields. */
  datatype Piece = Lit(text: Text) | Hole(index: nat)
  type Template = seq<Piece>

  /** `s.format(*args)`; None is the IndexError of a field without an argument. */
  function Format(s: Template, args: seq<Text>): Option<Text> {
    if s == [] then Some([])
    else
      var rest := Format(s[1..], args);
      match s[0]
      case Lit(text) => if rest.None? then None else Some(text + rest.value)
      case Hole(i) => if rest.None? || i >= |args| then None else Some(args[i] + rest.value)
  }

  function Blanks(n: nat): (bs: seq<Text>)
    ensures |bs| == n
  {
    seq(n, i => [])
  }

  /** What a line may hold after the prefix the server puts in front of it. */
  function Budget(prefixLen: nat): int {
    508 - prefixLen
  }

  function Available(prefixLen: nat, command: Text): int {
    Budget(prefixLen) - |Encode(command)|
  }

  /** `splitEncodedUnicode(x, avail)[0][0]`. */
  function Trim(x: Text, avail: int): Text {
    Split(x, avail, 1)[0].text
  }

  function Concat(parts: seq<Text>): Text {
    if parts == [] then [] else parts[0] + Concat(parts[1..])
  }

  function Total(parts: seq<Text>): nat {
    if parts == [] then 0 else Width(parts[0]) + Total(parts[1..])
  }

  datatype Mode = FirstCome | DropWhole | EvenSplit

  // The contents of the replacement slots, mode by mode -------------------------------------

  /** One slot first come, first served: the text for it, and the room left over. A separator
      goes in only with room for the start of another entry, and the room is gone otherwise. */
  function Serve(x: Text, avail: int, sep: Option<Text>, last: bool): (Text, int) {
    var t := Trim(x, avail);
    var left := avail - Width(t);
    if sep.None? || last then (t, left)
    else if left < Width(sep.value) + 2 then (t, 0)
    else (t + sep.value, left - Width(sep.value))
  }

  function FirstComeSlots(strins: seq<Text>, avail: int, sep: Option<Text>): (r: seq<Text>)
    ensures |r| == |strins|
  {
    if strins == [] then []
    else
      var (t, left) := Serve(strins[0], avail, sep, |strins| == 1);
      [t] + FirstComeSlots(strins[1..], left, sep)
  }

  function DropWholeSlots(strins: seq<Text>, avail: int): (r: seq<Text>)
    ensures |r| == |strins|
  {
    if strins == [] then []
    else if Width(strins[0]) <= avail then [strins[0]] + DropWholeSlots(strins[1..], avail - Width(strins[0]))
    else [[]] + DropWholeSlots(strins[1..], avail)
  }

  /** The entries that are kept when joined: greedily, each with the separator it needs. */
  function KeptEntries(strins: seq<Text>, avail: int, sep: Text, first: bool): seq<Text> {
    if strins == [] then []
    else
      var need := Width(strins[0]) + if first then 0 else Width(sep);
      if need <= avail then [strins[0]] + KeptEntries(strins[1..], avail - need, sep, false)
      else KeptEntries(strins[1..], avail, sep, first)
  }

  function Separated(entries: seq<Text>, sep: Text, first: bool): Text {
    if entries == [] then []
    else (if first then [] else sep) + entries[0] + Separated(entries[1..], sep, false)
  }

  function SegmentLength(count: nat, avail: int, sep: Option<Text>): int
    requires count > 0
  {
    if sep.None? then avail / count
    else
      var each := (avail - (count - 1) * Width(sep.value)) / count;
      if each < 0 then 0 else each
  }

  function EvenSlots(strins: seq<Text>, length: int, sep: Option<Text>): (r: seq<Text>)
    ensures |r| == |strins|
  {
    if strins == [] then []
    else
      var t := Trim(strins[0], length);
      [if sep.None? || |strins| == 1 then t else t + sep.value] + EvenSlots(strins[1..], length, sep)
  }

  // Assembly ---------------------------------------------------------------------------

  datatype Outcome = Line(text: Text) | Raised

  function Formatted(r: Option<Text>): Outcome {
    if r.None? then Raised else Line(r.value)
  }

  /** With a separator the slots are joined into the one argument of the template. */
  function Filled(s: Template, slots: seq<Text>, sep: Option<Text>): Outcome {
    Formatted(Format(s, if sep.None? then slots else [Concat(slots)]))
  }

  function Blanked(s: Template, count: nat, sep: Option<Text>): Option<Text> {
    Format(s, if sep.None? then Blanks(count) else [[]])
  }

  function Assemble(prefixLen: nat, s: Template, strins: seq<Text>, mode: Mode, sep: Option<Text>): Outcome {
    var blank := Blanked(s, |strins|, sep);
    if blank.None? then Raised
    else
      var avail := Available(prefixLen, blank.value);
      if avail < 0 then
        var whole := Format(s, Blanks(|strins|));
        if whole.None? then Raised else Line(Trim(whole.value, |whole.value| + avail))
      else
        match mode
        case DropWhole =>
          if sep.None? then Filled(s, DropWholeSlots(strins, avail), sep)
          else Formatted(Format(s, [Separated(KeptEntries(strins, avail, sep.value, true), sep.value, true)]))
        case FirstCome => Filled(s, FirstComeSlots(strins, avail, sep), sep)
        case EvenSplit =>
          if |strins| == 0 then Raised
          else Filled(s, EvenSlots(strins, SegmentLength(|strins|, avail, sep), sep), sep)
  }

  /** The assembly on a list whose slots are overwritten in place. */
  method AssembleMsg(prefixLen: nat, s: Template, strins: array<Text>, mode: Mode, sep: Option<Text>)
    returns (r: Outcome)
    modifies strins
    ensures r == Assemble(prefixLen, s, old(strins[..]), mode, sep)
  {
    ghost var given := strins[..];
    var blank := Blanked(s, strins.Length, sep);
    if blank.None? {
      return Raised;
    }
    var avail := Available(prefixLen, blank.value);
    if avail < 0 {
      var whole := Format(s, Blanks(strins.Length));
      if whole.None? {
        return Raised;
      }
      var splits := SplitEncoded(whole.value, |whole.value| + avail, 1);
      FirstSegment(whole.value, |whole.value| + avail);
      return Line(splits[0].text);
    }
    match mode {
      case DropWhole =>
        if sep.None? {
          DropWholeInPlace(strins, avail);
          return Formatted(Format(s, strins[..]));
        }
        var text := KeepWhole(strins, avail, sep.value);
        return Formatted(Format(s, [text]));
      case FirstCome =>
        FirstComeInPlace(strins, avail, sep);
        return Filled(s, strins[..], sep);
      case EvenSplit =>
        if strins.Length == 0 {
          return Raised;
        }
        var length := SegmentLength(strins.Length, avail, sep);
        EvenInPlace(strins, length, sep);
        return Filled(s, strins[..], sep);
    }
  }

  method DropWholeInPlace(strins: array<Text>, avail: int)
    modifies strins
    ensures strins[..] == DropWholeSlots(old(strins[..]), avail)
  {
    hide Encode, Width;
    ghost var given := strins[..];
    var left := avail;
    for i := 0 to strins.Length
      invariant forall k :: i <= k < strins.Length ==> strins[k] == given[k]
      invariant DropWholeSlots(given, avail) == strins[..i] + DropWholeSlots(given[i..], left)
    {
      ghost var done := strins[..i];
      assert given[i..][1..] == given[i + 1..];
      var need := |Encode(strins[i])|;
      EncodeWidth(strins[i]);
      if need <= left {
        left := left - need;
      } else {
        strins[i] := [];
      }
      assert strins[..i + 1] == done + [strins[i]];
    }
  }

  method KeepWhole(strins: array<Text>, avail: int, sep: Text) returns (joined: Text)
    ensures joined == Separated(KeptEntries(strins[..], avail, sep, true), sep, true)
  {
    hide Encode, Width;
    joined := [];
    var left := avail;
    var kept := 0;
    ghost var goal := Separated(KeptEntries(strins[..], avail, sep, true), sep, true);
    assert strins[..][0..] == strins[..];
    for i := 0 to strins.Length
      invariant kept >= 0
      invariant goal == joined + Separated(KeptEntries(strins[..][i..], left, sep, kept == 0), sep, kept == 0)
    {
      var part := (if kept > 0 then sep else []) + strins[i];
      var need := |Encode(part)|;
      EncodeWidth(part);
      KeepStep(strins[..], i, left, sep, kept == 0);
      if need <= left {
        joined := joined + part;
        left := left - need;
        kept := kept + 1;
      }
    }
  }

  lemma KeepStep(strins: seq<Text>, i: nat, left: int, sep: Text, first: bool)
    requires i < |strins|
    ensures var part := (if first then [] else sep) + strins[i];
      Separated(KeptEntries(strins[i..], left, sep, first), sep, first) ==
      if Width(part) <= left
      then part + Separated(KeptEntries(strins[i + 1..], left - Width(part), sep, false), sep, false)
      else Separated(KeptEntries(strins[i + 1..], left, sep, first), sep, first)
  {
    hide Encode;
    assert strins[i..][1..] == strins[i + 1..];
    EncodeConcat(if first then [] else sep, strins[i]);
    var need := Width(strins[i]) + if first then 0 else Width(sep);
    if need <= left {
      var more := KeptEntries(strins[i + 1..], left - need, sep, false);
      assert ([strins[i]] + more)[1..] == more;
    }
  }

  method ServeSlot(x: Text, avail: int, sep: Option<Text>, last: bool) returns (slot: Text, left: int)
    ensures (slot, left) == Serve(x, avail, sep, last)
  {
    hide Encode, Width, Split, FitPrefix;
    var splits := SplitEncoded(x, avail, 1);
    FirstSegment(x, avail);
    slot, left := splits[0].text, avail - splits[0].size;
    if sep.Some? && !last {
      var lj := |Encode(sep.value)|;
      EncodeWidth(sep.value);
      if left < lj + 2 {
        left := 0;
      } else {
        slot := slot + sep.value;
        left := left - lj;
      }
    }
  }

  method FirstComeInPlace(strins: array<Text>, avail: int, sep: Option<Text>)
    modifies strins
    ensures strins[..] == FirstComeSlots(old(strins[..]), avail, sep)
  {
    hide Serve;
    ghost var given := strins[..];
    var left := avail;
    for i := 0 to strins.Length
      invariant forall k :: i <= k < strins.Length ==> strins[k] == given[k]
      invariant FirstComeSlots(given, avail, sep) == strins[..i] + FirstComeSlots(given[i..], left, sep)
    {
      ghost var done := strins[..i];
      assert given[i..][1..] == given[i + 1..];
      var slot, rest := ServeSlot(strins[i], left, sep, i == strins.Length - 1);
      strins[i] := slot;
      left := rest;
      assert strins[..i + 1] == done + [slot];
    }
  }

  method EvenInPlace(strins: array<Text>, length: int, sep: Option<Text>)
    modifies strins
    ensures strins[..] == EvenSlots(old(strins[..]), length, sep)
  {
    hide Split, EvenSlots;
    ghost var given := strins[..];
    for i := 0 to strins.Length
      invariant forall k :: i <= k < strins.Length ==> strins[k] == given[k]
      invariant EvenSlots(given, length, sep) == strins[..i] + EvenSlots(given[i..], length, sep)
    {
      ghost var done := strins[..i];
      EvenStep(given, i, length, sep);
      var splits := SplitEncoded(strins[i], length, 1);
      if sep.Some? && i != strins.Length - 1 {
        strins[i] := splits[0].text + sep.value;
      } else {
        strins[i] := splits[0].text;
      }
      assert strins[..i + 1] == done + [strins[i]];
    }
  }

  lemma EvenStep(given: seq<Text>, i: nat, length: int, sep: Option<Text>)
    requires i < |given|
    ensures |Split(given[i], length, 1)| > 0
    ensures var t := Split(given[i], length, 1)[0].text;
      EvenSlots(given[i..], length, sep) ==
      [if sep.None? || i == |given| - 1 then t else t + sep.value] + EvenSlots(given[i + 1..], length, sep)
  {
    hide Split, FitPrefix;
    FirstSegment(given[i], length);
    assert given[i..][1..] == given[i + 1..];
  }

  // The budget theorems -----------------------------------------------------------------

  /** No replacement field is used twice. */
  ghost predicate UsedOnce(s: Template) {
    forall i, j :: 0 <= i < j < |s| && s[i].Hole? && s[j].Hole? ==> s[i].index != s[j].index
  }

  ghost predicate Uses(s: Template, i: nat) {
    Hole(i) in s
  }

  /** What the replacements contribute to the formatted line. */
  function Filling(s: Template, args: seq<Text>): nat {
    if s == [] then 0
    else Filling(s[1..], args) + if s[0].Hole? && s[0].index < |args| then Width(args[s[0].index]) else 0
  }

  lemma {:induction false} FormatWidth(s: Template, args: seq<Text>)
    ensures Format(s, args).Some? <==> Format(s, Blanks(|args|)).Some?
    ensures Format(s, args).Some? ==>
      Width(Format(s, args).value) == Width(Format(s, Blanks(|args|)).value) + Filling(s, args)
  {
    hide Width;
    if s == [] {
      assert Width([]) == 0 by { EncodeConcat([], []); }
    } else {
      FormatWidth(s[1..], args);
      var rest, blank := Format(s[1..], args), Format(s[1..], Blanks(|args|));
      if rest.Some? {
        match s[0] {
          case Lit(text) => {
            EncodeConcat(text, rest.value);
            EncodeConcat(text, blank.value);
          }
          case Hole(i) =>
            if i < |args| {
              EncodeConcat(args[i], rest.value);
              assert [] + blank.value == blank.value;
            }
        }
      }
    }
  }

  lemma {:induction false} TotalWithout(args: seq<Text>, h: nat)
    requires h < |args|
    ensures Total(args[h := []]) == Total(args) - Width(args[h])
  {
    if h == 0 {
      assert args[h := []] == [[]] + args[1..];
    } else {
      TotalWithout(args[1..], h - 1);
      assert args[h := []] == [args[0]] + args[1..][h - 1 := []];
    }
  }

  lemma {:induction false} FillingWithout(s: Template, args: seq<Text>, h: nat)
    requires h < |args| && !Uses(s, h)
    ensures Filling(s, args[h := []]) == Filling(s, args)
  {
    hide Width;
    if s != [] {
      assert Hole(h) !in s[1..];
      FillingWithout(s[1..], args, h);
    }
  }

  lemma {:induction false} FillingBound(s: Template, args: seq<Text>)
    requires UsedOnce(s)
    ensures Filling(s, args) <= Total(args)
  {
    if s != [] {
      FillingBound(s[1..], args);
      if s[0].Hole? && s[0].index < |args| {
        var h := s[0].index;
        assert !Uses(s[1..], h);
        FillingWithout(s[1..], args, h);
        FillingBound(s[1..], args[h := []]);
        TotalWithout(args, h);
      }
    }
  }

  lemma {:induction false} ConcatWidth(parts: seq<Text>)
    ensures Width(Concat(parts)) == Total(parts)
  {
    hide Width;
    if parts == [] {
      EncodeConcat([], []);
    } else {
      EncodeConcat(parts[0], Concat(parts[1..]));
      ConcatWidth(parts[1..]);
    }
  }

  lemma TrimFits(x: Text, avail: int)
    ensures Trim(x, avail) <= x
    ensures Width(Trim(x, avail)) <= if avail < 0 then 0 else avail
    ensures Trim(x, avail) == x <==> x == [] || (avail >= 1 && Width(x) <= avail)
  {
    hide Width, FitCount, Split;
    FirstSegment(x, avail);
  }

  lemma ServeFits(x: Text, avail: int, sep: Option<Text>, last: bool)
    requires avail >= 0
    ensures var (t, left) := Serve(x, avail, sep, last); left >= 0 && Width(t) + left <= avail
  {
    hide Width, Trim;
    TrimFits(x, avail);
    if sep.Some? {
      EncodeConcat(Trim(x, avail), sep.value);
    }
  }

  lemma {:induction false} FirstComeTotal(strins: seq<Text>, avail: int, sep: Option<Text>)
    requires avail >= 0
    ensures Total(FirstComeSlots(strins, avail, sep)) <= avail
  {
    hide Width, Serve;
    if strins != [] {
      ServeFits(strins[0], avail, sep, |strins| == 1);
      var (t, left) := Serve(strins[0], avail, sep, |strins| == 1);
      FirstComeTotal(strins[1..], left, sep);
    }
  }

  lemma {:induction false} DropWholeTotal(strins: seq<Text>, avail: int)
    requires avail >= 0
    ensures Total(DropWholeSlots(strins, avail)) <= avail
  {
    if strins != [] {
      DropWholeTotal(strins[1..], if Width(strins[0]) <= avail then avail - Width(strins[0]) else avail);
    }
  }

  lemma {:induction false} KeptTotal(strins: seq<Text>, avail: int, sep: Text, first: bool)
    requires avail >= 0
    ensures Width(Separated(KeptEntries(strins, avail, sep, first), sep, first)) <= avail
  {
    hide Width;
    if strins == [] {
      EncodeConcat([], []);
    } else {
      var need := Width(strins[0]) + if first then 0 else Width(sep);
      if need <= avail {
        KeptTotal(strins[1..], avail - need, sep, false);
        var more := KeptEntries(strins[1..], avail - need, sep, false);
        assert ([strins[0]] + more)[1..] == more;
        var lead := if first then [] else sep;
        EncodeConcat([], []);
        EncodeConcat(lead, strins[0]);
        EncodeConcat(lead + strins[0], Separated(more, sep, false));
      } else {
        KeptTotal(strins[1..], avail, sep, first);
      }
    }
  }

  function Separators(count: nat, sep: Option<Text>): int {
    if sep.None? || count == 0 then 0 else (count - 1) * Width(sep.value)
  }

  lemma {:induction false} EvenTotal(strins: seq<Text>, length: nat, sep: Option<Text>)
    ensures Separators(|strins|, sep) <= Total(EvenSlots(strins, length, sep))
         <= |strins| * length + Separators(|strins|, sep)
  {
    hide Width, Trim;
    if strins != [] {
      TrimFits(strins[0], length);
      var t := Trim(strins[0], length);
      EvenTotal(strins[1..], length, sep);
      if sep.Some? {
        EncodeConcat(t, sep.value);
      }
      OneMore(|strins|, length);
      if sep.Some? {
        OneMore(|strins| - 1, Width(sep.value));
      }
    }
  }

  lemma OneMore(n: int, x: int)
    ensures n * x == x + (n - 1) * x
  {
  }

  /** The one mode that can overrun: an even split whose separators alone are too long. */
  ghost predicate SeparatorsFit(strins: seq<Text>, mode: Mode, sep: Option<Text>, avail: int) {
    mode == EvenSplit && sep.Some? && avail >= 0 ==> Separators(|strins|, sep) <= avail
  }

  lemma EvenSplitTotal(strins: seq<Text>, avail: nat, sep: Option<Text>)
    requires strins != []
    ensures var total := Total(EvenSlots(strins, SegmentLength(|strins|, avail, sep), sep));
      && (Separators(|strins|, sep) <= avail ==> total <= avail)
      && (Separators(|strins|, sep) > avail ==> total > avail)
  {
    hide EvenSlots, Total, Width;
    var n := |strins|;
    ShareBound(avail - Separators(n, sep), n);
    var length := SegmentLength(n, avail, sep);
    EvenTotal(strins, length, sep);
  }

  lemma ShareBound(share: int, n: nat)
    requires n > 0
    ensures share >= 0 ==> share / n >= 0 && n * (share / n) <= share
  {
  }

  lemma FilledWidth(s: Template, slots: seq<Text>, sep: Option<Text>, prefixLen: nat, blank: Text)
    requires UsedOnce(s) && Blanked(s, |slots|, sep) == Some(blank)
    requires Total(slots) <= Available(prefixLen, blank)
    ensures Filled(s, slots, sep).Line? && |Encode(Filled(s, slots, sep).text)| <= Budget(prefixLen)
  {
    hide Width, Encode, Format;
    EncodeWidth(blank);
    var args := if sep.None? then slots else [Concat(slots)];
    assert Blanks(1) == [[]];
    FormatWidth(s, args);
    FillingBound(s, args);
    EncodeWidth(Format(s, args).value);
    if sep.Some? {
      ConcatWidth(slots);
      TotalOne(Concat(slots));
    }
  }

  lemma TotalOne(x: Text)
    ensures Total([x]) == Width(x)
  {
    assert [x][1..] == [];
  }

  /** The assembled line, with the prefix, always fits in what the server will relay. */
  lemma AssembledFits(prefixLen: nat, s: Template, strins: seq<Text>, mode: Mode, sep: Option<Text>)
    requires prefixLen <= 508 && UsedOnce(s)
    requires Assemble(prefixLen, s, strins, mode, sep).Line?
    requires SeparatorsFit(strins, mode, sep, Available(prefixLen, Blanked(s, |strins|, sep).value))
    ensures |Encode(Assemble(prefixLen, s, strins, mode, sep).text)| <= Budget(prefixLen)
  {
    hide Width, Encode, Format, Trim, Total, FirstComeSlots, DropWholeSlots, KeptEntries, Separated, EvenSlots,
         SegmentLength, Filled;
    var blank := Blanked(s, |strins|, sep).value;
    var avail := Available(prefixLen, blank);
    EncodeWidth(blank);
    if avail < 0 {
      var whole := Format(s, Blanks(|strins|)).value;
      BlankedWhole(s, |strins|, sep);
      EncodeWidth(whole);
      TrimFits(whole, |whole| + avail);
      EncodeWidth(Trim(whole, |whole| + avail));
    } else if mode == DropWhole && sep.Some? {
      KeptTotal(strins, avail, sep.value, true);
      var text := Separated(KeptEntries(strins, avail, sep.value, true), sep.value, true);
      TotalOne(text);
      assert Blanks(1) == [[]];
      FilledWidth(s, [text], None, prefixLen, blank);
      OneSlot(s, text);
    } else if mode == DropWhole {
      DropWholeTotal(strins, avail);
      FilledWidth(s, DropWholeSlots(strins, avail), sep, prefixLen, blank);
    } else if mode == FirstCome {
      FirstComeTotal(strins, avail, sep);
      FilledWidth(s, FirstComeSlots(strins, avail, sep), sep, prefixLen, blank);
    } else {
      EvenSplitTotal(strins, avail, sep);
      SeparatorsNone(|strins|, sep);
      FilledWidth(s, EvenSlots(strins, SegmentLength(|strins|, avail, sep), sep), sep, prefixLen, blank);
    }
  }

  lemma SeparatorsNone(count: nat, sep: Option<Text>)
    ensures sep.None? ==> Separators(count, sep) == 0
  {
  }

  lemma OneSlot(s: Template, text: Text)
    ensures Filled(s, [text], None) == Formatted(Format(s, [text]))
  {
  }

  /** The blank template does not depend on how many blank arguments it is given. */
  lemma {:induction false} BlankedWhole(s: Template, count: nat, sep: Option<Text>)
    requires Blanked(s, count, sep).Some? && Format(s, Blanks(count)).Some?
    ensures Format(s, Blanks(count)) == Blanked(s, count, sep)
  {
    if s != [] {
      BlankedWhole(s[1..], count, sep);
    }
  }

  /** In the even split with a separator the line fits exactly when the separators alone do. */
  lemma EvenSplitFitsExactly(prefixLen: nat, s: Template, strins: seq<Text>, sep: Option<Text>)
    requires prefixLen <= 508 && UsedOnce(s) && Uses(s, 0) && sep.Some? && strins != []
    requires Assemble(prefixLen, s, strins, EvenSplit, sep).Line?
    requires Available(prefixLen, Blanked(s, |strins|, sep).value) >= 0
    ensures |Encode(Assemble(prefixLen, s, strins, EvenSplit, sep).text)| <= Budget(prefixLen) <==>
            Separators(|strins|, sep) <= Available(prefixLen, Blanked(s, |strins|, sep).value)
  {
    hide Width, Encode, Format, Total, EvenSlots, SegmentLength, Filling;
    var blank := Blanked(s, |strins|, sep).value;
    var avail := Available(prefixLen, blank);
    EvenSplitTotal(strins, avail, sep);
    var text := Concat(EvenSlots(strins, SegmentLength(|strins|, avail, sep), sep));
    ConcatWidth(EvenSlots(strins, SegmentLength(|strins|, avail, sep), sep));
    assert Blanks(1) == [[]];
    FormatWidth(s, [text]);
    FillingOne(s, text);
    EncodeWidth(blank);
    EncodeWidth(Format(s, [text]).value);
  }

  lemma {:induction false} FillingOne(s: Template, x: Text)
    requires UsedOnce(s)
    ensures Filling(s, [x]) == if Uses(s, 0) then Width(x) else 0
  {
    if s != [] {
      FillingOne(s[1..], x);
      if s[0] == Hole(0) {
        assert !Uses(s[1..], 0);
      } else {
        assert Uses(s, 0) <==> Uses(s[1..], 0);
      }
    }
  }

  /** Inputs on which the even split overruns, for every length of a known prefix: forty blank
      entries, fifteen-byte separators. */
  lemma EvenSplitOverruns(prefixLen: nat)
    requires 1 <= prefixLen <= 508
    ensures exists s: Template, strins, sep :: (
      && UsedOnce(s)
      && Assemble(prefixLen, s, strins, EvenSplit, sep).Line?
      && |Encode(Assemble(prefixLen, s, strins, EvenSplit, sep).text)| > Budget(prefixLen))
  {
    hide Encode, Width, SegmentLength, EvenSlots;
    var s := [Hole(0)];
    var strins := Blanks(40);
    var wide: Text := seq(15, i => 0x2D);
    var sep := Some(wide);
    EncodeWidth(wide);
    var none: Text := [];
    assert none + none == none;
    assert Format(s[1..], [none]) == Some(none);
    assert Format(s, [none]) == Some(none);
    assert Blanked(s, 40, sep) == Some([]);
    assert Available(prefixLen, []) == 508 - prefixLen by { EncodeEmpty(); }
    assert Separators(40, sep) >= 39 * 15 by { assert Width(wide) >= 15; }
    var text := Concat(EvenSlots(strins, SegmentLength(40, 508 - prefixLen, sep), sep));
    assert Format(s, [text]).Some?;
    assert Uses(s, 0);
    EvenSplitFitsExactly(prefixLen, s, strins, sep);
  }

  lemma EncodeEmpty()
    ensures Encode([]) == []
  {
  }

  lemma TotalFirst(slots: seq<Text>, i: nat)
    requires 0 < i <= |slots|
    ensures Total(slots[..i]) == Width(slots[0]) + Total(slots[1..][..i - 1])
  {
    hide Width;
    assert slots[..i][1..] == slots[1..][..i - 1];
  }

  /** First come, first served, slot by slot: each gets the longest prefix of its text that fits
      in what the slots before it leave over. */
  lemma {:induction false} FirstComeExactly(strins: seq<Text>, avail: int, i: nat)
    requires i < |strins|
    ensures FirstComeSlots(strins, avail, None)[i] ==
      Trim(strins[i], avail - Total(FirstComeSlots(strins, avail, None)[..i]))
  {
    hide Width, Trim;
    var slots := FirstComeSlots(strins, avail, None);
    if i > 0 {
      var left := avail - Width(slots[0]);
      FirstComeExactly(strins[1..], left, i - 1);
      assert slots[1..] == FirstComeSlots(strins[1..], left, None);
      TotalFirst(slots, i);
    }
  }

  /** After slot `j` there is room for a separator and the start of another entry. */
  predicate RoomAfter(strins: seq<Text>, slots: seq<Text>, avail: int, sep: Text, j: nat)
    requires j < |strins| == |slots|
  {
    var left := avail - Total(slots[..j]);
    left - Width(Trim(strins[j], left)) >= Width(sep) + 2
  }

  predicate RoomBefore(strins: seq<Text>, slots: seq<Text>, avail: int, sep: Text, i: nat)
    requires i <= |strins| == |slots|
  {
    forall j :: 0 <= j < i ==> RoomAfter(strins, slots, avail, sep, j)
  }

  lemma RoomFurther(strins: seq<Text>, slots: seq<Text>, avail: int, sep: Text, i: nat)
    requires 0 < i <= |strins| == |slots| && RoomAfter(strins, slots, avail, sep, 0)
    ensures
      var rest := avail - Width(slots[0]);
      && RoomBefore(strins, slots, avail, sep, i) == RoomBefore(strins[1..], slots[1..], rest, sep, i - 1)
      && (i < |strins| ==>
            RoomAfter(strins, slots, avail, sep, i) == RoomAfter(strins[1..], slots[1..], rest, sep, i - 1))
  {
    hide Width, Trim, Total;
    var rest := avail - Width(slots[0]);
    forall j | 0 < j < |strins|
      ensures RoomAfter(strins, slots, avail, sep, j) == RoomAfter(strins[1..], slots[1..], rest, sep, j - 1)
    {
      TotalFirst(slots, j);
    }
    hide RoomAfter;
    if RoomBefore(strins, slots, avail, sep, i) {
      forall j | 0 <= j < i - 1 ensures RoomAfter(strins[1..], slots[1..], rest, sep, j) {
        assert RoomAfter(strins, slots, avail, sep, j + 1);
      }
    }
  }

  /** With a separator it goes on like that, each text followed by the separator, up to the first
      slot after which there is no room; the slots behind that one are empty. */
  lemma {:induction false} FirstComeJoined(strins: seq<Text>, avail: int, sep: Text, i: nat)
    requires i < |strins|
    ensures
      var slots := FirstComeSlots(strins, avail, Some(sep));
      var text := Trim(strins[i], avail - Total(slots[..i]));
      if !RoomBefore(strins, slots, avail, sep, i) then slots[i] == []
      else if i < |strins| - 1 && RoomAfter(strins, slots, avail, sep, i) then slots[i] == text + sep
      else slots[i] == text
  {
    hide Width, Trim, Total, FirstComeSlots, RoomAfter, RoomBefore;
    var slots := FirstComeSlots(strins, avail, Some(sep));
    TotalNone(slots);
    FirstSlot(strins, avail, sep);
    if i > 0 {
      if RoomAfter(strins, slots, avail, sep, 0) {
        FirstComeJoined(strins[1..], avail - Width(slots[0]), sep, i - 1);
        RoomFurther(strins, slots, avail, sep, i);
        TotalFirst(slots, i);
      } else {
        NothingLeft(strins[1..], sep);
        NoRoomBefore(strins, slots, avail, sep, i);
      }
    } else {
      RoomAtStart(strins, slots, avail, sep);
    }
  }

  lemma FirstSlot(strins: seq<Text>, avail: int, sep: Text)
    requires strins != []
    ensures
      var slots := FirstComeSlots(strins, avail, Some(sep));
      if |strins| == 1 then slots[0] == Trim(strins[0], avail)
      else if RoomAfter(strins, slots, avail, sep, 0) then
        slots[0] == Trim(strins[0], avail) + sep
        && slots[1..] == FirstComeSlots(strins[1..], avail - Width(slots[0]), Some(sep))
      else slots[0] == Trim(strins[0], avail) && slots[1..] == FirstComeSlots(strins[1..], 0, Some(sep))
  {
    hide Width, Trim, Total;
    var slots := FirstComeSlots(strins, avail, Some(sep));
    TotalNone(slots);
    EncodeConcat(Trim(strins[0], avail), sep);
  }

  lemma NoRoomBefore(strins: seq<Text>, slots: seq<Text>, avail: int, sep: Text, i: nat)
    requires 0 < i <= |strins| == |slots| && !RoomAfter(strins, slots, avail, sep, 0)
    ensures !RoomBefore(strins, slots, avail, sep, i)
  {
    hide RoomAfter;
  }

  lemma RoomAtStart(strins: seq<Text>, slots: seq<Text>, avail: int, sep: Text)
    requires |strins| == |slots|
    ensures RoomBefore(strins, slots, avail, sep, 0)
  {
  }

  lemma TotalNone(slots: seq<Text>)
    ensures Total(slots[..0]) == 0
  {
  }

  lemma {:induction false} NothingLeft(strins: seq<Text>, sep: Text)
    ensures forall i :: 0 <= i < |strins| ==> FirstComeSlots(strins, 0, Some(sep))[i] == []
  {
    if strins != [] {
      TrimFits(strins[0], 0);
      NothingLeft(strins[1..], sep);
    }
  }

  /** The even split, slot by slot: the same share for each, and a separator after all but the
      last; an entry that fits its share is not cut. */
  lemma {:induction false} EvenExactly(strins: seq<Text>, length: int, sep: Option<Text>, i: nat)
    requires i < |strins|
    ensures
      var slot := EvenSlots(strins, length, sep)[i];
      && slot ==
        (if sep.None? || i == |strins| - 1 then Trim(strins[i], length) else Trim(strins[i], length) + sep.value)
      && Width(Trim(strins[i], length)) <= (if length < 0 then 0 else length)
      && (length >= 1 && Width(strins[i]) <= length ==> Trim(strins[i], length) == strins[i])
  {
    hide Width, Trim;
    TrimFits(strins[i], length);
    if i > 0 {
      EvenExactly(strins[1..], length, sep, i - 1);
    }
  }

  /** Dropping whole entries, slot by slot: an entry stays uncut exactly when it fits in what the
      entries kept before it leave over. */
  lemma {:induction false} DropWholeExactly(strins: seq<Text>, avail: int, i: nat)
    requires i < |strins|
    ensures DropWholeSlots(strins, avail)[i] ==
      if Width(strins[i]) <= avail - Total(DropWholeSlots(strins, avail)[..i]) then strins[i] else []
  {
    hide Width;
    var slots := DropWholeSlots(strins, avail);
    if i > 0 {
      var left := if Width(strins[0]) <= avail then avail - Width(strins[0]) else avail;
      DropWholeExactly(strins[1..], left, i - 1);
      assert slots[1..] == DropWholeSlots(strins[1..], left);
      assert slots[..i][1..] == slots[1..][..i - 1];
      EncodeConcat([], []);
    }
  }

  /** `a` is `b` with some entries left out. */
  ghost predicate IsSubsequence(a: seq<Text>, b: seq<Text>) {
    a == [] || (b != [] && ((a[0] == b[0] && IsSubsequence(a[1..], b[1..])) || IsSubsequence(a, b[1..])))
  }

  /** Joined entries are uncut entries of the list, in order; and they are all of them when
      everything fits. */
  lemma {:induction false} KeptWhole(strins: seq<Text>, avail: int, sep: Text, first: bool)
    ensures IsSubsequence(KeptEntries(strins, avail, sep, first), strins)
    ensures Width(Separated(strins, sep, first)) <= avail ==> KeptEntries(strins, avail, sep, first) == strins
  {
    hide Width;
    if strins != [] {
      var need := Width(strins[0]) + if first then 0 else Width(sep);
      var lead := if first then [] else sep;
      EncodeConcat([], []);
      EncodeConcat(lead, strins[0]);
      EncodeConcat(lead + strins[0], Separated(strins[1..], sep, false));
      if need <= avail {
        KeptWhole(strins[1..], avail - need, sep, false);
        var kept := KeptEntries(strins, avail, sep, first);
        assert kept[1..] == KeptEntries(strins[1..], avail - need, sep, false);
      } else {
        KeptWhole(strins[1..], avail, sep, first);
      }
    }
  }

  // Plain messages ------------------------------------------------------------------------

  /** A message that is not split: what does not fit is cut off. `head` is "PRIVMSG target :". */
  function BuildMsg(prefixLen: nat, head: Text, message: Text): Text {
    head + Trim(message, Available(prefixLen, head))
  }

  predicate CheckSendMsg(prefixLen: nat, head: Text, message: Text) {
    |Encode(head + message)| <= Available(prefixLen, [])
  }

  /** The check answers whether the message goes out unchanged, except for the empty message
      behind a head that is itself too long. */
  lemma CheckSendMsgExactly(prefixLen: nat, head: Text, message: Text)
    ensures (CheckSendMsg(prefixLen, head, message) <==> BuildMsg(prefixLen, head, message) == head + message)
            <==> (Available(prefixLen, head) >= 0 || message != [])
  {
    hide Encode, Width, Trim;
    EncodeConcat(head, message);
    EncodeEmpty();
    EncodeWidth(message);
    TrimFits(message, Available(prefixLen, head));
    var cut := Trim(message, Available(prefixLen, head));
    assert (head + cut)[|head|..] == cut && (head + message)[|head|..] == message;
  }

  /** The exception, for every head that is too long: the empty message goes out behind it, and the
      check says that it does not. */
  lemma CheckSendMsgWrong(prefixLen: nat, head: Text)
    requires Available(prefixLen, head) < 0
    ensures BuildMsg(prefixLen, head, []) == head + [] && !CheckSendMsg(prefixLen, head, [])
  {
    TrimFits([], Available(prefixLen, head));
    EncodeEmpty();
    assert head + [] == head;
  }

  const MAX_LINES := 4

  function SegmentTexts(segments: seq<Segment>): (r: seq<Text>)
    ensures |r| == |segments|
  {
    seq(|segments|, i requires 0 <= i < |segments| => segments[i].text)
  }

  /** Every line of the message is split on its own, until four segments are out. */
  function SplitLines(lines: seq<Text>, avail: int, room: nat): seq<Text>
    decreases |lines|
  {
    if lines == [] || room == 0 then []
    else
      var texts := SegmentTexts(Split(lines[0], avail, room));
      texts + SplitLines(lines[1..], avail, if |texts| <= room then room - |texts| else 0)
  }

  /** The head goes in front of each text. */
  function Headed(head: Text, texts: seq<Text>): (r: seq<Text>)
    ensures |r| == |texts|
  {
    seq(|texts|, i requires 0 <= i < |texts| => head + texts[i])
  }

  method BuildSplit(prefixLen: nat, head: Text, lines: seq<Text>) returns (msgs: seq<Text>)
    ensures msgs == Headed(head, SplitLines(lines, Available(prefixLen, head), MAX_LINES))
  {
    hide Encode, Width, Split, SplitLines;
    msgs := [];
    ghost var texts: seq<Text> := [];
    var avail := Available(prefixLen, head);
    assert lines[0..] == lines;
    for i := 0 to |lines|
      invariant |msgs| <= MAX_LINES && msgs == Headed(head, texts)
      invariant SplitLines(lines, avail, MAX_LINES) == texts + SplitLines(lines[i..], avail, MAX_LINES - |msgs|)
    {
      NextLine(lines, i, avail, MAX_LINES - |msgs|);
      var remaining := MAX_LINES - |msgs|;
      if remaining <= 0 {
        break;
      }
      var segments := SplitEncoded(lines[i], avail, remaining);
      SplitCount(lines[i], avail, remaining);
      msgs := msgs + Headed(head, SegmentTexts(segments));
      texts := texts + SegmentTexts(segments);
    }
    NoMoreLines(lines[|lines|..], avail, MAX_LINES - |msgs|);
  }

  lemma NextLine(lines: seq<Text>, i: nat, avail: int, room: nat)
    requires i < |lines|
    ensures room == 0 ==> SplitLines(lines[i..], avail, room) == []
    ensures room > 0 && |Split(lines[i], avail, room)| <= room ==>
      SplitLines(lines[i..], avail, room) ==
      SegmentTexts(Split(lines[i], avail, room))
      + SplitLines(lines[i + 1..], avail, room - |Split(lines[i], avail, room)|)
  {
    hide Split, SegmentTexts;
    assert lines[i..][1..] == lines[i + 1..];
  }

  lemma NoMoreLines(lines: seq<Text>, avail: int, room: nat)
    requires lines == []
    ensures SplitLines(lines, avail, room) == []
  {
  }

  lemma SplitCount(t: Text, avail: int, n: nat)
    requires n >= 1
    ensures |Split(t, avail, n)| <= n
  {
    SegmentsFit(t, if avail < 0 then 0 else avail, n);
  }

  /** A split message makes at most four lines and each fits; when it makes fewer than four, and no
      character is wider than a line, nothing of it is lost. */
  lemma {:induction false} SplitLinesFit(lines: seq<Text>, avail: int, room: nat)
    ensures |SplitLines(lines, avail, room)| <= room
    ensures forall m :: m in SplitLines(lines, avail, room) ==> |Encode(m)| <= if avail < 0 then 0 else avail
    ensures avail >= 1 && (forall l :: l in lines ==> Narrow(l, avail)) && |SplitLines(lines, avail, room)| < room ==>
      Concat(SplitLines(lines, avail, room)) == Concat(lines)
    decreases |lines|
  {
    hide Encode, Width, Split, Concat, SplitLines, Texts, Narrow;
    if lines == [] || room == 0 {
      NoLines(lines, avail, room);
    } else {
      var segments := Split(lines[0], avail, room);
      assert lines[0..] == lines;
      NextLine(lines, 0, avail, room);
      OneLine(lines[0], avail, room);
      SplitLinesFit(lines[1..], avail, room - |segments|);
      ConcatTwo(SegmentTexts(segments), SplitLines(lines[1..], avail, room - |segments|));
      ConcatFirst(lines);
    }
  }

  lemma NoLines(lines: seq<Text>, avail: int, room: nat)
    requires lines == [] || room == 0
    ensures SplitLines(lines, avail, room) == [] && (lines == [] ==> Concat([]) == Concat(lines))
  {
  }

  lemma ConcatFirst(lines: seq<Text>)
    requires lines != []
    ensures Concat(lines) == lines[0] + Concat(lines[1..])
  {
  }

  lemma OneLine(line: Text, avail: int, room: nat)
    requires room > 0
    ensures |Split(line, avail, room)| <= room
    ensures forall m :: m in SegmentTexts(Split(line, avail, room)) ==> |Encode(m)| <= if avail < 0 then 0 else avail
    ensures avail >= 1 && Narrow(line, avail) && |Split(line, avail, room)| < room ==>
      Concat(SegmentTexts(Split(line, avail, room))) == line
  {
    hide Encode, Width, Segments, Texts, Narrow;
    var segments := Split(line, avail, room);
    EncodeEmpty();
    EncodeWidth(line);
    ConcatTexts(segments);
    OneText(line);
    if avail >= 1 {
      SegmentsFit(line, avail, room);
      if Narrow(line, avail) {
        SegmentsRejoin(line, avail, room);
      }
    }
  }

  /** With the head and the prefix each of them fits in what the server will relay. */
  lemma BuiltMessagesFit(prefixLen: nat, head: Text, lines: seq<Text>)
    requires Available(prefixLen, head) >= 0
    ensures
      var msgs := Headed(head, SplitLines(lines, Available(prefixLen, head), MAX_LINES));
      |msgs| <= MAX_LINES && forall m :: m in msgs ==> |Encode(m)| <= Budget(prefixLen)
  {
    hide Encode, Width, SplitLines;
    var texts := SplitLines(lines, Available(prefixLen, head), MAX_LINES);
    SplitLinesFit(lines, Available(prefixLen, head), MAX_LINES);
    forall i | 0 <= i < |texts| ensures |Encode(head + texts[i])| <= Budget(prefixLen) {
      EncodeConcat(head, texts[i]);
    }
  }

  lemma OneText(t: Text)
    ensures Texts([Segment(t, Width(t))]) == t
  {
    assert [Segment(t, Width(t))][1..] == [];
  }

  lemma {:induction false} ConcatTexts(segments: seq<Segment>)
    ensures Concat(SegmentTexts(segments)) == Texts(segments)
  {
    if segments != [] {
      ConcatTexts(segments[1..]);
      assert SegmentTexts(segments)[1..] == SegmentTexts(segments[1..]);
    }
  }

  lemma {:induction false} ConcatTwo(a: seq<Text>, b: seq<Text>)
    ensures Concat(a + b) == Concat(a) + Concat(b)
  {
    if a == [] {
      assert a + b == b;
    } else {
      ConcatTwo(a[1..], b);
      var first, rest, all := a[0], Concat(a[1..]), a + b;
      assert all[1..] == a[1..] + b && all[0] == first;
      assert Concat(all) == first + Concat(all[1..]);
      assert Concat(a) == first + rest;
      hide Concat;
      assert first + (rest + Concat(b)) == first + rest + Concat(b);
    }
  }
}
