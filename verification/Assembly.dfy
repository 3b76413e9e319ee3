/** What an assembled message is: the template with its slots filled, and each slot as its mode says. */
module Assembly {
  import opened Common
  import opened Utf8
  import opened TextSplit
  import opened MessageBudget

  // The pieces of a line, in order --------------------------------------------------------------

  /** A piece stands where its template has it, between what comes before and what comes after. */
  lemma {:induction false} FormatAt(s: Template, args: seq<Text>, k: nat)
    requires k < |s|
    ensures
      var before, after := Format(s[..k], args), Format(s[k + 1..], args);
      Format(s, args) ==
        if before.None? || after.None? || (s[k].Hole? && s[k].index >= |args|) then None
        else Some(before.value + (if s[k].Lit? then s[k].text else args[s[k].index]) + after.value)
    ensures Format([], args) == Some([])
  {
    if k == 0 {
      assert s[..0] == [];
      assert forall t: Text :: [] + t == t;
    } else {
      FormatAt(s[1..], args, k - 1);
      assert s[..k][1..] == s[1..][..k - 1] && s[1..][k..] == s[k + 1..];
      var before, after := Format(s[..k], args), Format(s[k + 1..], args);
      if before.Some? && after.Some? {
        var rest := Format(s[1..][..k - 1], args).value;
        var own := if s[k].Lit? then s[k].text else if s[k].index < |args| then args[s[k].index] else [];
        var first := if s[0].Lit? then s[0].text else args[s[0].index];
        Regroup(first, rest, own, after.value);
      }
    }
  }

  lemma Regroup(a: Text, b: Text, c: Text, d: Text)
    ensures a + (b + c + d) == a + b + c + d
  {
  }

  /** Formatting fails exactly when a field has no argument. */
  lemma {:induction false} FormatFailsExactly(s: Template, args: seq<Text>)
    ensures Format(s, args).None? <==> exists k :: 0 <= k < |s| && s[k].Hole? && s[k].index >= |args|
  {
    if s != [] {
      FormatFailsExactly(s[1..], args);
      if exists k :: 0 <= k < |s| && s[k].Hole? && s[k].index >= |args| {
        var k :| 0 <= k < |s| && s[k].Hole? && s[k].index >= |args|;
        assert k > 0 ==> s[1..][k - 1] == s[k];
      }
    }
  }

  lemma {:induction false} ConcatAt(parts: seq<Text>, k: nat)
    requires k < |parts|
    ensures Concat(parts) == Concat(parts[..k]) + parts[k] + Concat(parts[k + 1..])
    ensures Concat([]) == []
  {
    if k == 0 {
      assert parts[..0] == [];
    } else {
      ConcatAt(parts[1..], k - 1);
      assert parts[..k][1..] == parts[1..][..k - 1] && parts[1..][k..] == parts[k + 1..];
      Regroup(parts[0], Concat(parts[1..][..k - 1]), parts[k], Concat(parts[k + 1..]));
    }
  }

  /** Entries that are joined come in order, with the separator between any two parts of the list. */
  lemma {:induction false} SeparatedAt(entries: seq<Text>, sep: Text, k: nat)
    requires k <= |entries|
    ensures 0 < k < |entries| ==>
      Separated(entries, sep, true) == Separated(entries[..k], sep, true) + sep + Separated(entries[k..], sep, true)
    ensures Separated([], sep, true) == []
    ensures |entries| == 1 ==> Separated(entries, sep, true) == entries[0]
  {
    if 0 < k < |entries| {
      SeparatedLater(entries, sep, k, true);
      assert Separated(entries[k..], sep, false) == sep + Separated(entries[k..], sep, true) by {
        LaterHasSeparator(entries[k..], sep);
      }
    }
  }

  lemma LaterHasSeparator(entries: seq<Text>, sep: Text)
    requires entries != []
    ensures Separated(entries, sep, false) == sep + Separated(entries, sep, true)
  {
    var rest := Separated(entries[1..], sep, false);
    hide Separated;
    assert [] + entries[0] + rest == entries[0] + rest;
  }

  lemma {:induction false} SeparatedLater(entries: seq<Text>, sep: Text, k: nat, first: bool)
    requires 0 < k <= |entries|
    ensures Separated(entries, sep, first) == Separated(entries[..k], sep, first) + Separated(entries[k..], sep, false)
  {
    var lead := (if first then [] else sep) + entries[0];
    if k == 1 {
      assert entries[..1][1..] == [];
      assert Separated(entries[..1], sep, first) == lead;
    } else {
      SeparatedLater(entries[1..], sep, k - 1, false);
      assert entries[..k][1..] == entries[1..][..k - 1] && entries[1..][k - 1..] == entries[k..];
    }
  }

  // Slot by slot -----------------------------------------------------------------------------------

  /** `t` is the longest beginning of `x` that takes no more than `room` bytes. */
  ghost predicate Cut(t: Text, x: Text, room: int) {
    && t <= x
    && (t == [] || |Encode(t)| <= room)
    && forall j :: |t| < j <= |x| ==> |Encode(x[..j])| > room
  }

  lemma TrimCuts(x: Text, room: int)
    ensures Cut(Trim(x, room), x, room)
  {
    var t := Trim(x, room);
    FirstSegment(x, room);
    EncodeWidth(t);
    if room >= 1 {
      FitPrefixLongest(x, room);
    }
    hide Encode, Width, FitCount, Split;
    forall j | |t| < j <= |x| ensures |Encode(x[..j])| > room {
      EncodeWidth(x[..j]);
    }
  }

  /** An entry that fits its room is not cut. */
  lemma CutNothing(t: Text, x: Text, room: int)
    requires Cut(t, x, room) && |Encode(x)| <= room
    ensures t == x
  {
    hide Encode;
    assert x[..|x|] == x;
    assert |t| == |x|;
  }

  /** The bytes that separators take between `n` entries. */
  ghost function Between(n: nat, sep: Option<Text>): int {
    if sep.None? || n == 0 then 0 else (n - 1) * |Encode(sep.value)|
  }

  /** An even split's share is the greatest that leaves the separators their bytes, or nothing. */
  lemma ShareIsGreatest(n: nat, avail: int, sep: Option<Text>)
    requires n > 0 && (sep.None? ==> avail >= 0)
    ensures
      var share, room := SegmentLength(n, avail, sep), avail - Between(n, sep);
      if room < 0 then share == 0 else share >= 0 && n * share <= room < n * (share + 1)
  {
    if sep.Some? {
      EncodeWidth(sep.value);
    }
    hide Encode, Width;
    var room := avail - Between(n, sep);
    Quotient(room, n);
  }

  lemma Quotient(room: int, n: nat)
    requires n > 0
    ensures room < 0 ==> room / n < 0
    ensures room >= 0 ==> room / n >= 0 && n * (room / n) <= room < n * (room / n + 1)
  {
  }

  /** Entries that are kept: one is, if and only if it still fits behind those kept before it. */
  lemma KeptGreedily(strins: seq<Text>, avail: int, sep: Text, i: nat)
    requires i < |strins| && avail >= 0
    ensures
      var before := KeptEntries(strins[..i], avail, sep, true);
      KeptEntries(strins[..i + 1], avail, sep, true) ==
        if |Encode(Separated(before + [strins[i]], sep, true))| <= avail then before + [strins[i]] else before
    ensures KeptEntries([], avail, sep, true) == []
  {
    hide Encode, Width;
    assert strins[..i + 1] == strins[..i] + [strins[i]];
    KeptOneMore(strins[..i], strins[i], avail, sep, true);
    EncodeWidth(Separated(KeptEntries(strins[..i], avail, sep, true) + [strins[i]], sep, true));
  }

  lemma {:induction false} KeptOneMore(strins: seq<Text>, x: Text, avail: int, sep: Text, first: bool)
    ensures
      var before := KeptEntries(strins, avail, sep, first);
      KeptEntries(strins + [x], avail, sep, first) ==
        if Width(Separated(before + [x], sep, first)) <= avail then before + [x] else before
  {
    hide Encode, Width, Separated;
    var all := strins + [x];
    SeparatedFirst([x], sep, first);
    if strins == [] {
      assert all == [x] && all[1..] == [];
    } else {
      assert all[0] == strins[0] && all[1..] == strins[1..] + [x];
      var need := Width(strins[0]) + if first then 0 else Width(sep);
      if need <= avail {
        KeptOneMore(strins[1..], x, avail - need, sep, false);
        var more := KeptEntries(strins[1..], avail - need, sep, false);
        assert [strins[0]] + more + [x] == [strins[0]] + (more + [x]);
        SeparatedFirst([strins[0]] + (more + [x]), sep, first);
      } else {
        KeptOneMore(strins[1..], x, avail, sep, first);
      }
    }
  }

  lemma SeparatedFirst(entries: seq<Text>, sep: Text, first: bool)
    requires entries != []
    ensures Width(Separated(entries, sep, first)) ==
      Width(entries[0]) + (if first then 0 else Width(sep)) + Width(Separated(entries[1..], sep, false))
    ensures Width(Separated([], sep, false)) == 0
  {
    hide Encode, Width;
    var lead := if first then [] else sep;
    WidthNone();
    EncodeConcat(lead, entries[0]);
    EncodeConcat(lead + entries[0], Separated(entries[1..], sep, false));
  }

  lemma WidthNone()
    ensures Width([]) == 0
  {
  }

  // The modes -----------------------------------------------------------------------------------

  /** The template with nothing in its slots, and the bytes it leaves to them. */
  ghost predicate Leaves(prefixLen: nat, s: Template, n: nat, sep: Option<Text>, avail: int) {
    var blank := Format(s, if sep.None? then seq(n, _ => []) else [[]]);
    blank.Some? && avail == 508 - prefixLen - |Encode(blank.value)|
  }

  /** The template with its slots filled, or with one text that joins them. */
  ghost predicate Makes(r: Outcome, s: Template, slots: seq<Text>, sep: Option<Text>) {
    var text := Format(s, if sep.None? then slots else [Separated(slots, sep.value, true)]);
    text.Some? && r == Line(text.value)
  }

  lemma FillingWorks(s: Template, n: nat, slots: seq<Text>)
    requires Format(s, Blanks(n)).Some? && |slots| == n
    ensures Format(s, slots).Some?
  {
    FormatFailsExactly(s, slots);
    FormatFailsExactly(s, Blanks(n));
  }

  lemma LeavesIs(prefixLen: nat, s: Template, n: nat, sep: Option<Text>, avail: int)
    requires Leaves(prefixLen, s, n, sep, avail)
    ensures Blanked(s, n, sep).Some? && Available(prefixLen, Blanked(s, n, sep).value) == avail
    ensures sep.None? ==> Format(s, Blanks(n)).Some?
    ensures sep.Some? ==> Format(s, Blanks(1)).Some?
  {
    hide Encode, Format;
    assert Blanks(n) == seq(n, _ => []);
    assert Blanks(1) == [[]];
  }

  /** Every entry cut to the same share of room, the greatest that leaves the separators their bytes. */
  ghost predicate EvenCuts(strins: seq<Text>, sep: Option<Text>, avail: int, share: nat, cuts: seq<Text>) {
    var room := avail - Between(|strins|, sep);
    && (if room < 0 then share == 0 else |strins| * share <= room < |strins| * (share + 1))
    && |cuts| == |strins| && forall i :: 0 <= i < |cuts| ==> Cut(cuts[i], strins[i], share)
  }

  lemma EvenSplitMakes(prefixLen: nat, s: Template, strins: seq<Text>, sep: Option<Text>, avail: nat)
    requires strins != [] && Leaves(prefixLen, s, |strins|, sep, avail)
    ensures exists share: nat, cuts: seq<Text> ::
      EvenCuts(strins, sep, avail, share, cuts) && Makes(Assemble(prefixLen, s, strins, EvenSplit, sep), s, cuts, sep)
  {
    hide *;
    LeavesIs(prefixLen, s, |strins|, sep, avail);
    var share := SegmentLength(|strins|, avail, sep);
    var cuts := EvenlyCut(strins, sep, avail);
    EvenJoined(strins, share, sep, cuts);
    EvenIs(prefixLen, s, strins, sep, avail);
    var args := if sep.None? then cuts else [Separated(cuts, sep.value, true)];
    FillingWorks(s, |args|, args);
    MakesIs(Assemble(prefixLen, s, strins, EvenSplit, sep), s, cuts, sep, args);
  }

  lemma EvenlyCut(strins: seq<Text>, sep: Option<Text>, avail: nat) returns (cuts: seq<Text>)
    requires strins != []
    ensures SegmentLength(|strins|, avail, sep) >= 0
    ensures EvenCuts(strins, sep, avail, SegmentLength(|strins|, avail, sep), cuts)
    ensures |cuts| == |strins|
    ensures forall i :: 0 <= i < |cuts| ==> cuts[i] == Trim(strins[i], SegmentLength(|strins|, avail, sep))
  {
    hide Encode, Width, SegmentLength, Trim, Cut;
    ShareIsGreatest(|strins|, avail, sep);
    var share := SegmentLength(|strins|, avail, sep);
    cuts := seq(|strins|, i requires 0 <= i < |strins| => Trim(strins[i], share));
    forall i | 0 <= i < |cuts| ensures Cut(cuts[i], strins[i], share) {
      TrimCuts(strins[i], share);
    }
  }

  lemma EvenIs(prefixLen: nat, s: Template, strins: seq<Text>, sep: Option<Text>, avail: nat)
    requires strins != [] && Blanked(s, |strins|, sep).Some?
    requires Available(prefixLen, Blanked(s, |strins|, sep).value) == avail
    ensures Assemble(prefixLen, s, strins, EvenSplit, sep) == Formatted(Format(
      s, if sep.None? then EvenSlots(strins, SegmentLength(|strins|, avail, sep), sep)
         else [Concat(EvenSlots(strins, SegmentLength(|strins|, avail, sep), sep))]))
  {
    hide Available, Blanked, Format, EvenSlots, SegmentLength, Concat;
  }

  lemma MakesIs(r: Outcome, s: Template, slots: seq<Text>, sep: Option<Text>, args: seq<Text>)
    requires args == if sep.None? then slots else [Separated(slots, sep.value, true)]
    requires Format(s, args).Some? && r == Formatted(Format(s, args))
    ensures Makes(r, s, slots, sep)
  {
    hide Format, Separated;
  }

  lemma {:induction false} EvenJoined(strins: seq<Text>, length: int, sep: Option<Text>, cuts: seq<Text>)
    requires |cuts| == |strins| && forall i :: 0 <= i < |cuts| ==> cuts[i] == Trim(strins[i], length)
    ensures sep.None? ==> EvenSlots(strins, length, sep) == cuts
    ensures sep.Some? ==> Concat(EvenSlots(strins, length, sep)) == Separated(cuts, sep.value, true)
  {
    hide Trim;
    if strins != [] {
      EvenJoined(strins[1..], length, sep, cuts[1..]);
      if sep.Some? {
        var slots := EvenSlots(strins, length, sep);
        assert slots[1..] == EvenSlots(strins[1..], length, sep);
        SlotThenRest(cuts, sep.value, slots[0], Concat(slots[1..]));
      }
    }
  }

  /** The first slot carries the separator that the second entry of the joined text has in front. */
  lemma SlotThenRest(cuts: seq<Text>, sep: Text, slot: Text, rest: Text)
    requires cuts != [] && slot == (if |cuts| == 1 then cuts[0] else cuts[0] + sep)
    requires rest == Separated(cuts[1..], sep, true)
    ensures slot + rest == Separated(cuts, sep, true)
  {
    if |cuts| > 1 {
      LaterHasSeparator(cuts[1..], sep);
    }
    hide Trim;
    assert Separated(cuts, sep, true) == [] + cuts[0] + Separated(cuts[1..], sep, false);
    if |cuts| > 1 {
      assert cuts[0] + sep + rest == cuts[0] + (sep + rest);
    }
  }

  /** So nothing is cut when every entry fits an equal share. */
  lemma EvenSplitUncut(prefixLen: nat, s: Template, strins: seq<Text>, sep: Option<Text>, avail: nat)
    requires strins != [] && Leaves(prefixLen, s, |strins|, sep, avail)
    requires forall i :: 0 <= i < |strins| ==> |strins| * |Encode(strins[i])| <= avail - Between(|strins|, sep)
    ensures Makes(Assemble(prefixLen, s, strins, EvenSplit, sep), s, strins, sep)
  {
    EvenSplitMakes(prefixLen, s, strins, sep, avail);
    var share: nat, cuts: seq<Text> :|
      EvenCuts(strins, sep, avail, share, cuts) && Makes(Assemble(prefixLen, s, strins, EvenSplit, sep), s, cuts, sep);
    hide Encode, Cut, Makes, Leaves, Between;
    var room := avail - Between(|strins|, sep);
    NotNegative(|strins|, |Encode(strins[0])|);
    forall i | 0 <= i < |strins| ensures cuts[i] == strins[i] {
      Smaller(|strins|, |Encode(strins[i])|, room, share);
      CutNothing(cuts[i], strins[i], share);
    }
    assert cuts == strins;
  }

  lemma Smaller(n: nat, size: nat, room: int, share: nat)
    requires n > 0 && n * size <= room < n * (share + 1)
    ensures size <= share
  {
    NotNegative(n, size - share - 1);
    assert n * (size - share - 1) == n * size - n * (share + 1);
  }

  lemma NotNegative(n: nat, x: int)
    ensures x >= 0 ==> n * x >= 0
  {
  }

  /** Entries served in turn, without a separator: each takes of the room what those before it left. */
  ghost predicate InTurn(strins: seq<Text>, avail: int, cuts: seq<Text>) {
    |cuts| == |strins| && forall i :: 0 <= i < |cuts| ==> Cut(cuts[i], strins[i], avail - |Encode(Concat(cuts[..i]))|)
  }

  lemma FirstComeMakes(prefixLen: nat, s: Template, strins: seq<Text>, avail: nat)
    requires Leaves(prefixLen, s, |strins|, None, avail)
    ensures exists cuts ::
      InTurn(strins, avail, cuts) && Makes(Assemble(prefixLen, s, strins, FirstCome, None), s, cuts, None)
  {
    hide *;
    LeavesIs(prefixLen, s, |strins|, None, avail);
    var cuts := FirstComeSlots(strins, avail, None);
    ServedInTurn(strins, avail);
    OtherModesAre(prefixLen, s, strins, None, avail);
    FillingWorks(s, |strins|, cuts);
    MakesIs(Assemble(prefixLen, s, strins, FirstCome, None), s, cuts, None, cuts);
  }

  lemma ServedInTurn(strins: seq<Text>, avail: int)
    ensures InTurn(strins, avail, FirstComeSlots(strins, avail, None))
  {
    hide Encode, Width, Trim, Cut, FirstComeSlots, Concat;
    var cuts := FirstComeSlots(strins, avail, None);
    forall i | 0 <= i < |cuts| ensures Cut(cuts[i], strins[i], avail - |Encode(Concat(cuts[..i]))|) {
      FirstComeExactly(strins, avail, i);
      ConcatWidth(cuts[..i]);
      EncodeWidth(Concat(cuts[..i]));
      TrimCuts(strins[i], avail - Total(cuts[..i]));
    }
  }

  lemma OtherModesAre(prefixLen: nat, s: Template, strins: seq<Text>, sep: Option<Text>, avail: nat)
    requires Blanked(s, |strins|, sep).Some?
    requires Available(prefixLen, Blanked(s, |strins|, sep).value) == avail
    ensures Assemble(prefixLen, s, strins, FirstCome, sep) == Formatted(Format(
      s, if sep.None? then FirstComeSlots(strins, avail, sep) else [Concat(FirstComeSlots(strins, avail, sep))]))
    ensures Assemble(prefixLen, s, strins, DropWhole, sep) == Formatted(Format(
      s, if sep.None? then DropWholeSlots(strins, avail)
         else [Separated(KeptEntries(strins, avail, sep.value, true), sep.value, true)]))
  {
    hide Available, Blanked, Format, FirstComeSlots, DropWholeSlots, KeptEntries, Separated, Concat;
  }

  /** Entries served in turn and joined: one more is served only with room for the separator and two
      bytes, and nothing behind the first one that leaves less. */
  ghost predicate JoinedInTurn(strins: seq<Text>, room: int, sep: Text, cuts: seq<Text>) {
    if strins == [] then cuts == []
    else
      && cuts != [] && Cut(cuts[0], strins[0], room)
      && var left := room - |Encode(cuts[0])| - |Encode(sep)|;
         if |strins| > 1 && left >= 2 then JoinedInTurn(strins[1..], left, sep, cuts[1..]) else |cuts| == 1
  }

  lemma FirstComeJoins(prefixLen: nat, s: Template, strins: seq<Text>, sep: Text, avail: nat)
    requires Leaves(prefixLen, s, |strins|, Some(sep), avail)
    ensures exists cuts ::
      JoinedInTurn(strins, avail, sep, cuts)
      && Makes(Assemble(prefixLen, s, strins, FirstCome, Some(sep)), s, cuts, Some(sep))
  {
    hide *;
    LeavesIs(prefixLen, s, |strins|, Some(sep), avail);
    var cuts := ServedJoined(strins, avail, sep);
    OtherModesAre(prefixLen, s, strins, Some(sep), avail);
    var args := [Separated(cuts, sep, true)];
    FillingWorks(s, 1, args);
    MakesIs(Assemble(prefixLen, s, strins, FirstCome, Some(sep)), s, cuts, Some(sep), args);
  }

  lemma {:induction false} ServedJoined(strins: seq<Text>, avail: int, sep: Text) returns (cuts: seq<Text>)
    ensures JoinedInTurn(strins, avail, sep, cuts)
    ensures Concat(FirstComeSlots(strins, avail, Some(sep))) == Separated(cuts, sep, true)
  {
    hide Trim, Cut, Encode, Width;
    var slots := FirstComeSlots(strins, avail, Some(sep));
    if strins == [] {
      cuts := [];
    } else {
      var cut := Trim(strins[0], avail);
      TrimCuts(strins[0], avail);
      EncodeWidth(cut);
      EncodeWidth(sep);
      var left := avail - Width(cut) - Width(sep);
      if |strins| > 1 && left >= 2 {
        var more := ServedJoined(strins[1..], left, sep);
        cuts := [cut] + more;
        assert cuts[1..] == more && more != [];
        assert slots[0] == cut + sep && slots[1..] == FirstComeSlots(strins[1..], left, Some(sep));
        SlotThenRest(cuts, sep, slots[0], Concat(slots[1..]));
      } else {
        cuts := [cut];
        if |strins| > 1 {
          NothingLeft(strins[1..], sep);
        }
        assert slots[0] == cut;
        assert |strins| > 1 ==> slots[1..] == FirstComeSlots(strins[1..], 0, Some(sep));
        AllEmpty(slots[1..]);
        SeparatedAt(cuts, sep, 0);
      }
    }
  }

  lemma {:induction false} AllEmpty(slots: seq<Text>)
    requires forall i :: 0 <= i < |slots| ==> slots[i] == []
    ensures Concat(slots) == []
  {
    if slots != [] {
      AllEmpty(slots[1..]);
    }
  }

  /** Whole entries, slot by slot: one stays if and only if it fits what those that stayed leave. */
  ghost predicate Whole(strins: seq<Text>, avail: int, slots: seq<Text>) {
    && |slots| == |strins|
    && forall i :: 0 <= i < |slots| ==>
         slots[i] == if |Encode(strins[i])| <= avail - |Encode(Concat(slots[..i]))| then strins[i] else []
  }

  lemma DropWholeMakes(prefixLen: nat, s: Template, strins: seq<Text>, avail: nat)
    requires Leaves(prefixLen, s, |strins|, None, avail)
    ensures exists slots ::
      Whole(strins, avail, slots) && Makes(Assemble(prefixLen, s, strins, DropWhole, None), s, slots, None)
  {
    hide *;
    LeavesIs(prefixLen, s, |strins|, None, avail);
    var slots := DropWholeSlots(strins, avail);
    StayWhole(strins, avail);
    OtherModesAre(prefixLen, s, strins, None, avail);
    FillingWorks(s, |strins|, slots);
    MakesIs(Assemble(prefixLen, s, strins, DropWhole, None), s, slots, None, slots);
  }

  lemma StayWhole(strins: seq<Text>, avail: int)
    ensures Whole(strins, avail, DropWholeSlots(strins, avail))
  {
    hide Encode, Width, DropWholeSlots, Concat;
    var slots := DropWholeSlots(strins, avail);
    forall i | 0 <= i < |slots|
      ensures slots[i] == if |Encode(strins[i])| <= avail - |Encode(Concat(slots[..i]))| then strins[i] else []
    {
      DropWholeExactly(strins, avail, i);
      ConcatWidth(slots[..i]);
      EncodeWidth(Concat(slots[..i]));
      EncodeWidth(strins[i]);
    }
  }

  /** Joined, the entries are those kept greedily. */
  lemma DropWholeJoins(prefixLen: nat, s: Template, strins: seq<Text>, sep: Text, avail: nat)
    requires Leaves(prefixLen, s, |strins|, Some(sep), avail)
    ensures
      Makes(Assemble(prefixLen, s, strins, DropWhole, Some(sep)), s, KeptEntries(strins, avail, sep, true), Some(sep))
  {
    hide *;
    LeavesIs(prefixLen, s, |strins|, Some(sep), avail);
    OtherModesAre(prefixLen, s, strins, Some(sep), avail);
    var kept := KeptEntries(strins, avail, sep, true);
    var args := [Separated(kept, sep, true)];
    FillingWorks(s, 1, args);
    MakesIs(Assemble(prefixLen, s, strins, DropWhole, Some(sep)), s, kept, Some(sep), args);
  }

  /** A template that is too long by itself goes out empty and cut: to its number of characters less
      the bytes that are missing. */
  lemma OverlongIsCut(prefixLen: nat, s: Template, strins: seq<Text>, mode: Mode, sep: Option<Text>, avail: int)
    requires avail < 0 && Leaves(prefixLen, s, |strins|, sep, avail)
    ensures
      var whole := Format(s, seq(|strins|, _ => []));
      var r := Assemble(prefixLen, s, strins, mode, sep);
      if whole.None? then r == Raised else r.Line? && Cut(r.text, whole.value, |whole.value| + avail)
  {
    LeavesIs(prefixLen, s, |strins|, sep, avail);
    hide Encode, Format, Cut, Trim;
    assert Blanks(|strins|) == seq(|strins|, _ => []);
    var whole := Format(s, Blanks(|strins|));
    if whole.Some? {
      TrimCuts(whole.value, |whole.value| + avail);
    }
  }

  /** A field has no argument. */
  ghost predicate Unfilled(s: Template, count: nat) {
    exists k :: 0 <= k < |s| && s[k].Hole? && s[k].index >= count
  }

  /** Assembling raises exactly when a field has no argument, or nothing is to be shared out. */
  lemma RaisesExactly(prefixLen: nat, s: Template, strins: seq<Text>, mode: Mode, sep: Option<Text>, avail: int)
    ensures Unfilled(s, if sep.None? then |strins| else 1) ==> Assemble(prefixLen, s, strins, mode, sep).Raised?
    ensures Leaves(prefixLen, s, |strins|, sep, avail) ==> (
      Assemble(prefixLen, s, strins, mode, sep).Raised? <==>
        if avail < 0 then Unfilled(s, |strins|) else mode == EvenSplit && strins == [])
  {
    var args := if sep.None? then Blanks(|strins|) else Blanks(1);
    FormatFailsExactly(s, args);
    FormatFailsExactly(s, Blanks(|strins|));
    assert sep.Some? ==> args == [[]];
    assert Blanked(s, |strins|, sep) == Format(s, args);
    hide Encode, Format;
    if Leaves(prefixLen, s, |strins|, sep, avail) {
      LeavesIs(prefixLen, s, |strins|, sep, avail);
      if avail >= 0 && !(mode == EvenSplit && strins == []) {
        RaisesNot(prefixLen, s, strins, mode, sep, avail);
      }
    }
  }

  lemma RaisesNot(prefixLen: nat, s: Template, strins: seq<Text>, mode: Mode, sep: Option<Text>, avail: nat)
    requires Leaves(prefixLen, s, |strins|, sep, avail) && !(mode == EvenSplit && strins == [])
    ensures Assemble(prefixLen, s, strins, mode, sep).Line?
  {
    hide *;
    if mode == EvenSplit {
      EvenSplitMakes(prefixLen, s, strins, sep, avail);
      var cuts :| Makes(Assemble(prefixLen, s, strins, mode, sep), s, cuts, sep);
      MakesLine(Assemble(prefixLen, s, strins, mode, sep), s, cuts, sep);
    } else if mode == FirstCome && sep.None? {
      FirstComeMakes(prefixLen, s, strins, avail);
      var cuts :| Makes(Assemble(prefixLen, s, strins, mode, sep), s, cuts, sep);
      MakesLine(Assemble(prefixLen, s, strins, mode, sep), s, cuts, sep);
    } else if mode == FirstCome {
      FirstComeJoins(prefixLen, s, strins, sep.value, avail);
      var cuts :| Makes(Assemble(prefixLen, s, strins, mode, sep), s, cuts, sep);
      MakesLine(Assemble(prefixLen, s, strins, mode, sep), s, cuts, sep);
    } else if sep.None? {
      DropWholeMakes(prefixLen, s, strins, avail);
      var slots :| Makes(Assemble(prefixLen, s, strins, mode, sep), s, slots, sep);
      MakesLine(Assemble(prefixLen, s, strins, mode, sep), s, slots, sep);
    } else {
      DropWholeJoins(prefixLen, s, strins, sep.value, avail);
      MakesLine(Assemble(prefixLen, s, strins, mode, sep), s, KeptEntries(strins, avail, sep.value, true), sep);
    }
  }

  lemma MakesLine(r: Outcome, s: Template, slots: seq<Text>, sep: Option<Text>)
    requires Makes(r, s, slots, sep)
    ensures r.Line?
  {
    hide Format, Separated;
  }

  // Plain messages --------------------------------------------------------------------------------

  /** A message that is not split is cut to what the prefix and the head leave of 508 bytes. */
  lemma PlainMessageIs(prefixLen: nat, head: Text, message: Text)
    ensures exists t ::
      Cut(t, message, 508 - prefixLen - |Encode(head)|) && BuildMsg(prefixLen, head, message) == head + t
    ensures CheckSendMsg(prefixLen, head, message) <==> |Encode(head + message)| <= 508 - prefixLen
  {
    EncodeEmpty();
    hide Encode, Trim, Cut;
    TrimCuts(message, Available(prefixLen, head));
    var t := Trim(message, Available(prefixLen, head));
    assert Cut(t, message, 508 - prefixLen - |Encode(head)|) && BuildMsg(prefixLen, head, message) == head + t;
  }

  /** A split message, line by line: the segments of the next one follow, each behind the head, as
      many as the lines before it leave of the four. */
  lemma SplitMessageIs(prefixLen: nat, head: Text, lines: seq<Text>, k: nat)
    requires k < |lines|
    ensures
      var avail := 508 - prefixLen - |Encode(head)|;
      var before := Headed(head, SplitLines(lines[..k], avail, 4));
      var after := Headed(head, SplitLines(lines[..k + 1], avail, 4));
      var segments := Split(lines[k], avail, 4 - |before|);
      if |before| >= 4 then after == before
      else after == before + seq(|segments|, i requires 0 <= i < |segments| => head + segments[i].text)
    ensures Headed(head, SplitLines([], 508 - prefixLen - |Encode(head)|, 4)) == []
  {
    hide Encode, Split;
    var avail := 508 - prefixLen - |Encode(head)|;
    assert lines[..k + 1] == lines[..k] + [lines[k]];
    LinesOneMore(lines[..k], lines[k], avail, 4);
  }

  lemma {:induction false} LinesOneMore(lines: seq<Text>, line: Text, avail: int, room: nat)
    ensures
      var before := SplitLines(lines, avail, room);
      SplitLines(lines + [line], avail, room) ==
        before + if |before| < room then SegmentTexts(Split(line, avail, room - |before|)) else []
    decreases |lines|
  {
    hide Split, SegmentTexts;
    if room > 0 {
      var all := lines + [line];
      if lines == [] {
        assert all[1..] == [];
        SplitCount(line, avail, room);
        assert SegmentTexts(Split(line, avail, room)) + [] == SegmentTexts(Split(line, avail, room));
      } else {
        assert all[0] == lines[0] && all[1..] == lines[1..] + [line];
        var texts := SegmentTexts(Split(lines[0], avail, room));
        SplitCount(lines[0], avail, room);
        LinesOneMore(lines[1..], line, avail, room - |texts|);
      }
    }
  }
}
