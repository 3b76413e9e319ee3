/** Who a comma-separated list names, when names and groups may contain commas themselves. */
module NameSegments {
  import opened Common

  /** The answers of the users module: the user a text names, and the members of the group it
      names. */
  datatype Directory = Directory(username: string -> Option<string>, group: string -> seq<string>)

  /** A user, and the name they were called by. */
  datatype Found = Found(user: string, called: string)

  // Splitting and joining ----------------------------------------------------------------

  function Split(s: string): (parts: seq<string>)
    ensures parts != []
  {
    if s == [] then [[]]
    else
      var rest := Split(s[1..]);
      if s[0] == ',' then [[]] + rest else [[s[0]] + rest[0]] + rest[1..]
  }

  function JoinCommas(parts: seq<string>): string {
    if parts == [] then []
    else if |parts| == 1 then parts[0]
    else parts[0] + [','] + JoinCommas(parts[1..])
  }

  lemma {:induction false} JoinSplit(s: string)
    ensures JoinCommas(Split(s)) == s
  {
    if s != [] {
      JoinSplit(s[1..]);
      var rest := Split(s[1..]);
      if s[0] == ',' {
        assert ([[]] + rest)[1..] == rest;
        assert s == [] + [','] + s[1..];
      } else {
        var parts := [[s[0]] + rest[0]] + rest[1..];
        assert parts[1..] == rest[1..];
        assert s == [s[0]] + s[1..];
        if |rest| > 1 {
          assert [s[0]] + (rest[0] + [','] + JoinCommas(rest[1..])) == [s[0]] + rest[0] + [','] + JoinCommas(rest[1..]);
        }
      }
    }
  }

  /** No part has a comma in it, so the parts are the only such list that joins to the text. */
  lemma {:induction false} SplitPlain(s: string)
    ensures forall part :: part in Split(s) ==> ',' !in part
  {
    if s != [] {
      SplitPlain(s[1..]);
      var rest := Split(s[1..]);
      assert rest[0] in rest && forall part :: part in rest[1..] ==> part in rest;
    }
  }

  // Segmentation ------------------------------------------------------------------------

  /** A user by that name, or else the members of a group by that name. */
  function Resolve(d: Directory, text: string): seq<Found> {
    var u := d.username(text);
    if u.Some? then [Found(u.value, text)]
    else
      var members := d.group(text);
      seq(|members|, i requires 0 <= i < |members| => Found(members[i], members[i]))
  }

  predicate Resolves(d: Directory, parts: seq<string>) {
    Resolve(d, JoinCommas(parts)) != []
  }

  datatype Segment = Segment(parts: seq<string>, known: bool)

  /** The number of parts, more than `n`, in the shortest run that resolves; 0 if there is none. */
  function ShortestFrom(d: Directory, parts: seq<string>, n: nat): (m: nat)
    requires n <= |parts|
    ensures m == 0 || n < m <= |parts|
    decreases |parts| - n
  {
    if n == |parts| then 0
    else if Resolves(d, parts[..n + 1]) then n + 1
    else ShortestFrom(d, parts, n + 1)
  }

  /** Leftmost first, each segment the shortest run that resolves, or one unknown part. */
  function Segments(d: Directory, parts: seq<string>): seq<Segment>
    decreases |parts|
  {
    if parts == [] then []
    else
      var n := ShortestFrom(d, parts, 0);
      if n == 0 then [Segment(parts[..1], false)] + Segments(d, parts[1..])
      else [Segment(parts[..n], true)] + Segments(d, parts[n..])
  }

  /** What a segmentation should be, said without an algorithm. */
  ghost predicate IsSegmentation(d: Directory, segments: seq<Segment>, parts: seq<string>)
    decreases |segments|
  {
    if segments == [] then parts == []
    else
      var Segment(mine, known) := segments[0];
      && mine != [] && mine <= parts
      && (if known then Resolves(d, mine) && (forall k :: 0 < k < |mine| ==> !Resolves(d, mine[..k]))
          else |mine| == 1 && (forall k :: 0 < k <= |parts| ==> !Resolves(d, parts[..k])))
      && IsSegmentation(d, segments[1..], parts[|mine|..])
  }

  function Pieces(segments: seq<Segment>): seq<string> {
    if segments == [] then [] else segments[0].parts + Pieces(segments[1..])
  }

  lemma {:induction false} ShortestIsShortest(d: Directory, parts: seq<string>, n: nat)
    requires n <= |parts|
    ensures
      var m := ShortestFrom(d, parts, n);
      if m == 0 then forall k :: n < k <= |parts| ==> !Resolves(d, parts[..k])
      else Resolves(d, parts[..m]) && forall k :: n < k < m ==> !Resolves(d, parts[..k])
    decreases |parts| - n
  {
    hide Resolves;
    if n < |parts| && !Resolves(d, parts[..n + 1]) {
      ShortestIsShortest(d, parts, n + 1);
    }
  }

  /** The segmentation is leftmost-shortest, and the only one that is. */
  lemma {:induction false} SegmentsExactly(d: Directory, parts: seq<string>, segments: seq<Segment>)
    ensures IsSegmentation(d, segments, parts) <==> segments == Segments(d, parts)
    decreases |parts|
  {
    hide Resolves, ShortestFrom;
    if parts != [] {
      ShortestIsShortest(d, parts, 0);
      var n := ShortestFrom(d, parts, 0);
      var first := if n == 0 then Segment(parts[..1], false) else Segment(parts[..n], true);
      var rest := parts[|first.parts|..];
      assert Segments(d, parts) == [first] + Segments(d, rest);
      assert forall k :: 0 < k < |first.parts| ==> first.parts[..k] == parts[..k];
      if segments != [] {
        SegmentsExactly(d, rest, segments[1..]);
        assert segments == [segments[0]] + segments[1..];
        if segments[0] != first && IsSegmentation(d, segments, parts) {
          SameFirst(d, parts, segments[0], n);
        }
      }
    }
  }

  /** The pieces are the parts, each once and in order. */
  lemma {:induction false} PiecesRejoin(d: Directory, parts: seq<string>)
    ensures Pieces(Segments(d, parts)) == parts
    decreases |parts|
  {
    hide ShortestFrom;
    if parts != [] {
      var n := ShortestFrom(d, parts, 0);
      var m := if n == 0 then 1 else n;
      PiecesRejoin(d, parts[m..]);
      assert parts == parts[..m] + parts[m..];
    }
  }

  /** Joined by commas again, the pieces are the text that was asked about. */
  lemma TextRejoined(d: Directory, s: string)
    ensures JoinCommas(Pieces(Segments(d, Split(s)))) == s
  {
    PiecesRejoin(d, Split(s));
    JoinSplit(s);
  }

  lemma SameFirst(d: Directory, parts: seq<string>, s: Segment, n: nat)
    requires parts != [] && s.parts != [] && s.parts <= parts && n <= |parts|
    requires if s.known then Resolves(d, s.parts) && (forall k :: 0 < k < |s.parts| ==> !Resolves(d, s.parts[..k]))
             else |s.parts| == 1 && (forall k :: 0 < k <= |parts| ==> !Resolves(d, parts[..k]))
    requires if n == 0 then forall k :: 0 < k <= |parts| ==> !Resolves(d, parts[..k])
             else Resolves(d, parts[..n]) && forall k :: 0 < k < n ==> !Resolves(d, parts[..k])
    ensures s == if n == 0 then Segment(parts[..1], false) else Segment(parts[..n], true)
  {
    hide Resolves;
    var m := |s.parts|;
    assert s.parts == parts[..m];
    if s.known {
      assert Resolves(d, parts[..m]);
      assert forall k :: 0 < k < m ==> s.parts[..k] == parts[..k];
    }
  }

  // What is collected --------------------------------------------------------------------

  function Everyone(d: Directory, segments: seq<Segment>): seq<Found> {
    if segments == [] then []
    else
      var last := segments[|segments| - 1];
      Everyone(d, segments[..|segments| - 1]) + if last.known then Resolve(d, JoinCommas(last.parts)) else []
  }

  /** The unknown parts, without the empty ones. */
  function Unknowns(segments: seq<Segment>): seq<string> {
    if segments == [] then []
    else
      var last := segments[|segments| - 1];
      Unknowns(segments[..|segments| - 1])
      + if !last.known && last.parts != [] && last.parts[0] != [] then [last.parts[0]] else []
  }

  /** Without the caller, if that is to be skipped. */
  function Others(found: seq<Found>, nick: string, skipself: bool): seq<Found> {
    if found == [] then []
    else
      var last := found[|found| - 1];
      Others(found[..|found| - 1], nick, skipself) + if skipself && last.user == nick then [] else [last]
  }

  predicate Names(found: seq<Found>, user: string) {
    exists i :: 0 <= i < |found| && found[i].user == user
  }

  predicate Repeats(found: seq<Found>) {
    exists i, j :: 0 <= i < j < |found| && found[i].user == found[j].user
  }

  /** Each user's first mention. */
  function Firsts(found: seq<Found>): seq<Found> {
    if found == [] then []
    else
      var before, last := found[..|found| - 1], found[|found| - 1];
      Firsts(before) + if Names(before, last.user) then [] else [last]
  }

  lemma NamesAppend(found: seq<Found>, f: Found, user: string)
    ensures Names(found + [f], user) <==> Names(found, user) || f.user == user
  {
    var more := found + [f];
    if Names(found, user) {
      var i :| 0 <= i < |found| && found[i].user == user;
      assert more[i].user == user;
    }
    if f.user == user {
      assert more[|found|].user == user;
    }
  }

  lemma RepeatsAppend(found: seq<Found>, f: Found)
    ensures Repeats(found + [f]) <==> Repeats(found) || Names(found, f.user)
  {
    var more := found + [f];
    if Repeats(found) {
      var i, j :| 0 <= i < j < |found| && found[i].user == found[j].user;
      assert more[i].user == more[j].user;
    }
    if Names(found, f.user) {
      var i :| 0 <= i < |found| && found[i].user == f.user;
      assert more[i].user == more[|found|].user;
    }
  }

  lemma FirstsAppend(found: seq<Found>, f: Found)
    ensures Firsts(found + [f]) == Firsts(found) + if Names(found, f.user) then [] else [f]
  {
    hide Names;
    assert (found + [f])[..|found|] == found;
  }

  /** The users listed are pairwise distinct, and they are those found. */
  lemma {:induction false} FirstsDistinct(found: seq<Found>)
    ensures !Repeats(Firsts(found))
    ensures forall u :: Names(Firsts(found), u) <==> Names(found, u)
  {
    if found != [] {
      hide Names, Repeats, Firsts;
      var before, last := found[..|found| - 1], found[|found| - 1];
      FirstsDistinct(before);
      assert found == before + [last];
      FirstsAppend(before, last);
      assert Firsts(before) + [] == Firsts(before);
      RepeatsAppend(Firsts(before), last);
      forall u ensures Names(Firsts(found), u) <==> Names(found, u) {
        NamesAppend(before, last, u);
        NamesAppend(Firsts(before), last, u);
      }
    }
  }

  /** Each is listed as first called. */
  lemma {:induction false} FirstsAreFirst(found: seq<Found>, f: Found)
    requires f in Firsts(found)
    ensures exists i :: 0 <= i < |found| && found[i] == f && !Names(found[..i], f.user)
  {
    hide Names;
    var before, last := found[..|found| - 1], found[|found| - 1];
    if f in Firsts(before) {
      FirstsAreFirst(before, f);
      var i :| 0 <= i < |before| && before[i] == f && !Names(before[..i], f.user);
      assert found[..i] == before[..i];
      assert found[i] == f;
    } else {
      assert found[|before|] == f && found[..|before|] == before;
    }
  }

  /** Nobody is left out exactly if nobody repeats. */
  lemma {:induction false} FirstsAllExactly(found: seq<Found>)
    ensures |Firsts(found)| <= |found|
    ensures |Firsts(found)| == |found| <==> !Repeats(found)
  {
    if found != [] {
      hide Names, Repeats;
      var before, last := found[..|found| - 1], found[|found| - 1];
      FirstsAllExactly(before);
      assert found == before + [last];
      RepeatsAppend(before, last);
    }
  }

  // Collecting --------------------------------------------------------------------------

  /** The lists and flags say what has been found so far. */
  ghost predicate Tallied(found: seq<Found>, nick: string, skipself: bool,
                          users: seq<Found>, uset: set<string>, dupes: bool, hasself: bool) {
    var others := Others(found, nick, skipself);
    && users == Firsts(others)
    && (forall u :: u in uset <==> Names(others, u))
    && dupes == Repeats(others)
    && hasself == (skipself && Names(found, nick))
  }

  lemma OthersAppend(found: seq<Found>, f: Found, nick: string, skipself: bool)
    ensures Others(found + [f], nick, skipself) ==
      Others(found, nick, skipself) + if skipself && f.user == nick then [] else [f]
  {
    assert (found + [f])[..|found|] == found;
  }

  lemma TallyOne(found: seq<Found>, f: Found, nick: string, skipself: bool,
                 users: seq<Found>, uset: set<string>, dupes: bool, hasself: bool)
    requires Tallied(found, nick, skipself, users, uset, dupes, hasself)
    ensures
      if skipself && f.user == nick then Tallied(found + [f], nick, skipself, users, uset, dupes, true)
      else if f.user in uset then Tallied(found + [f], nick, skipself, users, uset, true, hasself)
      else Tallied(found + [f], nick, skipself, users + [f], uset + {f.user}, dupes, hasself)
  {
    hide Names, Repeats, Firsts, Others;
    var others := Others(found, nick, skipself);
    OthersAppend(found, f, nick, skipself);
    NamesAppend(found, f, nick);
    if skipself && f.user == nick {
      assert others + [] == others;
    } else {
      FirstsAppend(others, f);
      assert users + [] == users;
      RepeatsAppend(others, f);
      forall u ensures Names(others + [f], u) <==> Names(others, u) || f.user == u {
        NamesAppend(others, f, u);
      }
    }
  }

  method Collect(more: seq<Found>, nick: string, skipself: bool,
                 users: seq<Found>, uset: set<string>, dupes: bool, hasself: bool, ghost found: seq<Found>)
    returns (users': seq<Found>, uset': set<string>, dupes': bool, hasself': bool)
    requires Tallied(found, nick, skipself, users, uset, dupes, hasself)
    ensures Tallied(found + more, nick, skipself, users', uset', dupes', hasself')
  {
    hide Tallied;
    users', uset', dupes', hasself' := users, uset, dupes, hasself;
    assert found + more[..0] == found;
    for i := 0 to |more|
      invariant Tallied(found + more[..i], nick, skipself, users', uset', dupes', hasself')
    {
      var f := more[i];
      TallyOne(found + more[..i], f, nick, skipself, users', uset', dupes', hasself');
      assert found + more[..i] + [f] == found + more[..i + 1];
      if skipself && f.user == nick {
        hasself' := true;
      } else if f.user in uset' {
        dupes' := true;
      } else {
        users', uset' := users' + [f], uset' + {f.user};
      }
    }
    assert more[..|more|] == more;
  }

  // The deque -----------------------------------------------------------------------------

  function Reverse<T>(xs: seq<T>): (r: seq<T>)
    ensures |r| == |xs|
  {
    if xs == [] then [] else Reverse(xs[1..]) + [xs[0]]
  }

  /** `extendleft` pushes one at a time. */
  function ExtendLeft<T>(deque: seq<T>, xs: seq<T>): seq<T>
    decreases |xs|
  {
    if xs == [] then deque else ExtendLeft([xs[0]] + deque, xs[1..])
  }

  lemma {:induction false} ExtendLeftAppend<T>(deque: seq<T>, xs: seq<T>, x: T)
    ensures ExtendLeft(deque, xs + [x]) == [x] + ExtendLeft(deque, xs)
    decreases |xs|
  {
    if xs != [] {
      ExtendLeftAppend([xs[0]] + deque, xs[1..], x);
      assert (xs + [x])[1..] == xs[1..] + [x];
    }
  }

  /** Pushing the reversed parts back to the left restores their order. */
  lemma {:induction false} PushBack<T>(deque: seq<T>, xs: seq<T>)
    ensures ExtendLeft(deque, Reverse(xs)) == xs + deque
  {
    if xs != [] {
      ExtendLeftAppend(deque, Reverse(xs[1..]), xs[0]);
      PushBack(deque, xs[1..]);
      assert xs + deque == [xs[0]] + (xs[1..] + deque);
    } else {
      assert xs + deque == deque;
    }
  }

  lemma FirstSegment(d: Directory, targets: seq<string>, n: nat)
    requires 0 < n <= |targets| && ShortestFrom(d, targets, 0) == ShortestFrom(d, targets, n - 1)
    ensures Resolves(d, targets[..n]) ==>
      Segments(d, targets) == [Segment(targets[..n], true)] + Segments(d, targets[n..])
    ensures n == |targets| && !Resolves(d, targets[..n]) ==>
      Segments(d, targets) == [Segment(targets[..1], false)] + Segments(d, targets[1..])
  {
    hide Resolves;
  }

  /** One segment off the front of the deque, as the code takes it. */
  method TakeSegment(d: Directory, targets: seq<string>)
    returns (segment: Segment, found: seq<Found>, rest: seq<string>)
    requires targets != []
    ensures Segments(d, targets) == [segment] + Segments(d, rest) && |rest| < |targets|
    ensures segment.known ==> found == Resolve(d, JoinCommas(segment.parts)) != []
    ensures !segment.known ==> found == [] && segment.parts == targets[..1]
  {
    hide Resolve, JoinCommas, Segments;
    var candidate := [targets[0]];
    rest := targets[1..];
    found := Resolve(d, JoinCommas(candidate));
    while found == [] && rest != []
      invariant candidate != [] && candidate + rest == targets
      invariant found == Resolve(d, JoinCommas(candidate))
      invariant ShortestFrom(d, targets, 0) == ShortestFrom(d, targets, |candidate| - 1)
      decreases |rest|
    {
      assert candidate == targets[..|candidate|];
      candidate, rest := candidate + [rest[0]], rest[1..];
      found := Resolve(d, JoinCommas(candidate));
    }
    assert candidate == targets[..|candidate|] && rest == targets[|candidate|..];
    FirstSegment(d, targets, |candidate|);
    assert found != [] <==> Resolves(d, targets[..|candidate|]);
    if found != [] {
      segment := Segment(candidate, true);
    } else {
      segment := Segment(candidate[..1], false);
      PushBack([], candidate[1..]);
      rest := ExtendLeft(rest, Reverse(candidate[1..]));
      assert candidate[1..] + [] == targets[1..];
      assert candidate[..1] == targets[..1];
    }
  }

  lemma DoneMore(all: seq<Segment>, before: seq<Segment>, segment: Segment, more: seq<Segment>)
    requires all == before + ([segment] + more)
    ensures all == before + [segment] + more
  {
  }

  lemma EveryoneAppend(d: Directory, done: seq<Segment>, s: Segment)
    ensures Everyone(d, done + [s]) == Everyone(d, done) + if s.known then Resolve(d, JoinCommas(s.parts)) else []
    ensures Unknowns(done + [s]) ==
      Unknowns(done) + if !s.known && s.parts != [] && s.parts[0] != [] then [s.parts[0]] else []
  {
    hide Resolve, JoinCommas;
    assert (done + [s])[..|done|] == done;
  }

  lemma NothingYet(d: Directory, nick: string, skipself: bool)
    ensures Tallied([], nick, skipself, [], {}, false, false)
    ensures Everyone(d, []) == [] && Unknowns([]) == [] && Segments(d, []) == []
  {
  }

  lemma WhatIsTallied(found: seq<Found>, nick: string, skipself: bool,
                      users: seq<Found>, uset: set<string>, dupes: bool, hasself: bool)
    requires Tallied(found, nick, skipself, users, uset, dupes, hasself)
    ensures users == Firsts(Others(found, nick, skipself)) && dupes == Repeats(Others(found, nick, skipself))
    ensures hasself == (skipself && Names(found, nick))
  {
  }

  /** The users, in order of first mention; the unknown parts; whether a user repeats; and whether
      the caller, who is skipped, was named. */
  method GenerateUsers(d: Directory, s: string, nick: string, skipself: bool)
    returns (users: seq<Found>, unknown: seq<string>, dupes: bool, hasself: bool)
    ensures
      var segments := Segments(d, Split(s));
      var found := Everyone(d, segments);
      var others := Others(found, nick, skipself);
      && users == Firsts(others)
      && unknown == Unknowns(segments)
      && dupes == Repeats(others)
      && hasself == (skipself && Names(found, nick))
  {
    NothingYet(d, nick, skipself);
    hide Tallied, Segments, Others, Firsts, Names, Repeats, Split, JoinCommas, Resolve, Everyone, Unknowns;
    var targets := Split(s);
    var uset: set<string> := {};
    users, unknown, dupes, hasself := [], [], false, false;
    ghost var done: seq<Segment> := [];
    assert [] + Segments(d, targets) == Segments(d, targets);
    while targets != []
      invariant Segments(d, Split(s)) == done + Segments(d, targets)
      invariant Tallied(Everyone(d, done), nick, skipself, users, uset, dupes, hasself)
      invariant unknown == Unknowns(done)
      decreases |targets|
    {
      var segment, found, rest := TakeSegment(d, targets);
      ghost var before := done;
      done := done + [segment];
      EveryoneAppend(d, before, segment);
      DoneMore(Segments(d, Split(s)), before, segment, Segments(d, rest));
      if segment.known {
        users, uset, dupes, hasself := Collect(found, nick, skipself, users, uset, dupes, hasself, Everyone(d, before));
      } else {
        assert Everyone(d, before) + [] == Everyone(d, before);
        if segment.parts[0] != [] {
          unknown := unknown + [segment.parts[0]];
        }
      }
      targets := rest;
    }
    assert done + [] == done;
    WhatIsTallied(Everyone(d, done), nick, skipself, users, uset, dupes, hasself);
  }

  // Who is returned, said by place ------------------------------------------------------------

  /** `ys` are the elements of `xs` at the marked places, in order; `idx` says where they are. */
  ghost predicate Picks<T>(idx: seq<nat>, xs: seq<T>, ys: seq<T>, marks: seq<bool>) {
    && |idx| == |ys| && |marks| == |xs|
    && (forall k :: 0 <= k < |idx| ==> idx[k] < |xs| && ys[k] == xs[idx[k]])
    && (forall j, k :: 0 <= j < k < |idx| ==> idx[j] < idx[k])
    && forall i: nat :: i < |marks| ==> (marks[i] <==> i in idx)
  }

  lemma PickMore<T>(idx: seq<nat>, xs: seq<T>, ys: seq<T>, marks: seq<bool>, x: T, mark: bool)
    requires Picks(idx, xs, ys, marks)
    ensures Picks(if mark then idx + [|xs|] else idx, xs + [x], if mark then ys + [x] else ys, marks + [mark])
  {
    assert |xs| !in idx;
  }

  ghost predicate Skipped(f: Found, nick: string, skipself: bool) {
    skipself && f.user == nick
  }

  ghost function Users(found: seq<Found>): set<string> {
    set f | f in found :: f.user
  }

  /** The places at which a user who is not skipped is called for the first time. */
  ghost function FirstCalls(found: seq<Found>, nick: string, skipself: bool): seq<bool> {
    seq(|found|, i requires 0 <= i < |found| =>
      !Skipped(found[i], nick, skipself) && found[i].user !in Users(found[..i]))
  }

  lemma FirstCallsLast(before: seq<Found>, last: Found, nick: string, skipself: bool)
    ensures FirstCalls(before + [last], nick, skipself) ==
      FirstCalls(before, nick, skipself) + [!Skipped(last, nick, skipself) && !Names(before, last.user)]
  {
    var n, found := |before|, before + [last];
    assert forall i :: 0 <= i <= n ==> found[..i] == before[..i];
    assert before[..n] == before;
    assert last.user in Users(before) <==> Names(before, last.user) by {
      if last.user in Users(before) {
        var f :| f in before && f.user == last.user;
        var i :| 0 <= i < n && before[i] == f;
      }
    }
  }

  /** The users returned are those found at these places. */
  lemma {:induction false} UsersExactly(found: seq<Found>, nick: string, skipself: bool)
    ensures exists idx: seq<nat> ::
      Picks(idx, found, Firsts(Others(found, nick, skipself)), FirstCalls(found, nick, skipself))
  {
    hide *;
    if found == [] {
      NoUsers(found, nick, skipself);
    } else {
      var before, last := found[..|found| - 1], found[|found| - 1];
      assert found == before + [last];
      UsersExactly(before, nick, skipself);
      var users := Firsts(Others(before, nick, skipself));
      var idx: seq<nat> :| Picks(idx, before, users, FirstCalls(before, nick, skipself));
      var mark := !Skipped(last, nick, skipself) && !Names(before, last.user);
      PickMore(idx, before, users, FirstCalls(before, nick, skipself), last, mark);
      FirstCallsLast(before, last, nick, skipself);
      UsersLast(before, last, nick, skipself);
    }
  }

  lemma NoUsers(found: seq<Found>, nick: string, skipself: bool)
    requires found == []
    ensures Picks([], found, Firsts(Others(found, nick, skipself)), FirstCalls(found, nick, skipself))
  {
  }

  lemma UsersLast(before: seq<Found>, last: Found, nick: string, skipself: bool)
    ensures
      var users := Firsts(Others(before, nick, skipself));
      Firsts(Others(before + [last], nick, skipself)) ==
        if !Skipped(last, nick, skipself) && !Names(before, last.user) then users + [last] else users
  {
    OthersAppend(before, last, nick, skipself);
    FirstsAppend(Others(before, nick, skipself), last);
    OthersName(before, nick, skipself, last.user);
    hide Firsts, Others, Names;
    assert Others(before, nick, skipself) + [] == Others(before, nick, skipself);
    assert Firsts(Others(before, nick, skipself)) + [] == Firsts(Others(before, nick, skipself));
  }

  /** Skipping takes away nobody but the one skipped. */
  lemma {:induction false} OthersName(found: seq<Found>, nick: string, skipself: bool, user: string)
    ensures Names(Others(found, nick, skipself), user) <==> Names(found, user) && !(skipself && user == nick)
  {
    if found != [] {
      var before, last := found[..|found| - 1], found[|found| - 1];
      assert found == before + [last];
      OthersName(before, nick, skipself, user);
      OthersAppend(before, last, nick, skipself);
      hide Names, Others;
      NamesAppend(before, last, user);
      NamesAppend(Others(before, nick, skipself), last, user);
      assert Others(before, nick, skipself) + [] == Others(before, nick, skipself);
    }
  }

  /** A duplicate is reported exactly if two places call the same user, who is not skipped. */
  lemma {:induction false} DupesExactly(found: seq<Found>, nick: string, skipself: bool)
    ensures Repeats(Others(found, nick, skipself)) <==>
      exists i, j :: 0 <= i < j < |found| && found[i].user == found[j].user && !Skipped(found[i], nick, skipself)
  {
    if found != [] {
      var n := |found| - 1;
      var before, last := found[..n], found[n];
      assert found == before + [last];
      DupesExactly(before, nick, skipself);
      OthersAppend(before, last, nick, skipself);
      OthersName(before, nick, skipself, last.user);
      RepeatsAppend(Others(before, nick, skipself), last);
      hide Repeats, Others;
      assert Others(before, nick, skipself) + [] == Others(before, nick, skipself);
      if i, j :| 0 <= i < j < |before| && before[i].user == before[j].user && !Skipped(before[i], nick, skipself) {
        assert found[i].user == found[j].user;
      }
      if i :| 0 <= i < n && before[i].user == last.user && !Skipped(last, nick, skipself) {
        assert found[i].user == found[n].user;
      }
    }
  }

  /** What was found, segment by segment: a known one adds the user that its text names, called by that
      text, or else the members of the group that it names, each called by their own name. */
  lemma FoundExactly(d: Directory, segments: seq<Segment>, k: nat)
    requires k < |segments|
    ensures
      var before, after := Everyone(d, segments[..k]), Everyone(d, segments[..k + 1]);
      var text := JoinCommas(segments[k].parts);
      if !segments[k].known then after == before
      else if d.username(text).Some? then after == before + [Found(d.username(text).value, text)]
      else
        var group := d.group(text);
        && |after| == |before| + |group| && after[..|before|] == before
        && forall i :: 0 <= i < |group| ==> after[|before| + i] == Found(group[i], group[i])
    ensures Everyone(d, []) == []
  {
    assert segments[..k + 1] == segments[..k] + [segments[k]];
    EveryoneAppend(d, segments[..k], segments[k]);
    hide JoinCommas, Everyone;
  }

  /** The first part of each segment. */
  ghost function Heads(segments: seq<Segment>): (heads: seq<string>)
    ensures |heads| == |segments|
  {
    seq(|segments|, i requires 0 <= i < |segments| => if segments[i].parts == [] then [] else segments[i].parts[0])
  }

  /** The segments that are unknown and not empty. */
  ghost function UnknownMarks(segments: seq<Segment>): seq<bool> {
    seq(|segments|, i requires 0 <= i < |segments| => !segments[i].known && Heads(segments)[i] != [])
  }

  /** The unknown names are the first parts of these segments. */
  lemma {:induction false} UnknownsExactly(segments: seq<Segment>)
    ensures exists idx: seq<nat> :: Picks(idx, Heads(segments), Unknowns(segments), UnknownMarks(segments))
  {
    hide *;
    if segments == [] {
      NoSegments(segments);
    } else {
      var before, last := segments[..|segments| - 1], segments[|segments| - 1];
      assert segments == before + [last];
      UnknownsExactly(before);
      var idx: seq<nat> :| Picks(idx, Heads(before), Unknowns(before), UnknownMarks(before));
      UnknownsLast(before, last);
      var head := if last.parts == [] then [] else last.parts[0];
      PickMore(idx, Heads(before), Unknowns(before), UnknownMarks(before), head, !last.known && head != []);
    }
  }

  lemma NoSegments(segments: seq<Segment>)
    requires segments == []
    ensures Picks([], Heads(segments), Unknowns(segments), UnknownMarks(segments))
  {
  }

  lemma UnknownsLast(before: seq<Segment>, last: Segment)
    ensures
      var head := if last.parts == [] then [] else last.parts[0];
      && Heads(before + [last]) == Heads(before) + [head]
      && UnknownMarks(before + [last]) == UnknownMarks(before) + [!last.known && head != []]
      && Unknowns(before + [last]) == if !last.known && head != [] then Unknowns(before) + [head] else Unknowns(before)
  {
    assert (before + [last])[..|before|] == before;
    assert Unknowns(before) + [] == Unknowns(before);
  }
}
