/** The interval algebra behind availability: half-open intervals, their merged form, and the
    two-pointer subtraction. Times are only compared, so a real stands for a timestamp. */
module Intervals {
  datatype Interval = Interval(start: real, end: real)

  predicate In(iv: Interval, t: real) {
    iv.start <= t < iv.end
  }

  /** The point set of a list of intervals. */
  ghost predicate Covers(ivs: seq<Interval>, t: real) {
    exists i :: 0 <= i < |ivs| && In(ivs[i], t)
  }

  ghost predicate SamePoints(a: seq<Interval>, b: seq<Interval>) {
    forall t :: Covers(a, t) <==> Covers(b, t)
  }

  /** Nonempty intervals in order, with a gap between neighbours. */
  ghost predicate Canonical(ivs: seq<Interval>) {
    && (forall i :: 0 <= i < |ivs| ==> ivs[i].start < ivs[i].end)
    && (forall i, j :: 0 <= i < j < |ivs| ==> ivs[i].end < ivs[j].start)
  }

  lemma CoversAppend(ivs: seq<Interval>, iv: Interval, t: real)
    ensures Covers(ivs + [iv], t) <==> Covers(ivs, t) || In(iv, t)
  {
    var all := ivs + [iv];
    if In(iv, t) {
      assert In(all[|ivs|], t);
    }
    if Covers(ivs, t) {
      var i :| 0 <= i < |ivs| && In(ivs[i], t);
      assert all[i] == ivs[i];
    }
    if Covers(all, t) {
      var i :| 0 <= i < |all| && In(all[i], t);
      assert i < |ivs| ==> all[i] == ivs[i];
    }
  }

  lemma CoversConcat(a: seq<Interval>, b: seq<Interval>, t: real)
    ensures Covers(a + b, t) <==> Covers(a, t) || Covers(b, t)
  {
    var all := a + b;
    if Covers(a, t) {
      var i :| 0 <= i < |a| && In(a[i], t);
      assert all[i] == a[i];
    }
    if Covers(b, t) {
      var i :| 0 <= i < |b| && In(b[i], t);
      assert all[|a| + i] == b[i];
    }
    if Covers(all, t) {
      var i :| 0 <= i < |all| && In(all[i], t);
      assert if i < |a| then all[i] == a[i] else all[i] == b[i - |a|];
    }
  }

  lemma CoversAt(ivs: seq<Interval>, i: nat, t: real)
    requires i < |ivs| && In(ivs[i], t)
    ensures Covers(ivs, t)
  {
  }

  lemma CoversTail(ivs: seq<Interval>, t: real)
    requires Canonical(ivs) && ivs != []
    ensures Covers(ivs[1..], t) <==> Covers(ivs, t) && ivs[0].end <= t
  {
    if Covers(ivs[1..], t) {
      var i :| 0 <= i < |ivs[1..]| && In(ivs[1..][i], t);
      assert ivs[1..][i] == ivs[i + 1];
    }
    if Covers(ivs, t) && ivs[0].end <= t {
      var i :| 0 <= i < |ivs| && In(ivs[i], t);
      assert i > 0 && ivs[1..][i - 1] == ivs[i];
    }
  }

  // Uniqueness --------------------------------------------------------------------------

  /** Where a canonical list begins and where its first interval ends, read off its points. */
  lemma Edges(ivs: seq<Interval>)
    requires Canonical(ivs) && ivs != []
    ensures Covers(ivs, ivs[0].start) && !Covers(ivs, ivs[0].end)
    ensures forall t :: t < ivs[0].start ==> !Covers(ivs, t)
    ensures forall t :: ivs[0].start <= t < ivs[0].end ==> Covers(ivs, t)
  {
    assert In(ivs[0], ivs[0].start);
    forall t | ivs[0].start <= t < ivs[0].end ensures Covers(ivs, t) {
      assert In(ivs[0], t);
    }
  }

  /** A point set has one canonical form. */
  lemma {:induction false} CanonicalUnique(a: seq<Interval>, b: seq<Interval>)
    requires Canonical(a) && Canonical(b) && SamePoints(a, b)
    ensures a == b
  {
    if a != [] {
      Edges(a);
    }
    if b != [] {
      Edges(b);
    }
    if a != [] && b != [] {
      assert a[0].start == b[0].start;
      assert a[0].end == b[0].end;
      forall t ensures Covers(a[1..], t) <==> Covers(b[1..], t) {
        CoversTail(a, t);
        CoversTail(b, t);
      }
      CanonicalUnique(a[1..], b[1..]);
      assert a == [a[0]] + a[1..] && b == [b[0]] + b[1..];
    } else {
      assert a == [] && b == [];
    }
  }

  // Sorting -----------------------------------------------------------------------------

  predicate Before(a: Interval, b: Interval) {
    a.start < b.start || (a.start == b.start && a.end <= b.end)
  }

  ghost predicate Ascending(ivs: seq<Interval>) {
    forall i, j :: 0 <= i < j < |ivs| ==> Before(ivs[i], ivs[j])
  }

  function Insert(iv: Interval, ivs: seq<Interval>): (r: seq<Interval>)
    ensures multiset(r) == multiset(ivs) + multiset{iv}
  {
    if ivs == [] || Before(iv, ivs[0]) then [iv] + ivs
    else
      assert ivs == [ivs[0]] + ivs[1..];
      [ivs[0]] + Insert(iv, ivs[1..])
  }

  lemma {:induction false} InsertAscending(iv: Interval, ivs: seq<Interval>)
    requires Ascending(ivs)
    ensures Ascending(Insert(iv, ivs))
  {
    if ivs != [] && !Before(iv, ivs[0]) {
      InsertAscending(iv, ivs[1..]);
      var rest := Insert(iv, ivs[1..]);
      forall j | 0 <= j < |rest| ensures Before(ivs[0], rest[j]) {
        assert rest[j] in multiset(rest);
        assert rest[j] == iv || rest[j] in ivs[1..];
      }
    }
  }

  /** `sorted` on pairs. */
  function Sorted(ivs: seq<Interval>): (r: seq<Interval>)
    ensures Ascending(r) && multiset(r) == multiset(ivs)
  {
    if ivs == [] then []
    else
      assert ivs == [ivs[0]] + ivs[1..];
      InsertAscending(ivs[0], Sorted(ivs[1..]));
      Insert(ivs[0], Sorted(ivs[1..]))
  }

  lemma SortedPoints(ivs: seq<Interval>)
    ensures SamePoints(Sorted(ivs), ivs)
  {
    var r := Sorted(ivs);
    forall t ensures Covers(r, t) <==> Covers(ivs, t) {
      if Covers(r, t) {
        var i :| 0 <= i < |r| && In(r[i], t);
        assert r[i] in multiset(ivs);
      }
      if Covers(ivs, t) {
        var i :| 0 <= i < |ivs| && In(ivs[i], t);
        assert ivs[i] in multiset(r);
      }
    }
  }

  // Merging -----------------------------------------------------------------------------

  function Max(a: real, b: real): real {
    if a < b then b else a
  }

  /** One interval, starting no earlier than any before it, joins the last or follows it. */
  function Joined(merged: seq<Interval>, iv: Interval): seq<Interval> {
    var n := |merged|;
    if iv.start >= iv.end then merged
    else if n > 0 && iv.start <= merged[n - 1].end then
      merged[..n - 1] + [Interval(merged[n - 1].start, Max(iv.end, merged[n - 1].end))]
    else merged + [iv]
  }

  lemma JoinedKeeps(merged: seq<Interval>, iv: Interval)
    requires Canonical(merged)
    requires forall i :: 0 <= i < |merged| ==> merged[i].start <= iv.start
    ensures Canonical(Joined(merged, iv))
    ensures forall i :: 0 <= i < |Joined(merged, iv)| ==> Joined(merged, iv)[i].start <= iv.start
    ensures forall t :: Covers(Joined(merged, iv), t) <==> Covers(merged, t) || In(iv, t)
  {
    var n := |merged|;
    forall t ensures Covers(Joined(merged, iv), t) <==> Covers(merged, t) || In(iv, t) {
      if iv.start < iv.end {
        if n > 0 && iv.start <= merged[n - 1].end {
          var last := merged[n - 1];
          assert merged == merged[..n - 1] + [last];
          CoversAppend(merged[..n - 1], last, t);
          CoversAppend(merged[..n - 1], Interval(last.start, Max(iv.end, last.end)), t);
        } else {
          CoversAppend(merged, iv, t);
        }
      }
    }
  }

  /** The canonical form of a list of intervals. */
  method Merge(intervals: seq<Interval>) returns (merged: seq<Interval>)
    ensures Canonical(merged) && SamePoints(merged, intervals)
  {
    assert Canonical([]);
    hide Covers, Sorted, Canonical;
    var sorted := Sorted(intervals);
    SortedPoints(intervals);
    merged := [];
    for k := 0 to |sorted|
      invariant Canonical(merged)
      invariant SamePoints(merged, sorted[..k])
      invariant forall i :: 0 <= i < |merged| ==> k > 0 && merged[i].start <= sorted[k - 1].start
    {
      var iv := sorted[k];
      ghost var before := merged;
      assert k > 0 ==> Before(sorted[k - 1], iv);
      if iv.start >= iv.end {
      } else if merged != [] && iv.start <= merged[|merged| - 1].end {
        var last := merged[|merged| - 1];
        merged := merged[..|merged| - 1] + [Interval(last.start, Max(iv.end, last.end))];
      } else {
        merged := merged + [iv];
      }
      assert merged == Joined(before, iv);
      JoinedKeeps(before, iv);
      OneMore(merged, before, sorted, k);
    }
    assert sorted[..|sorted|] == sorted;
  }

  lemma OneMore(after: seq<Interval>, before: seq<Interval>, sorted: seq<Interval>, k: nat)
    requires k < |sorted| && SamePoints(before, sorted[..k])
    requires forall t :: Covers(after, t) <==> Covers(before, t) || In(sorted[k], t)
    ensures SamePoints(after, sorted[..k + 1])
  {
    hide Covers;
    assert sorted[..k + 1] == sorted[..k] + [sorted[k]];
    forall t ensures Covers(after, t) <==> Covers(sorted[..k + 1], t) {
      CoversAppend(sorted[..k], sorted[k], t);
    }
  }

  /** Merging identifies exactly the lists with the same points: it is blind to order, overlap
      and repetition, and leaves a canonical list alone. */
  lemma MergeIdentifies(a: seq<Interval>, b: seq<Interval>, ofA: seq<Interval>, ofB: seq<Interval>)
    requires Canonical(ofA) && SamePoints(ofA, a)
    requires Canonical(ofB) && SamePoints(ofB, b)
    ensures ofA == ofB <==> SamePoints(a, b)
    ensures Canonical(a) ==> ofA == a
  {
    hide Covers, Canonical;
    if SamePoints(a, b) {
      CanonicalUnique(ofA, ofB);
    }
    if Canonical(a) {
      CanonicalUnique(ofA, a);
    }
  }

  // Subtracting -------------------------------------------------------------------------

  /** The first `k` intervals of `m` have been cut by `x`. */
  ghost predicate Complete(output: seq<Interval>, m: seq<Interval>, k: nat, x: seq<Interval>)
    requires k <= |m|
  {
    && Canonical(output)
    && (forall i :: 0 <= i < |output| ==> k > 0 && output[i].end <= m[k - 1].end)
    && (forall t :: Covers(output, t) <==> Covers(m[..k], t) && !Covers(x, t))
  }

  /** So has the part of `m[k]` before `s`. */
  ghost predicate Progress(output: seq<Interval>, m: seq<Interval>, k: nat, s: real, x: seq<Interval>)
    requires k < |m|
  {
    && Canonical(output)
    && (forall i :: 0 <= i < |output| ==> output[i].end < s && output[i].end <= m[k].end)
    && (forall t :: Covers(output, t) <==> (Covers(m[..k], t) || (In(m[k], t) && t < s)) && !Covers(x, t))
  }

  /** The first `index` exclusions cannot touch anything from `s` on. */
  ghost predicate Passed(x: seq<Interval>, index: nat, s: real) {
    index <= |x| && forall j :: 0 <= j < index ==> x[j].end <= s
  }

  lemma Begin(output: seq<Interval>, m: seq<Interval>, k: nat, x: seq<Interval>)
    requires k < |m| && Canonical(m) && Complete(output, m, k, x)
    ensures Progress(output, m, k, m[k].start, x)
  {
    hide Covers;
  }

  lemma NotYetExcluded(x: seq<Interval>, index: nat, s: real, t: real)
    requires Canonical(x) && Passed(x, index, s) && s <= t && (index < |x| ==> t < x[index].start)
    ensures !Covers(x, t)
  {
    forall j | 0 <= j < |x| ensures !In(x[j], t) {
      if j > index {
        assert x[index].start < x[index].end < x[j].start;
      }
    }
  }

  /** One exclusion that reaches into `m[k]`. */
  lemma CutStep(output: seq<Interval>, m: seq<Interval>, k: nat, s: real, x: seq<Interval>, index: nat)
    requires k < |m| && Canonical(x) && Progress(output, m, k, s, x) && Passed(x, index, s)
    requires m[k].start <= s < m[k].end && index < |x| && x[index].start < m[k].end && s < x[index].end
    ensures var cut := if x[index].start > s then output + [Interval(s, x[index].start)] else output;
      Progress(cut, m, k, x[index].end, x)
  {
    hide Covers;
    var left, right := x[index].start, x[index].end;
    var cut := if left > s then output + [Interval(s, left)] else output;
    forall t ensures Covers(cut, t) <==> (Covers(m[..k], t) || (In(m[k], t) && t < right)) && !Covers(x, t) {
      CoversAppend(output, Interval(s, left), t);
      if In(x[index], t) {
        CoversAt(x, index, t);
      }
      if s <= t < left {
        NotYetExcluded(x, index, s, t);
      }
    }
  }

  /** The exclusions that reach into `m[k]` are used up. */
  lemma Finish(output: seq<Interval>, m: seq<Interval>, k: nat, s: real, x: seq<Interval>, index: nat)
    requires k < |m| && Canonical(x) && Progress(output, m, k, s, x) && Passed(x, index, s) && m[k].start <= s
    requires s < m[k].end && index < |x| ==> m[k].end <= x[index].start
    ensures Complete(if s < m[k].end then output + [Interval(s, m[k].end)] else output, m, k + 1, x)
  {
    hide Covers;
    var end := m[k].end;
    var cut := if s < end then output + [Interval(s, end)] else output;
    assert m[..k + 1] == m[..k] + [m[k]];
    forall t ensures Covers(cut, t) <==> Covers(m[..k + 1], t) && !Covers(x, t) {
      CoversAppend(m[..k], m[k], t);
      CoversAppend(output, Interval(s, end), t);
      if s <= t < end {
        NotYetExcluded(x, index, s, t);
      }
    }
  }

  lemma NoneCut(m: seq<Interval>, x: seq<Interval>)
    ensures Complete([], m, 0, x)
  {
  }

  lemma AllCut(output: seq<Interval>, m: seq<Interval>, x: seq<Interval>)
    requires Complete(output, m, |m|, x)
    ensures Canonical(output) && forall t :: Covers(output, t) <==> Covers(m, t) && !Covers(x, t)
  {
    hide Covers, Canonical;
    assert m[..|m|] == m;
  }

  /** The canonical form of the set difference. One index runs over the exclusions for all the
      intervals and is never reset. */
  method Subtract(intervals: seq<Interval>, exclusions: seq<Interval>) returns (output: seq<Interval>)
    ensures Canonical(output)
    ensures forall t :: Covers(output, t) <==> Covers(intervals, t) && !Covers(exclusions, t)
  {
    hide Covers, Complete, Progress;
    output := [];
    var excluded := Merge(exclusions);
    var merged := Merge(intervals);
    var index := 0;
    NoneCut(merged, excluded);
    for k := 0 to |merged|
      invariant Complete(output, merged, k, excluded)
      invariant k < |merged| ==> Passed(excluded, index, merged[k].start)
      invariant index <= |excluded|
    {
      var start, end := merged[k].start, merged[k].end;
      Begin(output, merged, k, excluded);
      while index < |excluded| && excluded[index].end <= start
        invariant Passed(excluded, index, start)
      {
        index := index + 1;
      }
      while index < |excluded| && excluded[index].start < end
        invariant Passed(excluded, index, start) && Progress(output, merged, k, start, excluded)
        invariant merged[k].start <= start < end
        invariant index < |excluded| ==> start < excluded[index].end
      {
        var left, right := excluded[index].start, excluded[index].end;
        CutStep(output, merged, k, start, excluded, index);
        if left > start {
          output := output + [Interval(start, left)];
        }
        start := Max(start, right);
        if start >= end {
          break;
        }
        index := index + 1;
      }
      Finish(output, merged, k, start, excluded, index);
      if start < end {
        output := output + [Interval(start, end)];
      }
    }
    AllCut(output, merged, excluded);
  }
}
