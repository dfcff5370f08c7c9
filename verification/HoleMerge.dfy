/** Merging newly found holes into the stored hole records of one series. */
module HoleMerge {
  import opened Basics
  import opened Spans

  /** The value of a hole record; an id of zero marks a hole that is not stored yet. */
  datatype Hole = Hole(id: int, start: int, stop: int, noData: bool) {
    predicate Holds(t: int) {
      start <= t < stop
    }
  }

  class KHole {
    const id: int
    var start: int
    var stop: int
    const noData: bool

    constructor (h: Hole)
      ensures Value() == h
    {
      id, start, stop, noData := h.id, h.start, h.stop, h.noData;
    }

    function Value(): Hole
      reads this
    {
      Hole(id, start, stop, noData)
    }
  }

  function Deleted(h: Hole): seq<int> {
    if h.id > 0 then [h.id] else []
  }

  ghost function Values(hs: seq<KHole>): (vs: seq<Hole>)
    reads hs
    ensures |vs| == |hs| && forall i :: 0 <= i < |hs| ==> vs[i] == hs[i].Value()
  {
    seq(|hs|, i requires 0 <= i < |hs| reads hs => hs[i].Value())
  }

  // ---------------------------------------------------------------- the merge as a fold

  /** The merged list so far and the stored ids to delete. */
  datatype Merge = Merge(merged: seq<Hole>, del: seq<int>)

  function MergeStep(m: Merge, h: Hole): Merge {
    if h.start >= h.stop then
      Merge(m.merged, m.del + Deleted(h))
    else if m.merged == [] || m.merged[|m.merged| - 1].stop < h.start then
      Merge(m.merged + [h], m.del)
    else
      var last := |m.merged| - 1;
      var prev := m.merged[last];
      if prev.noData == h.noData || prev.stop >= h.stop then
        Merge(m.merged[last := prev.(stop := Max(prev.stop, h.stop))], m.del + Deleted(h))
      else
        Merge(m.merged + [h.(start := prev.stop)], m.del)
  }

  function MergeFirst(hs: seq<Hole>, n: nat): Merge
    requires n <= |hs|
  {
    if n == 0 then Merge([], []) else MergeStep(MergeFirst(hs, n - 1), hs[n - 1])
  }

  function MergeAll(hs: seq<Hole>): Merge {
    MergeFirst(hs, |hs|)
  }

  ghost predicate Distinct(hs: seq<KHole>) {
    forall i, j :: 0 <= i < j < |hs| ==> hs[i] != hs[j]
  }

  /** One turn of the merge: the record is dropped, joined to the last merged one, or appended. */
  method Place(h: KHole, merged: seq<KHole>, delIDs: seq<int>) returns (merged': seq<KHole>, delIDs': seq<int>)
    requires Distinct(merged) && h !in merged
    modifies merged, h
    ensures merged' == merged || merged' == merged + [h]
    ensures Merge(Values(merged'), delIDs') == MergeStep(Merge(old(Values(merged)), delIDs), old(h.Value()))
  {
    merged', delIDs' := merged, delIDs;
    ghost var was := Values(merged);
    if h.start >= h.stop {
      if h.id > 0 {
        delIDs' := delIDs + [h.id];
      }
      return;
    }
    var prev: KHole? := if |merged| == 0 then null else merged[|merged| - 1];
    if prev == null || prev.stop < h.start {
      merged' := merged + [h];
      assert Values(merged') == was + [h.Value()];
    } else if prev.noData == h.noData || prev.stop >= h.stop {
      if h.stop > prev.stop {
        prev.stop := h.stop;
      }
      if h.id > 0 {
        delIDs' := delIDs + [h.id];
      }
      assert Values(merged') == was[|merged| - 1 := prev.Value()];
    } else {
      h.start := prev.stop;
      merged' := merged + [h];
      assert Values(merged') == was + [h.Value()];
    }
  }

  /** The records from `i` on are as they were, and none of them is merged yet. */
  ghost predicate Halfway(list: seq<KHole>, merged: seq<KHole>, was: seq<Hole>, i: nat)
    reads list
  {
    && |was| == |list| && Distinct(merged)
    && (forall a :: 0 <= a < |merged| ==> merged[a] in list)
    && (forall k :: i <= k < |list| ==> list[k] !in merged)
    && (forall k :: i <= k < |list| ==> list[k].Value() == was[k])
  }

  /** One record of the list is placed. */
  method PlaceAt(list: seq<KHole>, i: nat, merged: seq<KHole>, delIDs: seq<int>, ghost was: seq<Hole>)
      returns (merged': seq<KHole>, delIDs': seq<int>)
    requires i < |list| && Distinct(list) && Halfway(list, merged, was, i)
    modifies list
    ensures Halfway(list, merged', was, i + 1)
    ensures Merge(Values(merged'), delIDs') == MergeStep(Merge(old(Values(merged)), delIDs), was[i])
  {
    var h := list[i];
    assert h in list;
    merged', delIDs' := Place(h, merged, delIDs);
  }

  /** The pass over the sorted records. It extends and trims the records themselves. */
  method MergeHoles(list: seq<KHole>) returns (merged: seq<KHole>, delIDs: seq<int>)
    requires Distinct(list)
    modifies list
    ensures Merge(Values(merged), delIDs) == MergeAll(old(Values(list)))
    ensures Distinct(merged) && forall h :: h in merged ==> h in list
  {
    merged, delIDs := [], [];
    ghost var was := Values(list);
    var i := 0;
    while i < |list|
      invariant 0 <= i <= |list|
      invariant Halfway(list, merged, was, i)
      invariant Merge(Values(merged), delIDs) == MergeFirst(was, i)
    {
      merged, delIDs := PlaceAt(list, i, merged, delIDs, was);
      i := i + 1;
    }
  }

  // ---------------------------------------------------------------- what the fold computes

  /** Non-empty, in order, not overlapping, and records that touch differ in their flag. */
  ghost predicate NormalForm(ms: seq<Hole>) {
    && (forall i :: 0 <= i < |ms| ==> ms[i].start < ms[i].stop)
    && (forall i, j :: 0 <= i < j < |ms| ==> ms[i].stop <= ms[j].start)
    && (forall i, j :: 0 <= i && j == i + 1 && j < |ms| && ms[i].stop == ms[j].start ==> ms[i].noData != ms[j].noData)
  }

  ghost predicate Held(hs: seq<Hole>, n: int, t: int) {
    exists i :: 0 <= i < n && i < |hs| && hs[i].Holds(t)
  }

  ghost predicate HeldWith(hs: seq<Hole>, n: int, noData: bool, t: int) {
    exists i :: 0 <= i < n && i < |hs| && hs[i].Holds(t) && hs[i].noData == noData
  }

  ghost predicate SortedByStart(hs: seq<Hole>) {
    forall i, j :: 0 <= i < j < |hs| ==> hs[i].start <= hs[j].start
  }

  lemma NormalAppend(ms: seq<Hole>, h: Hole)
    requires NormalForm(ms) && h.start < h.stop
    requires ms != [] ==> ms[|ms| - 1].stop <= h.start
    requires ms != [] && ms[|ms| - 1].stop == h.start ==> ms[|ms| - 1].noData != h.noData
    ensures NormalForm(ms + [h])
  {
  }

  lemma NormalExtend(ms: seq<Hole>, stop: int)
    requires NormalForm(ms) && ms != [] && ms[|ms| - 1].stop <= stop
    ensures NormalForm(ms[|ms| - 1 := ms[|ms| - 1].(stop := stop)])
  {
  }

  lemma {:induction false} MergeNormal(hs: seq<Hole>, n: nat)
    requires n <= |hs|
    ensures NormalForm(MergeFirst(hs, n).merged)
  {
    if n > 0 {
      MergeNormal(hs, n - 1);
      NormalStep(MergeFirst(hs, n - 1), hs[n - 1]);
    }
  }

  lemma NormalStep(m: Merge, h: Hole)
    requires NormalForm(m.merged)
    ensures NormalForm(MergeStep(m, h).merged)
  {
    if h.start >= h.stop {
    } else if m.merged == [] || m.merged[|m.merged| - 1].stop < h.start {
      NormalAppend(m.merged, h);
    } else {
      var prev := m.merged[|m.merged| - 1];
      if prev.noData == h.noData || prev.stop >= h.stop {
        NormalExtend(m.merged, Max(prev.stop, h.stop));
      } else {
        NormalAppend(m.merged, h.(start := prev.stop));
      }
    }
  }

  /** Every time held by the merged list is held by an input with the same flag. */
  lemma {:induction false} MergeSound(hs: seq<Hole>, n: nat, i: nat, t: int)
    requires n <= |hs| && i < |MergeFirst(hs, n).merged| && MergeFirst(hs, n).merged[i].Holds(t)
    ensures HeldWith(hs, n, MergeFirst(hs, n).merged[i].noData, t)
  {
    var m := MergeFirst(hs, n - 1);
    var h := hs[n - 1];
    var r := MergeFirst(hs, n).merged[i];
    if i < |m.merged| && m.merged[i].Holds(t) {
      MergeSound(hs, n - 1, i, t);
      var k :| 0 <= k < n - 1 && k < |hs| && hs[k].Holds(t) && hs[k].noData == m.merged[i].noData;
    } else {
      assert h.Holds(t) && h.noData == r.noData;
    }
  }

  /** With sorted input, the merged list holds everything any input holds. */
  lemma {:induction false} MergeComplete(hs: seq<Hole>, n: nat, t: int)
    requires n <= |hs| && SortedByStart(hs)
    ensures var ms := MergeFirst(hs, n).merged;
      Held(hs, n, t) ==> Held(ms, |ms|, t)
    ensures var ms := MergeFirst(hs, n).merged;
      n > 0 && ms != [] && hs[n - 1].start <= t < ms[|ms| - 1].stop ==> Held(ms, |ms|, t)
  {
    if n > 0 {
      MergeComplete(hs, n - 1, t);
      MergeCompleteStep(hs, n, t);
    }
  }

  /** A time held before a step is held after it. */
  lemma StepKeeps(m: Merge, h: Hole, t: int)
    requires Held(m.merged, |m.merged|, t)
    ensures var r := MergeStep(m, h).merged;
      Held(r, |r|, t)
  {
    var k :| 0 <= k < |m.merged| && m.merged[k].Holds(t);
    assert MergeStep(m, h).merged[k].Holds(t);
  }

  /** What the new record holds, and the last merged one from its start on, is held after the step. */
  lemma StepCovers(m: Merge, h: Hole, t: int)
    requires NormalForm(m.merged) && h.start < h.stop
    requires m.merged != [] && h.start <= t < m.merged[|m.merged| - 1].stop ==> Held(m.merged, |m.merged|, t)
    ensures var r := MergeStep(m, h).merged;
      r != [] && (h.start <= t < r[|r| - 1].stop ==> Held(r, |r|, t)) && h.stop <= r[|r| - 1].stop
  {
    var r := MergeStep(m, h).merged;
    if Held(m.merged, |m.merged|, t) {
      StepKeeps(m, h, t);
    } else if h.start <= t < r[|r| - 1].stop {
      assert r[|r| - 1].Holds(t);
    }
  }

  lemma HeldMore(hs: seq<Hole>, n: nat, t: int)
    requires 0 < n <= |hs|
    ensures Held(hs, n, t) <==> Held(hs, n - 1, t) || hs[n - 1].Holds(t)
  {
  }

  /** One step keeps what was held so far, and leaves no gap from the new start on. */
  lemma StepComplete(m: Merge, h: Hole, prev: int, had: bool, t: int)
    requires NormalForm(m.merged) && (had ==> Held(m.merged, |m.merged|, t))
    requires m.merged != [] ==> prev <= h.start
    requires m.merged != [] && prev <= t < m.merged[|m.merged| - 1].stop ==> Held(m.merged, |m.merged|, t)
    ensures var r := MergeStep(m, h).merged;
      && (had || h.Holds(t) ==> Held(r, |r|, t))
      && (r != [] && h.start <= t < r[|r| - 1].stop ==> Held(r, |r|, t))
  {
    if Held(m.merged, |m.merged|, t) {
      StepKeeps(m, h, t);
    } else if h.start < h.stop {
      StepCovers(m, h, t);
    }
  }

  lemma {:induction false} MergeCompleteStep(hs: seq<Hole>, n: nat, t: int)
    requires 0 < n <= |hs| && SortedByStart(hs)
    requires var ms := MergeFirst(hs, n - 1).merged;
      && (Held(hs, n - 1, t) ==> Held(ms, |ms|, t))
      && (n > 1 && ms != [] && hs[n - 2].start <= t < ms[|ms| - 1].stop ==> Held(ms, |ms|, t))
    ensures var ms := MergeFirst(hs, n).merged;
      && (Held(hs, n, t) ==> Held(ms, |ms|, t))
      && (ms != [] && hs[n - 1].start <= t < ms[|ms| - 1].stop ==> Held(ms, |ms|, t))
  {
    hide NormalForm, MergeStep, Held;
    MergeNormal(hs, n - 1);
    HeldMore(hs, n, t);
    var prev := if n > 1 then hs[n - 2].start else hs[0].start;
    StepComplete(MergeFirst(hs, n - 1), hs[n - 1], prev, Held(hs, n - 1, t), t);
  }

  /** How often an id occurs among the stored records of a list. */
  function CountId(hs: seq<Hole>, n: nat, id: int): nat
    requires n <= |hs|
  {
    if n == 0 then 0 else CountId(hs, n - 1, id) + if hs[n - 1].id == id then 1 else 0
  }

  function Occurs(xs: seq<int>, n: nat, id: int): nat
    requires n <= |xs|
  {
    if n == 0 then 0 else Occurs(xs, n - 1, id) + if xs[n - 1] == id then 1 else 0
  }

  lemma {:induction false} CountIdPrefix(a: seq<Hole>, b: seq<Hole>, n: nat, id: int)
    requires n <= |a| && n <= |b| && forall i :: 0 <= i < n ==> a[i].id == b[i].id
    ensures CountId(a, n, id) == CountId(b, n, id)
  {
    if n > 0 {
      CountIdPrefix(a, b, n - 1, id);
    }
  }

  lemma {:induction false} OccursPrefix(a: seq<int>, b: seq<int>, n: nat, id: int)
    requires n <= |a| && n <= |b| && forall i :: 0 <= i < n ==> a[i] == b[i]
    ensures Occurs(a, n, id) == Occurs(b, n, id)
  {
    if n > 0 {
      OccursPrefix(a, b, n - 1, id);
    }
  }

  /** Every stored id is either kept in the merged list or deleted, as often as it was given. */
  lemma {:induction false} MergeIds(hs: seq<Hole>, n: nat, id: int)
    requires n <= |hs|
    ensures var m := MergeFirst(hs, n);
      CountId(hs, n, id) >= CountId(m.merged, |m.merged|, id)
    ensures var m := MergeFirst(hs, n);
      id > 0 ==> CountId(hs, n, id) == CountId(m.merged, |m.merged|, id) + Occurs(m.del, |m.del|, id)
    ensures var m := MergeFirst(hs, n);
      id <= 0 ==> Occurs(m.del, |m.del|, id) == 0
  {
    if n > 0 {
      MergeIds(hs, n - 1, id);
      IdsStep(MergeFirst(hs, n - 1), hs[n - 1], id);
    }
  }

  lemma IdsStep(m: Merge, h: Hole, id: int)
    ensures var r := MergeStep(m, h);
      var one := if h.id == id then 1 else 0;
      && CountId(r.merged, |r.merged|, id) <= CountId(m.merged, |m.merged|, id) + one
      && (id > 0 ==> CountId(r.merged, |r.merged|, id) + Occurs(r.del, |r.del|, id) ==
                     CountId(m.merged, |m.merged|, id) + Occurs(m.del, |m.del|, id) + one)
      && (id <= 0 ==> Occurs(r.del, |r.del|, id) == Occurs(m.del, |m.del|, id))
  {
    var r := MergeStep(m, h);
    CountIdPrefix(m.merged, r.merged, |m.merged|, id);
    OccursPrefix(m.del, r.del, |m.del|, id);
  }

  /** A list in normal form is left as it is. */
  lemma {:induction false} MergeFixed(ms: seq<Hole>, n: nat)
    requires n <= |ms| && NormalForm(ms)
    ensures MergeFirst(ms, n) == Merge(ms[..n], [])
  {
    if n > 0 {
      MergeFixed(ms, n - 1);
      assert ms[..n] == ms[..n - 1] + [ms[n - 1]];
    }
  }

  /** The whole statement about one merge of records sorted by start. */
  lemma MergeMeaning(hs: seq<Hole>)
    requires SortedByStart(hs)
    ensures var m := MergeAll(hs);
      && NormalForm(m.merged)
      && (forall t :: Held(m.merged, |m.merged|, t) <==> Held(hs, |hs|, t))
      && (forall i, t :: 0 <= i < |m.merged| && m.merged[i].Holds(t) ==> HeldWith(hs, |hs|, m.merged[i].noData, t))
      && (forall id :: id > 0 ==>
            CountId(hs, |hs|, id) == CountId(m.merged, |m.merged|, id) + Occurs(m.del, |m.del|, id))
      && MergeAll(m.merged) == Merge(m.merged, [])
  {
    var m := MergeAll(hs);
    MergeNormal(hs, |hs|);
    forall t ensures Held(m.merged, |m.merged|, t) <==> Held(hs, |hs|, t) {
      MergeComplete(hs, |hs|, t);
      if Held(m.merged, |m.merged|, t) {
        var i :| 0 <= i < |m.merged| && m.merged[i].Holds(t);
        MergeSound(hs, |hs|, i, t);
      }
    }
    forall i, t | 0 <= i < |m.merged| && m.merged[i].Holds(t)
      ensures HeldWith(hs, |hs|, m.merged[i].noData, t)
    {
      MergeSound(hs, |hs|, i, t);
    }
    forall id | id > 0
      ensures CountId(hs, |hs|, id) == CountId(m.merged, |m.merged|, id) + Occurs(m.del, |m.del|, id)
    {
      MergeIds(hs, |hs|, id);
    }
    MergeFixed(m.merged, |m.merged|);
    assert m.merged[..|m.merged|] == m.merged;
  }
}
