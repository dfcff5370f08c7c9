/** The stored hole records of one series, and how an update of a time window changes them. */
module HoleTable {
  import opened Basics
  import opened Spans
  import opened HoleMerge

  // ---------------------------------------------------------------- ordering the records

  /** Integer division that truncates toward zero. */
  function TruncDiv(a: int, b: int): int
    requires b > 0
  {
    if a >= 0 then a / b else -(-a / b)
  }

  /** The comparison of the sort: whole seconds between the starts, then records without data first. */
  function Compare(a: Hole, b: Hole): int {
    if a.start != b.start then TruncDiv(a.start - b.start, 1000)
    else if a.noData == b.noData then 0
    else if a.noData then -1 else 1
  }

  predicate Whole(h: Hole) {
    h.start % 1000 == 0 && h.stop % 1000 == 0
  }

  ghost predicate WholeSeconds(hs: seq<Hole>) {
    forall i :: 0 <= i < |hs| ==> Whole(hs[i])
  }

  /** By start, and at equal starts the records without data first. */
  predicate Before(a: Hole, b: Hole) {
    a.start < b.start || (a.start == b.start && (a.noData || !b.noData))
  }

  /** On whole seconds the comparison is that order. */
  lemma CompareIsBefore(a: Hole, b: Hole)
    requires Whole(a) && Whole(b)
    ensures Compare(a, b) <= 0 <==> Before(a, b)
    ensures Compare(a, b) < 0 <==> !Before(b, a)
  {
  }

  /** On all starts the comparison lets a record also come first that starts less than a second later. */
  lemma CompareExactly(a: Hole, b: Hole)
    ensures Compare(a, b) <= 0 <==> Before(a, b) || 0 < a.start - b.start < 1000
  {
  }

  ghost predicate InOrder(hs: seq<Hole>) {
    forall i, j :: 0 <= i < j < |hs| ==> Before(hs[i], hs[j])
  }

  function Inserted(hs: seq<Hole>, k: nat, h: Hole): seq<Hole>
    requires k <= |hs|
  {
    hs[..k] + [h] + hs[k..]
  }

  lemma InsertedInOrder(hs: seq<Hole>, k: nat, h: Hole)
    requires k <= |hs| && InOrder(hs)
    requires k > 0 ==> Before(hs[k - 1], h)
    requires k < |hs| ==> Before(h, hs[k])
    ensures InOrder(Inserted(hs, k, h))
  {
    var r := Inserted(hs, k, h);
    forall i, j | 0 <= i < j < |r|
      ensures Before(r[i], r[j])
    {
      assert forall n :: 0 <= n < |r| ==> r[n] == if n < k then hs[n] else if n == k then h else hs[n - 1];
    }
  }

  lemma InsertedElements(hs: seq<Hole>, k: nat, h: Hole)
    requires k <= |hs|
    ensures multiset(Inserted(hs, k, h)) == multiset(hs) + multiset{h}
  {
    assert hs == hs[..k] + hs[k..];
  }

  lemma {:induction false} CountIdConcat(a: seq<Hole>, b: seq<Hole>, n: nat, id: int)
    requires n <= |b|
    ensures CountId(a + b, |a| + n, id) == CountId(a, |a|, id) + CountId(b, n, id)
  {
    if n == 0 {
      CountIdPrefix(a + b, a, |a|, id);
    } else {
      CountIdConcat(a, b, n - 1, id);
    }
  }

  lemma InsertedCount(hs: seq<Hole>, k: nat, h: Hole, id: int)
    requires k <= |hs|
    ensures CountId(Inserted(hs, k, h), |hs| + 1, id) == CountId(hs, |hs|, id) + if h.id == id then 1 else 0
  {
    var a, b := hs[..k], hs[k..];
    assert hs == a + b;
    CountIdConcat(a, b, |b|, id);
    CountIdConcat(a + [h], b, |b|, id);
    CountIdConcat(a, [h], 1, id);
    assert CountId([h], 1, id) == CountId([h], 0, id) + if h.id == id then 1 else 0;
  }

  /** The same records, each stored id as often as before. */
  ghost predicate SameRecords(a: seq<Hole>, b: seq<Hole>) {
    && multiset(a) == multiset(b)
    && forall id {:trigger CountId(a, |a|, id)} :: CountId(a, |a|, id) == CountId(b, |b|, id)
  }

  lemma InsertedSame(hs: seq<Hole>, of: seq<Hole>, k: nat, h: Hole)
    requires k <= |hs| && SameRecords(hs, of)
    ensures SameRecords(Inserted(hs, k, h), of + [h])
  {
    InsertedElements(hs, k, h);
    var r, now := Inserted(hs, k, h), of + [h];
    forall id ensures CountId(r, |r|, id) == CountId(now, |now|, id) {
      InsertedCount(hs, k, h, id);
      CountIdPrefix(of + [h], of, |of|, id);
    }
  }

  lemma InsertedWhole(hs: seq<Hole>, k: nat, h: Hole)
    requires k <= |hs| && WholeSeconds(hs) && Whole(h)
    ensures WholeSeconds(Inserted(hs, k, h))
  {
  }

  /** Where a record goes: behind everything that it does not come strictly before by the comparison. */
  method FindSlot(sorted: seq<Hole>, h: Hole) returns (k: nat)
    ensures k <= |sorted|
    ensures k > 0 ==> Compare(h, sorted[k - 1]) >= 0
    ensures k < |sorted| ==> Compare(h, sorted[k]) < 0
  {
    k := |sorted|;
    while k > 0 && Compare(h, sorted[k - 1]) < 0
      invariant k <= |sorted|
      invariant k < |sorted| ==> Compare(h, sorted[k]) < 0
    {
      k := k - 1;
    }
  }

  /** The same records, and in order if they start at whole seconds. */
  ghost predicate SortedForm(sorted: seq<Hole>, hs: seq<Hole>) {
    SameRecords(sorted, hs) && (WholeSeconds(hs) ==> InOrder(sorted) && WholeSeconds(sorted))
  }

  method InsertSorted(sorted: seq<Hole>, h: Hole, ghost hs: seq<Hole>) returns (r: seq<Hole>)
    requires SortedForm(sorted, hs)
    ensures SortedForm(r, hs + [h])
  {
    var k := FindSlot(sorted, h);
    r := Inserted(sorted, k, h);
    InsertedSame(sorted, hs, k, h);
    if WholeSeconds(hs + [h]) {
      InsertedAtSlot(sorted, k, h, hs);
    }
  }

  lemma InsertedAtSlot(sorted: seq<Hole>, k: nat, h: Hole, hs: seq<Hole>)
    requires k <= |sorted| && SortedForm(sorted, hs) && WholeSeconds(hs + [h])
    requires k > 0 ==> Compare(h, sorted[k - 1]) >= 0
    requires k < |sorted| ==> Compare(h, sorted[k]) < 0
    ensures InOrder(Inserted(sorted, k, h)) && WholeSeconds(Inserted(sorted, k, h))
  {
    assert Whole((hs + [h])[|hs|]);
    assert forall i :: 0 <= i < |hs| ==> hs[i] == (hs + [h])[i];
    if k > 0 {
      CompareIsBefore(h, sorted[k - 1]);
    }
    if k < |sorted| {
      CompareIsBefore(h, sorted[k]);
    }
    InsertedInOrder(sorted, k, h);
    InsertedWhole(sorted, k, h);
  }

  method SortHoles(hs: seq<Hole>) returns (sorted: seq<Hole>)
    ensures SortedForm(sorted, hs)
  {
    sorted := [];
    var i := 0;
    while i < |hs|
      invariant 0 <= i <= |hs|
      invariant SortedForm(sorted, hs[..i])
    {
      sorted := InsertSorted(sorted, hs[i], hs[..i]);
      assert hs[..i + 1] == hs[..i] + [hs[i]];
      i := i + 1;
    }
    assert hs[..i] == hs;
  }

  // ---------------------------------------------------------------- the table

  /** A window of the table: the records that lie completely inside it. */
  predicate InWindow(h: Hole, startMS: int, endMS: int) {
    h.start >= startMS && h.stop <= endMS
  }

  /** A record that begins before a window or ends behind it. */
  predicate ReachesOut(h: Hole, startMS: int, endMS: int) {
    h.start < startMS || endMS < h.stop
  }

  ghost predicate HeldByAny(rows: map<int, Hole>, t: int) {
    exists id :: id in rows && rows[id].Holds(t)
  }

  /** A row with that flag holds the time. */
  ghost predicate HeldFlag(rows: map<int, Hole>, noData: bool, t: int) {
    exists id :: id in rows && rows[id].Holds(t) && rows[id].noData == noData
  }

  ghost predicate ValidRows(rows: map<int, Hole>, nextId: int) {
    nextId > 0 && forall id :: id in rows ==> 0 < id < nextId && rows[id].id == id && Whole(rows[id])
  }

  /** The ids of a list of records are positive and different from each other. */
  ghost predicate DistinctIds(hs: seq<Hole>) {
    && (forall i :: 0 <= i < |hs| ==> hs[i].id > 0)
    && (forall i, j :: 0 <= i < j < |hs| ==> hs[i].id != hs[j].id)
  }

  /** The result of a window query: the rows of the window, each once. */
  ghost predicate WindowRows(rows: map<int, Hole>, startMS: int, endMS: int, res: seq<Hole>) {
    && DistinctIds(res)
    && (forall i :: 0 <= i < |res| ==>
          res[i].id in rows && rows[res[i].id] == res[i] && InWindow(res[i], startMS, endMS))
    && (forall id :: id in rows && InWindow(rows[id], startMS, endMS) ==> rows[id] in res)
  }

  function NewHoles(found: seq<Span>, noData: bool): (hs: seq<Hole>)
    ensures |hs| == |found|
  {
    seq(|found|, i requires 0 <= i < |found| => Hole(0, found[i].start, found[i].stop, noData))
  }

  lemma {:induction false} CountIdDistinct(hs: seq<Hole>, n: nat, id: int)
    requires n <= |hs| && DistinctIds(hs)
    ensures CountId(hs, n, id) <= 1
    ensures CountId(hs, n, id) == 1 <==> exists i :: 0 <= i < n && hs[i].id == id
  {
    if n > 0 {
      CountIdDistinct(hs, n - 1, id);
    }
  }

  lemma {:induction false} CountIdNone(hs: seq<Hole>, n: nat, id: int)
    requires n <= |hs| && forall i :: 0 <= i < n ==> hs[i].id != id
    ensures CountId(hs, n, id) == 0
  {
    if n > 0 {
      CountIdNone(hs, n - 1, id);
    }
  }

  lemma {:induction false} CountIdSome(hs: seq<Hole>, n: nat, i: nat)
    requires i < n <= |hs|
    ensures CountId(hs, n, hs[i].id) >= 1
  {
    if i < n - 1 {
      CountIdSome(hs, n - 1, i);
    }
  }

  lemma {:induction false} CountIdTwice(hs: seq<Hole>, n: nat, i: nat, j: nat)
    requires i < j < n <= |hs| && hs[i].id == hs[j].id
    ensures CountId(hs, n, hs[i].id) >= 2
  {
    if j < n - 1 {
      CountIdTwice(hs, n - 1, i, j);
    } else {
      CountIdSome(hs, n - 1, i);
    }
  }

  lemma {:induction false} OccursIn(xs: seq<int>, n: nat, x: int)
    requires n <= |xs|
    ensures Occurs(xs, n, x) >= 1 <==> x in xs[..n]
  {
    if n > 0 {
      OccursIn(xs, n - 1, x);
      assert xs[..n] == xs[..n - 1] + [xs[n - 1]];
    }
  }

  /** Each id of a window row is either deleted or kept by exactly one merged record, and no other id occurs. */
  ghost predicate Settled(win: seq<Hole>, m: Merge) {
    && (forall i :: 0 <= i < |m.merged| ==> m.merged[i].id == 0 || HasId(win, m.merged[i].id))
    && (forall i, j :: 0 <= i < j < |m.merged| && m.merged[i].id == m.merged[j].id ==> m.merged[i].id == 0)
    && (forall d :: d in m.del ==> HasId(win, d))
    && (forall k :: 0 <= k < |win| ==> (win[k].id in m.del <==> !HasId(m.merged, win[k].id)))
  }

  ghost predicate HasId(hs: seq<Hole>, id: int) {
    exists k :: 0 <= k < |hs| && hs[k].id == id
  }

  lemma SettledAfterMerge(win: seq<Hole>, added: seq<Hole>, sorted: seq<Hole>)
    requires DistinctIds(win) && SameRecords(sorted, win + added)
    requires forall i :: 0 <= i < |added| ==> added[i].id == 0
    ensures Settled(win, MergeAll(sorted))
  {
    var m := MergeAll(sorted);
    var ms := m.merged;
    forall i | 0 <= i < |ms| && ms[i].id != 0 ensures HasId(win, ms[i].id) {
      IdCounts(win, added, sorted, ms[i].id);
      CountIdSome(ms, |ms|, i);
    }
    forall i, j | 0 <= i < j < |ms| && ms[i].id == ms[j].id ensures ms[i].id == 0 {
      IdCounts(win, added, sorted, ms[i].id);
      CountIdTwice(ms, |ms|, i, j);
    }
    forall d | d in m.del ensures HasId(win, d) {
      IdCounts(win, added, sorted, d);
    }
    forall k | 0 <= k < |win| ensures win[k].id in m.del <==> !HasId(ms, win[k].id) {
      IdCounts(win, added, sorted, win[k].id);
      assert HasId(win, win[k].id);
    }
  }

  /** How often an id ends up among the merged records and among the deletions. */
  lemma IdCounts(win: seq<Hole>, added: seq<Hole>, sorted: seq<Hole>, id: int)
    requires DistinctIds(win) && SameRecords(sorted, win + added)
    requires forall i :: 0 <= i < |added| ==> added[i].id == 0
    ensures var m := MergeAll(sorted);
      var kept := CountId(m.merged, |m.merged|, id);
      && (id != 0 ==> kept <= if HasId(win, id) then 1 else 0)
      && (kept >= 1 <==> HasId(m.merged, id))
      && (id in m.del ==> id > 0 && HasId(win, id))
      && (id > 0 && HasId(win, id) ==> (id in m.del <==> kept == 0))
  {
    var m, all := MergeAll(sorted), win + added;
    MergeIds(sorted, |sorted|, id);
    assert CountId(sorted, |sorted|, id) == CountId(all, |all|, id);
    CountIdConcat(win, added, |added|, id);
    CountIdDistinct(win, |win|, id);
    if id != 0 {
      CountIdNone(added, |added|, id);
    }
    OccursIn(m.del, |m.del|, id);
    assert m.del[..|m.del|] == m.del;
    CountIdHas(m.merged, id);
  }

  lemma CountIdHas(hs: seq<Hole>, id: int)
    ensures CountId(hs, |hs|, id) >= 1 <==> HasId(hs, id)
  {
    if HasId(hs, id) {
      var k :| 0 <= k < |hs| && hs[k].id == id;
      CountIdSome(hs, |hs|, k);
    } else {
      CountIdNone(hs, |hs|, id);
    }
  }

  lemma {:induction false} MergeWhole(hs: seq<Hole>, n: nat)
    requires n <= |hs| && WholeSeconds(hs)
    ensures WholeSeconds(MergeFirst(hs, n).merged)
  {
    if n > 0 {
      MergeWhole(hs, n - 1);
    }
  }

  lemma {:induction false} SameHeld(sorted: seq<Hole>, all: seq<Hole>, t: int)
    requires multiset(sorted) == multiset(all)
    ensures Held(sorted, |sorted|, t) <==> Held(all, |all|, t)
  {
    if Held(sorted, |sorted|, t) {
      var k :| 0 <= k < |sorted| && sorted[k].Holds(t);
      assert sorted[k] in multiset(all);
    }
    if Held(all, |all|, t) {
      var k :| 0 <= k < |all| && all[k].Holds(t);
      assert all[k] in multiset(sorted);
    }
  }

  /** What the database holds after the merged records are written back: the other rows, and the merged ones. */
  ghost predicate Written(was: map<int, Hole>, rows: map<int, Hole>, startMS: int, endMS: int, out: seq<Hole>) {
    && (forall id :: id in was && ReachesOut(was[id], startMS, endMS) ==> id in rows && rows[id] == was[id])
    && (forall i :: 0 <= i < |out| ==> out[i].id in rows && rows[out[i].id] == out[i])
    && (forall id :: id in rows ==>
      || HasId(out, id)
      || (id in was && rows[id] == was[id] && ReachesOut(was[id], startMS, endMS)))
  }

  class KHoleTable {
    var rows: map<int, Hole>
    var nextId: int

    ghost predicate Valid()
      reads this
    {
      ValidRows(rows, nextId)
    }

    constructor ()
      ensures Valid() && rows == map[]
    {
      rows, nextId := map[], 1;
    }

    /** The rows of a window, in whatever order the database returns them. */
    method Query(startMS: int, endMS: int) returns (res: seq<Hole>)
      requires Valid()
      ensures WindowRows(rows, startMS, endMS, res)
    {
      res := [];
      var ids := rows.Keys;
      while ids != {}
        invariant ids <= rows.Keys
        invariant forall i :: 0 <= i < |res| ==>
          res[i].id in rows && res[i].id !in ids && rows[res[i].id] == res[i] && InWindow(res[i], startMS, endMS)
        invariant forall id :: id in rows && id !in ids && InWindow(rows[id], startMS, endMS) ==> rows[id] in res
        invariant DistinctIds(res)
        decreases ids
      {
        ghost var some := Element(ids);
        var id :| id in ids;
        ids := ids - {id};
        if InWindow(rows[id], startMS, endMS) {
          res := res + [rows[id]];
        }
      }
    }

    method Delete(ids: seq<int>)
      modifies this`rows
      ensures rows == map id | id in old(rows) && id !in ids :: old(rows)[id]
    {
      rows := map id | id in rows && id !in ids :: rows[id];
    }

    /** Updates a stored record, or adds one that is not stored yet under the next id. */
    method Put(h: Hole) returns (ghost row: Hole)
      requires Valid() && Whole(h) && (h.id == 0 || 0 < h.id < nextId)
      modifies this
      ensures Valid() && nextId >= old(nextId)
      ensures row == h.(id := row.id) && rows == old(rows)[row.id := row]
      ensures if h.id == 0 then old(nextId) <= row.id < nextId else row.id == h.id
    {
      row := h;
      if h.id == 0 {
        row := h.(id := nextId);
        rows := rows[nextId := h.(id := nextId)];
        nextId := nextId + 1;
      } else {
        rows := rows[h.id := h];
      }
    }

    /** Writes the merged records back. */
    method Write(merged: seq<Hole>, ghost win: seq<Hole>, ghost del: seq<int>) returns (ghost out: seq<Hole>)
      requires Valid() && WholeSeconds(merged) && Settled(win, Merge(merged, del))
      requires forall k :: 0 <= k < |win| ==> 0 < win[k].id < nextId
      modifies this
      ensures Valid()
      ensures SameButIds(merged, out, old(nextId))
      ensures forall i :: 0 <= i < |out| ==> out[i].id in rows && rows[out[i].id] == out[i]
      ensures forall id :: id in old(rows) && !HasId(merged, id) ==> id in rows && rows[id] == old(rows)[id]
      ensures forall id :: id in rows && !HasId(out, id) ==> id in old(rows) && rows[id] == old(rows)[id]
    {
      out := [];
      var i := 0;
      while i < |merged|
        invariant 0 <= i <= |merged| && |out| == i
        invariant Writing(old(rows), rows, nextId, merged, out, old(nextId))
      {
        out := WriteRow(merged[i], old(rows), win, Merge(merged, del), out, old(nextId));
        i := i + 1;
      }
    }

    method WriteRow(h: Hole, ghost was: map<int, Hole>, ghost win: seq<Hole>, ghost m: Merge, ghost before: seq<Hole>,
        ghost first: int) returns (ghost out: seq<Hole>)
      requires Writing(was, rows, nextId, m.merged, before, first) && ValidRows(was, first) && Settled(win, m)
      requires |before| < |m.merged| && h == m.merged[|before|] && Whole(h)
      requires forall k :: 0 <= k < |win| ==> 0 < win[k].id < first
      modifies this
      ensures Writing(was, rows, nextId, m.merged, out, first) && |out| == |before| + 1
    {
      IdIsKnown(h, win, m, |before|);
      ghost var rowsBefore, next := rows, nextId;
      ghost var row := Put(h);
      WriteOne(was, rowsBefore, next, win, m, before, first, row, nextId);
      out := before + [row];
    }

    /**
     * Records the holes found in a window. Rows outside the window keep their place, the others are
     * merged with the new holes into normal form, and no other time becomes or stops being recorded.
     */
    method Record(startMS: int, endMS: int, found: seq<Span>, isCont: bool) returns (ghost out: seq<Hole>)
      requires Valid() && forall i :: 0 <= i < |found| ==> found[i].start % 1000 == 0 && found[i].stop % 1000 == 0
      modifies this
      ensures Valid() && NormalForm(out)
      ensures Written(old(rows), rows, startMS, endMS, out)
      ensures forall t :: HeldByAny(rows, t) <==> HeldByAny(old(rows), t) || Covers(found, t)
      ensures forall noData, t :: HeldFlag(rows, noData, t) ==>
        HeldFlag(old(rows), noData, t) || (noData == isCont && Covers(found, t))
    {
      var win := Query(startMS, endMS);
      var added := NewHoles(found, isCont);
      var sorted := SortHoles(win + added);
      var merged, del := MergeRecords(sorted);
      SettledAfterMerge(win, added, sorted);
      MergeWhole(sorted, |sorted|);
      Delete(del);
      out := Write(merged, win, del);
      WrittenBack(old(rows), rows, startMS, endMS, win, Merge(merged, del), out, old(nextId));
      RecordMeaning(old(rows), rows, old(nextId), startMS, endMS, win, found, isCont, sorted, out);
      RecordFlags(old(rows), rows, old(nextId), startMS, endMS, win, found, isCont, sorted, out);
    }
  }

  /** The times recorded before an update, split into the rows it fetches and the other ones. */
  lemma HeldSplit(rows: map<int, Hole>, nextId: int, startMS: int, endMS: int, win: seq<Hole>, t: int)
    requires ValidRows(rows, nextId) && WindowRows(rows, startMS, endMS, win)
    ensures HeldByAny(rows, t) <==>
      Held(win, |win|, t) || exists id :: id in rows && ReachesOut(rows[id], startMS, endMS) && rows[id].Holds(t)
  {
    if HeldByAny(rows, t) {
      var id :| id in rows && rows[id].Holds(t);
      if InWindow(rows[id], startMS, endMS) {
        var k :| 0 <= k < |win| && win[k] == rows[id];
        assert win[k].Holds(t);
      }
    }
    if Held(win, |win|, t) {
      var k :| 0 <= k < |win| && win[k].Holds(t);
      assert rows[win[k].id].Holds(t);
    }
  }

  lemma HeldAfter(was: map<int, Hole>, rows: map<int, Hole>, startMS: int, endMS: int, out: seq<Hole>, t: int)
    requires Written(was, rows, startMS, endMS, out)
    ensures HeldByAny(rows, t) <==>
      Held(out, |out|, t) || exists id :: id in was && ReachesOut(was[id], startMS, endMS) && was[id].Holds(t)
  {
    if HeldByAny(rows, t) {
      var id :| id in rows && rows[id].Holds(t);
      if HasId(out, id) {
        var k :| 0 <= k < |out| && out[k].id == id;
        assert out[k].Holds(t);
      }
    }
    if Held(out, |out|, t) {
      var k :| 0 <= k < |out| && out[k].Holds(t);
      assert rows[out[k].id].Holds(t);
    }
    if id :| id in was && ReachesOut(was[id], startMS, endMS) && was[id].Holds(t) {
      assert rows[id].Holds(t);
    }
  }

  lemma HeldConcat(win: seq<Hole>, found: seq<Span>, noData: bool, t: int)
    ensures var all := win + NewHoles(found, noData);
      Held(all, |all|, t) <==> Held(win, |win|, t) || Covers(found, t)
  {
    var all := win + NewHoles(found, noData);
    if Held(win, |win|, t) {
      var k :| 0 <= k < |win| && win[k].Holds(t);
      assert all[k].Holds(t);
    }
    if Covers(found, t) {
      var k :| 0 <= k < |found| && Within(t, found[k]);
      assert all[|win| + k].Holds(t);
    }
    if Held(all, |all|, t) {
      var k :| 0 <= k < |all| && all[k].Holds(t);
      if k >= |win| {
        assert Within(t, found[k - |win|]);
      }
    }
  }

  lemma WrittenBack(was: map<int, Hole>, rows: map<int, Hole>, startMS: int, endMS: int,
                    win: seq<Hole>, m: Merge, out: seq<Hole>, nextId: int)
    requires ValidRows(was, nextId) && WindowRows(was, startMS, endMS, win) && Settled(win, m)
    requires SameButIds(m.merged, out, nextId)
    requires forall i :: 0 <= i < |out| ==> out[i].id in rows && rows[out[i].id] == out[i]
    requires forall id :: id in was && id !in m.del && !HasId(m.merged, id) ==> id in rows && rows[id] == was[id]
    requires forall id :: id in rows && !HasId(out, id) ==> id in was && id !in m.del && rows[id] == was[id]
    ensures Written(was, rows, startMS, endMS, out)
  {
    forall id
      ensures HasId(win, id) <==> id in was && InWindow(was[id], startMS, endMS)
      ensures id in m.del ==> HasId(win, id)
      ensures id != 0 && HasId(m.merged, id) ==> HasId(win, id) && HasId(out, id)
      ensures HasId(win, id) ==> id in m.del || HasId(m.merged, id)
    {
      WindowIds(was, nextId, startMS, endMS, win, id);
      SettledIds(win, m, out, nextId, id);
    }
  }

  lemma WindowIds(was: map<int, Hole>, nextId: int, startMS: int, endMS: int, win: seq<Hole>, id: int)
    requires ValidRows(was, nextId) && WindowRows(was, startMS, endMS, win)
    ensures HasId(win, id) <==> id in was && InWindow(was[id], startMS, endMS)
  {
    if id in was && InWindow(was[id], startMS, endMS) {
      var k :| 0 <= k < |win| && win[k] == was[id];
      assert win[k].id == id;
    }
  }

  lemma SettledIds(win: seq<Hole>, m: Merge, out: seq<Hole>, nextId: int, id: int)
    requires Settled(win, m) && SameButIds(m.merged, out, nextId)
    ensures id in m.del ==> HasId(win, id)
    ensures id != 0 && HasId(m.merged, id) ==> HasId(win, id) && HasId(out, id)
    ensures HasId(win, id) ==> id in m.del || HasId(m.merged, id)
  {
    if HasId(m.merged, id) && id != 0 {
      var i :| 0 <= i < |m.merged| && m.merged[i].id == id;
      assert out[i].id == id;
    }
  }

  lemma RecordMeaning(was: map<int, Hole>, rows: map<int, Hole>, nextId: int, startMS: int, endMS: int,
                      win: seq<Hole>, found: seq<Span>, isCont: bool, sorted: seq<Hole>, out: seq<Hole>)
    requires ValidRows(was, nextId) && WindowRows(was, startMS, endMS, win)
    requires InOrder(sorted) && SameRecords(sorted, win + NewHoles(found, isCont))
    requires SameButIds(MergeAll(sorted).merged, out, nextId) && Written(was, rows, startMS, endMS, out)
    ensures NormalForm(out)
    ensures forall t :: HeldByAny(rows, t) <==> HeldByAny(was, t) || Covers(found, t)
  {
    assert SortedByStart(sorted);
    MergeMeaning(sorted);
    NormalButIds(MergeAll(sorted).merged, out, nextId);
    forall t ensures HeldByAny(rows, t) <==> HeldByAny(was, t) || Covers(found, t) {
      HeldSplit(was, nextId, startMS, endMS, win, t);
      HeldAfter(was, rows, startMS, endMS, out, t);
      SameHeld(sorted, win + NewHoles(found, isCont), t);
      HeldConcat(win, found, isCont, t);
    }
  }

  /** Each recorded time has the flag of a row that held it before, or of the holes that were found. */
  lemma RecordFlags(was: map<int, Hole>, rows: map<int, Hole>, nextId: int, startMS: int, endMS: int,
                    win: seq<Hole>, found: seq<Span>, isCont: bool, sorted: seq<Hole>, out: seq<Hole>)
    requires ValidRows(was, nextId) && WindowRows(was, startMS, endMS, win)
    requires SameRecords(sorted, win + NewHoles(found, isCont))
    requires SameButIds(MergeAll(sorted).merged, out, nextId) && Written(was, rows, startMS, endMS, out)
    ensures forall noData, t :: HeldFlag(rows, noData, t) ==>
      HeldFlag(was, noData, t) || (noData == isCont && Covers(found, t))
  {
    forall noData, t | HeldFlag(rows, noData, t)
      ensures HeldFlag(was, noData, t) || (noData == isCont && Covers(found, t))
    {
      var id :| id in rows && rows[id].Holds(t) && rows[id].noData == noData;
      if HasId(out, id) {
        var k :| 0 <= k < |out| && out[k].id == id;
        assert rows[out[k].id] == out[k] && RowFor(MergeAll(sorted).merged[k], out[k], nextId);
        FlagOfInput(was, startMS, endMS, win, found, isCont, sorted, k, t);
      } else {
        assert was[id].Holds(t) && was[id].noData == noData;
      }
    }
  }

  lemma FlagOfInput(was: map<int, Hole>, startMS: int, endMS: int, win: seq<Hole>, found: seq<Span>, isCont: bool,
                    sorted: seq<Hole>, k: nat, t: int)
    requires WindowRows(was, startMS, endMS, win) && SameRecords(sorted, win + NewHoles(found, isCont))
    requires k < |MergeAll(sorted).merged| && MergeAll(sorted).merged[k].Holds(t)
    ensures var noData := MergeAll(sorted).merged[k].noData;
      HeldFlag(was, noData, t) || (noData == isCont && Covers(found, t))
  {
    hide WindowRows, HeldFlag, Covers;
    MergeSound(sorted, |sorted|, k, t);
    var j :| 0 <= j < |sorted| && sorted[j].Holds(t) && sorted[j].noData == MergeAll(sorted).merged[k].noData;
    assert sorted[j] in multiset(win + NewHoles(found, isCont));
    FlagOfRow(was, startMS, endMS, win, found, isCont, sorted[j], t);
  }

  lemma FlagOfRow(was: map<int, Hole>, startMS: int, endMS: int, win: seq<Hole>, found: seq<Span>, isCont: bool,
                  h: Hole, t: int)
    requires WindowRows(was, startMS, endMS, win) && h in win + NewHoles(found, isCont) && h.Holds(t)
    ensures HeldFlag(was, h.noData, t) || (h.noData == isCont && Covers(found, t))
  {
    var all := win + NewHoles(found, isCont);
    var i :| 0 <= i < |all| && all[i] == h;
    if i < |win| {
      assert was[win[i].id] == win[i];
    } else {
      assert Within(t, found[i - |win|]);
    }
  }

  lemma NormalButIds(merged: seq<Hole>, out: seq<Hole>, first: int)
    requires NormalForm(merged) && SameButIds(merged, out, first)
    ensures NormalForm(out)
    ensures forall t :: Held(out, |out|, t) <==> Held(merged, |merged|, t)
  {
    assert forall i :: 0 <= i < |out| ==>
      out[i].start == merged[i].start && out[i].stop == merged[i].stop && out[i].noData == merged[i].noData;
    forall t ensures Held(out, |out|, t) <==> Held(merged, |merged|, t) {
      if Held(merged, |merged|, t) {
        var k :| 0 <= k < |merged| && merged[k].Holds(t);
        assert out[k].Holds(t);
      }
      if Held(out, |out|, t) {
        var k :| 0 <= k < |out| && out[k].Holds(t);
        assert merged[k].Holds(t);
      }
    }
  }

  /** Fetched rows become fresh records, which the merge then changes in place. */
  method MergeRecords(hs: seq<Hole>) returns (merged: seq<Hole>, del: seq<int>)
    ensures Merge(merged, del) == MergeAll(hs)
  {
    var objs: seq<KHole> := [];
    var i := 0;
    while i < |hs|
      invariant 0 <= i <= |hs| && |objs| == i
      invariant fresh(objs) && Distinct(objs)
      invariant forall k :: 0 <= k < i ==> objs[k].Value() == hs[k]
    {
      var o := new KHole(hs[i]);
      objs := objs + [o];
      i := i + 1;
    }
    assert Values(objs) == hs;
    var kept;
    kept, del := MergeHoles(objs);
    merged := [];
    i := 0;
    while i < |kept|
      invariant 0 <= i <= |kept| && |merged| == i
      invariant forall k :: 0 <= k < i ==> merged[k] == kept[k].Value()
    {
      merged := merged + [kept[i].Value()];
      i := i + 1;
    }
    assert merged == Values(kept);
  }

  /** The same records, where those without an id have been given new ones from `first` on. */
  ghost predicate SameButIds(merged: seq<Hole>, out: seq<Hole>, first: int) {
    |out| == |merged| && forall i :: 0 <= i < |out| ==> RowFor(merged[i], out[i], first)
  }

  ghost predicate RowFor(h: Hole, row: Hole, first: int) {
    row == h.(id := row.id) && if h.id == 0 then row.id >= first else row.id == h.id
  }

  /** The first records have been written, and every row without a record is as it was. */
  ghost predicate Writing(was: map<int, Hole>, rows: map<int, Hole>, nextId: int, merged: seq<Hole>, out: seq<Hole>,
                          first: int)
  {
    && |out| <= |merged| && first <= nextId && ValidRows(rows, nextId)
    && (forall k :: 0 <= k < |out| ==> RowFor(merged[k], out[k], first))
    && (forall k :: 0 <= k < |out| ==> out[k].id in rows && rows[out[k].id] == out[k])
    && (forall id :: id in was && !HasId(merged, id) ==> id in rows && rows[id] == was[id])
    && (forall id :: id in rows && !HasId(out, id) ==> id in was && rows[id] == was[id])
  }

  lemma IdIsKnown(h: Hole, win: seq<Hole>, m: Merge, i: nat)
    requires Settled(win, m) && i < |m.merged| && h == m.merged[i]
    ensures h.id == 0 || exists k :: 0 <= k < |win| && win[k].id == h.id
  {
    if h.id != 0 {
      assert HasId(win, m.merged[i].id);
    }
  }

  /** The next record gets a row of its own. */
  lemma OwnRow(rows: map<int, Hole>, nextId: int, win: seq<Hole>, m: Merge, out: seq<Hole>, first: int, row: Hole,
      k: nat)
    requires Settled(win, m) && (forall j :: 0 <= j < |win| ==> 0 < win[j].id < first)
    requires k < |out| < |m.merged| && RowFor(m.merged[k], out[k], first) && RowFor(m.merged[|out|], row, nextId)
    requires out[k].id < nextId
    ensures out[k].id != row.id
  {
    var h := m.merged[|out|];
    if h.id != 0 {
      assert HasId(win, h.id);
    }
  }

  lemma WriteOne(was: map<int, Hole>, rows: map<int, Hole>, nextId: int, win: seq<Hole>, m: Merge, out: seq<Hole>,
                 first: int, row: Hole, nextAfter: int)
    requires Writing(was, rows, nextId, m.merged, out, first) && |out| < |m.merged| && Settled(win, m)
    requires forall j :: 0 <= j < |win| ==> 0 < win[j].id < first
    requires RowFor(m.merged[|out|], row, nextId) && ValidRows(rows[row.id := row], nextAfter) && nextId <= nextAfter
    requires m.merged[|out|].id == 0 ==> row.id !in was
    ensures Writing(was, rows[row.id := row], nextAfter, m.merged, out + [row], first)
  {
    var merged := m.merged;
    HasIdAppend(out, row);
    assert HasId(merged, merged[|out|].id);
    forall k | 0 <= k < |out|
      ensures out[k].id != row.id
    {
      assert rows[out[k].id] == out[k];
      OwnRow(rows, nextId, win, m, out, first, row, k);
    }
  }

  lemma HasIdAppend(hs: seq<Hole>, h: Hole)
    ensures forall id :: HasId(hs + [h], id) <==> HasId(hs, id) || id == h.id
  {
    forall id ensures HasId(hs + [h], id) <==> HasId(hs, id) || id == h.id {
      if HasId(hs, id) {
        var k :| 0 <= k < |hs| && hs[k].id == id;
        assert (hs + [h])[k].id == id;
      }
      assert (hs + [h])[|hs|].id == h.id;
    }
  }
}
