/** Replaying the bars of many symbols in one global order. */
module Replay {
  import opened Basics
  import opened Bars
  import opened Series
  import opened KlineQuery
  import opened CursorState
  import opened KlineCursor

  // ---------------------------------------------------------------- the order of events

  /** A bar of one symbol, due when it ends. */
  datatype Event = Event(end: int, symbol: string, bar: Kline)

  /** Lexicographic order of strings. */
  predicate StrLess(a: string, b: string) {
    b != [] && (a == [] || a[0] < b[0] || (a[0] == b[0] && StrLess(a[1..], b[1..])))
  }

  lemma {:induction false} StrLessIrreflexive(a: string)
    ensures !StrLess(a, a)
  {
    if a != [] {
      StrLessIrreflexive(a[1..]);
    }
  }

  lemma {:induction false} StrLessTotal(a: string, b: string)
    ensures StrLess(a, b) || StrLess(b, a) || a == b
    ensures !(StrLess(a, b) && StrLess(b, a))
    decreases |a| + |b|
  {
    if a != [] && b != [] {
      StrLessTotal(a[1..], b[1..]);
      if a[0] == b[0] && a[1..] == b[1..] {
        assert a == [a[0]] + a[1..] && b == [b[0]] + b[1..];
      }
    }
  }

  lemma {:induction false} StrLessTransitive(a: string, b: string, c: string)
    requires StrLess(a, b) && StrLess(b, c)
    ensures StrLess(a, c)
    decreases |a|
  {
    if a != [] && a[0] == b[0] == c[0] {
      StrLessTransitive(a[1..], b[1..], c[1..]);
    }
  }

  /** By end time, and at equal ends by symbol. */
  predicate Sooner(a: Event, b: Event) {
    a.end < b.end || (a.end == b.end && StrLess(a.symbol, b.symbol))
  }

  ghost predicate InOrder(log: seq<Event>) {
    forall i, j :: 0 <= i < j < |log| ==> Sooner(log[i], log[j])
  }

  lemma SoonerOnce(a: Event, b: Event)
    ensures !(Sooner(a, b) && Sooner(b, a)) && !Sooner(a, a)
  {
    StrLessTotal(a.symbol, b.symbol);
    StrLessIrreflexive(a.symbol);
  }

  /** A log that is complete up to some point is a prefix of every log that goes on to deliver the rest. */
  lemma {:induction false} PrefixOf(a: seq<Event>, b: seq<Event>, left: set<Event>)
    requires InOrder(a) && InOrder(b) && forall e :: e in b <==> e in a || e in left
    requires forall e, l :: e in a && l in left ==> Sooner(e, l)
    ensures a <= b
    decreases |a|
  {
    if a != [] {
      assert a[0] in b && b[0] in b;
      FirstIsFirst(a, b, left);
      forall e ensures e in b[1..] <==> e in a[1..] || e in left {
        WithoutFirst(a, e);
        WithoutFirst(b, e);
        SoonerOnce(a[0], e);
      }
      PrefixOf(a[1..], b[1..], left);
      assert a == [a[0]] + a[1..] && b == [b[0]] + b[1..];
    }
  }

  lemma FirstIsFirst(a: seq<Event>, b: seq<Event>, left: set<Event>)
    requires InOrder(a) && InOrder(b) && a != [] && b != [] && a[0] in b && (b[0] in a || b[0] in left)
    requires forall e, l :: e in a && l in left ==> Sooner(e, l)
    ensures a[0] == b[0]
  {
    SoonerOnce(a[0], b[0]);
  }

  lemma WithoutFirst(a: seq<Event>, e: Event)
    requires InOrder(a) && a != []
    ensures e in a[1..] <==> e in a && e != a[0]
  {
    SoonerOnce(a[0], a[0]);
    assert a == [a[0]] + a[1..];
  }

  // ---------------------------------------------------------------- what a feeder still has to deliver

  ghost function EventAt(table: seq<Kline>, tf: int, symbol: string, i: nat): Event
    requires i < |table|
  {
    Event(table[i].time + tf, symbol, table[i])
  }

  ghost function Pend(table: seq<Kline>, tf: int, symbol: string, next: nat, end: int): set<Event> {
    set i | next <= i < |table| && table[i].time < end :: EventAt(table, tf, symbol, i)
  }

  ghost function Pending(f: TfKlineLoader): set<Event>
    requires f.Valid()
    reads f
  {
    Pend(f.table, f.tf, f.symbol, f.Next(), f.endMS)
  }

  /** The first pending event comes before the other ones. */
  lemma PendStep(table: seq<Kline>, tf: int, symbol: string, next: nat, end: int)
    requires Market(table, tf) && next < |table| && table[next].time < end
    ensures var first := EventAt(table, tf, symbol, next);
      && Pend(table, tf, symbol, next, end) == {first} + Pend(table, tf, symbol, next + 1, end)
      && first !in Pend(table, tf, symbol, next + 1, end)
      && forall e :: e in Pend(table, tf, symbol, next + 1, end) ==> first.end < e.end && e.symbol == symbol
  {
  }

  lemma PendNone(table: seq<Kline>, tf: int, symbol: string, next: nat, end: int)
    requires Market(table, tf) && (next < |table| ==> end <= table[next].time)
    ensures Pend(table, tf, symbol, next, end) == {}
  {
    forall i | next <= i < |table| ensures end <= table[i].time {
      assert table[next].time <= table[i].time;
    }
  }

  /** A replay reads the past: its queries find every bar before the end finished, and no unfinished one. */
  function Past(end: int, tf: int): (now: Now)
    requires tf > 0
    ensures ValidNow(now, tf) && now.un.None? && end <= now.top
  {
    var top := AlignDown(end + tf - 1, tf);
    Now(top, top, None)
  }

  /** A feeder in the middle of a run: it has been positioned, and what it shows is its first pending event. */
  ghost predicate Ready(f: TfKlineLoader)
    reads f
  {
    f.Valid() && !f.Fresh() && Plain(f.Source(), f.State())
  }

  /** A feeder that is placed for a replay is ready. */
  method Seek(f: TfKlineLoader, since: int)
    requires f.Configured() && since >= 0
    modifies f
    ensures Ready(f) && f.endMS == old(f.endMS) && f.Next() == IndexOf(f.table, SeekTime(since))
    ensures Pending(f) == Pend(f.table, f.tf, f.symbol, IndexOf(f.table, SeekTime(since)), f.endMS)
  {
    RefillKeeps(f.Source(), Cursor(Mark(SeekTime(since), Blank), f.endMS, f.table), Past(f.endMS, f.tf));
    f.SetSeek(since, Past(f.endMS, f.tf));
  }

  /** What a feeder shows is the next bar of its table, if that starts before the end. */
  lemma ReadyShows(f: TfKlineLoader)
    requires Ready(f)
    ensures Market(f.table, f.tf) && f.nextMS <= NEVER && (f.nextMS == NEVER <==> !f.Reading())
    ensures f.Reading() <==> f.Next() < |f.table| && f.table[f.Next()].time < f.endMS
    ensures f.Reading() ==> f.nextMS == f.table[f.Next()].time + f.tf
  {
    StoredIsMarket(f.table, f.tf);
    f.ShownIsCached();
  }

  lemma ReadyFacts(f: TfKlineLoader)
    requires Ready(f)
    ensures f.nextMS == NEVER <==> Pending(f) == {}
    ensures f.nextMS == NEVER <==> !f.Reading()
    ensures f.Reading() ==>
      && f.Next() < |f.table| && f.table[f.Next()].time < f.endMS
      && f.nextMS == EventAt(f.table, f.tf, f.symbol, f.Next()).end
      && EventAt(f.table, f.tf, f.symbol, f.Next()) in Pending(f)
    ensures forall e :: e in Pending(f) ==> e.symbol == f.symbol && e.end >= f.nextMS
    ensures forall e :: e in Pending(f) && e.end == f.nextMS ==> e == EventAt(f.table, f.tf, f.symbol, f.Next())
  {
    ReadyShows(f);
    if f.Reading() {
      PendStep(f.table, f.tf, f.symbol, f.Next(), f.endMS);
    } else {
      PendNone(f.table, f.tf, f.symbol, f.Next(), f.endMS);
    }
  }

  /** The next event of a feeder that has one. */
  ghost function Due(f: TfKlineLoader): Event
    requires Ready(f) && f.Reading()
    reads f
    ensures f.Next() < |f.table| && f.table[f.Next()].time < f.endMS
  {
    ReadyShows(f);
    EventAt(f.table, f.tf, f.symbol, f.Next())
  }

  /** A pending event is the one that the feeder shows, or it ends later. */
  lemma PendingEvent(f: TfKlineLoader, e: Event)
    requires Ready(f) && e in Pending(f)
    ensures f.Reading() && f.nextMS < NEVER && e.symbol == f.symbol && (e == Due(f) || f.nextMS < e.end)
  {
    ReadyShows(f);
    ReadyFacts(f);
  }

  lemma DueKey(f: TfKlineLoader)
    requires Ready(f) && f.Reading()
    ensures Due(f).end == f.nextMS && Due(f).symbol == f.symbol
  {
  }

  // ---------------------------------------------------------------- sorting the feeders

  /** What the sort compares: the end of the next bar, and the symbol unless a feeder has nothing left. */
  predicate KeyLess(va: int, a: string, vb: int, b: string) {
    if va != vb || va == NEVER || vb == NEVER then va < vb else StrLess(a, b)
  }

  predicate FeederLess(f: TfKlineLoader, g: TfKlineLoader)
    reads f, g
  {
    KeyLess(f.nextMS, f.symbol, g.nextMS, g.symbol)
  }

  lemma KeyLessTransitive(va: int, a: string, vb: int, b: string, vc: int, c: string)
    requires !KeyLess(vb, b, va, a) && !KeyLess(vc, c, vb, b)
    ensures !KeyLess(vc, c, va, a)
  {
    if va == vb == vc && va != NEVER && StrLess(c, a) {
      StrLessTotal(a, b);
      StrLessTotal(b, c);
      StrLessTotal(a, c);
      if a != b && b != c {
        StrLessTransitive(a, b, c);
      }
    }
  }

  /** No feeder has to come before an earlier one. */
  ghost predicate Sorted(fs: seq<TfKlineLoader>)
    reads fs
  {
    forall i, j :: 0 <= i < j < |fs| ==> !FeederLess(fs[j], fs[i])
  }

  /** Binary search for the first feeder that comes after `hold`, and insertion before it by shifting the others. */
  method InsertFeeder(holds: seq<TfKlineLoader>, hold: TfKlineLoader) returns (r: seq<TfKlineLoader>)
    requires Sorted(holds)
    ensures Sorted(r)
    ensures multiset(r) == multiset(holds) + multiset{hold}
  {
    var i, j := 0, |holds|;
    while i < j
      invariant 0 <= i <= j <= |holds|
      invariant i > 0 ==> !FeederLess(hold, holds[i - 1])
      invariant j < |holds| ==> FeederLess(hold, holds[j])
    {
      var h := (i + j) / 2;
      if FeederLess(hold, holds[h]) {
        j := h;
      } else {
        i := h + 1;
      }
    }
    r := Shifted(holds, i, hold);
    InsertedSorted(holds, i, hold);
  }

  /** Appends, moves everything from index `k` on up by one, and stores the new feeder there. */
  function Shifted(holds: seq<TfKlineLoader>, k: nat, hold: TfKlineLoader): (r: seq<TfKlineLoader>)
    requires k <= |holds|
    ensures r == holds[..k] + [hold] + holds[k..]
    ensures multiset(r) == multiset(holds) + multiset{hold}
  {
    assert holds == holds[..k] + holds[k..];
    var longer := holds + [hold];
    (longer[..k + 1] + holds[k..])[k := hold]
  }

  lemma InsertedSorted(holds: seq<TfKlineLoader>, k: nat, hold: TfKlineLoader)
    requires Sorted(holds) && k <= |holds|
    requires k > 0 ==> !FeederLess(hold, holds[k - 1])
    requires k < |holds| ==> FeederLess(hold, holds[k])
    ensures Sorted(holds[..k] + [hold] + holds[k..])
  {
    var r := holds[..k] + [hold] + holds[k..];
    forall i, j | 0 <= i < j < |r| ensures !FeederLess(r[j], r[i]) {
      assert forall n :: 0 <= n < |r| ==> r[n] == if n < k then holds[n] else if n == k then hold else holds[n - 1];
      if j == k {
        if i < k - 1 {
          KeyLessTransitive(r[i].nextMS, r[i].symbol, holds[k - 1].nextMS, holds[k - 1].symbol, hold.nextMS,
            hold.symbol);
        }
      } else if i == k {
        KeyLessAsymmetric(hold.nextMS, hold.symbol, holds[k].nextMS, holds[k].symbol);
        if j - 1 > k {
          KeyLessTransitive(hold.nextMS, hold.symbol, holds[k].nextMS, holds[k].symbol, r[j].nextMS, r[j].symbol);
        }
      }
    }
  }

  lemma KeyLessAsymmetric(va: int, a: string, vb: int, b: string)
    ensures KeyLess(va, a, vb, b) ==> !KeyLess(vb, b, va, a)
  {
    StrLessTotal(a, b);
  }

  /** Sorts a list of feeders that comes in any order. */
  method SortFeeders(feeders: seq<TfKlineLoader>) returns (r: seq<TfKlineLoader>)
    ensures Sorted(r) && multiset(r) == multiset(feeders)
  {
    r := [];
    var i := 0;
    while i < |feeders|
      invariant 0 <= i <= |feeders|
      invariant Sorted(r) && multiset(r) == multiset(feeders[..i])
    {
      assert feeders[..i + 1] == feeders[..i] + [feeders[i]];
      r := InsertFeeder(r, feeders[i]);
      i := i + 1;
    }
    assert feeders[..i] == feeders;
  }

  /** The feeders in whatever order the map of holders yields them. */
  method MakeFeeders(all: set<TfKlineLoader>) returns (feeders: seq<TfKlineLoader>)
    ensures multiset(feeders) == multiset(all)
  {
    feeders := [];
    var rest := all;
    while rest != {}
      invariant rest <= all && multiset(feeders) + multiset(rest) == multiset(all)
      decreases rest
    {
      ghost var some := Element(rest);
      var f :| f in rest;
      feeders := feeders + [f];
      assert multiset(rest) == multiset(rest - {f}) + multiset{f};
      rest := rest - {f};
    }
  }

  // ---------------------------------------------------------------- the run

  /** Feeders that are ready and differ in their symbols. */
  ghost predicate Cast(all: set<TfKlineLoader>)
    reads all
  {
    && (forall f :: f in all ==> Ready(f))
    && (forall f, g :: f in all && g in all && f != g ==> f.symbol != g.symbol)
  }

  ghost predicate HeldBySome(m: map<TfKlineLoader, set<Event>>, e: Event) {
    exists f :: f in m && e in m[f]
  }

  /** `left` is exactly what the feeders still have to deliver. */
  ghost predicate LeftIn(m: map<TfKlineLoader, set<Event>>, left: set<Event>) {
    && (forall f :: f in m ==> m[f] <= left)
    && (forall e :: e in left ==> HeldBySome(m, e))
  }

  ghost function Pendings(all: set<TfKlineLoader>): map<TfKlineLoader, set<Event>>
    requires Cast(all)
    reads all
  {
    map f | f in all :: Pending(f)
  }

  ghost predicate Left(all: set<TfKlineLoader>, left: set<Event>)
    requires Cast(all)
    reads all
  {
    LeftIn(Pendings(all), left)
  }

  /** The feeder at the front of the sorted list has the soonest event of all. */
  lemma FrontIsSoonest(holds: seq<TfKlineLoader>, all: set<TfKlineLoader>, e: Event)
    requires Cast(all) && Sorted(holds) && multiset(holds) == multiset(all) && holds != []
    requires HeldBySome(Pendings(all), e)
    ensures holds[0] in all && holds[0].Reading()
    ensures e == Due(holds[0]) || Sooner(Due(holds[0]), e)
  {
    var f :| f in all && e in Pending(f);
    assert f in multiset(holds);
    var k :| 0 <= k < |holds| && holds[k] == f;
    assert holds[0] in multiset(all);
    PendingEvent(f, e);
    if k > 0 {
      assert !FeederLess(f, holds[0]);
      ReadyShows(holds[0]);
      DueKey(holds[0]);
      if f != holds[0] {
        StrLessTotal(holds[0].symbol, f.symbol);
      }
    }
    DueKey(f);
  }

  /** When the feeder at the front has nothing left, no feeder has. */
  lemma FrontEmpty(holds: seq<TfKlineLoader>, all: set<TfKlineLoader>, left: set<Event>)
    requires Cast(all) && Left(all, left) && Sorted(holds) && multiset(holds) == multiset(all) && holds != []
    requires !holds[0].Reading()
    ensures left == {}
  {
    forall e | e in left ensures false {
      FrontIsSoonest(holds, all, e);
    }
  }

  lemma FrontFirst(holds: seq<TfKlineLoader>, all: set<TfKlineLoader>, left: set<Event>)
    requires Cast(all) && Left(all, left) && Sorted(holds) && multiset(holds) == multiset(all)
    requires holds != [] && holds[0].Reading() && holds[0] in all
    ensures Due(holds[0]) in left
    ensures forall e :: e in left ==> e == Due(holds[0]) || Sooner(Due(holds[0]), e)
  {
    ReadyFacts(holds[0]);
    assert Pendings(all)[holds[0]] <= left;
    forall e | e in left
      ensures e == Due(holds[0]) || Sooner(Due(holds[0]), e)
    {
      FrontIsSoonest(holds, all, e);
    }
  }

  /** Moves a feeder on behind the event it shows. */
  method CallNext(hold: TfKlineLoader, ghost ev: Event)
    requires Ready(hold) && hold.Reading() && ev == Due(hold)
    modifies hold
    ensures Ready(hold) && Pending(hold) == old(Pending(hold)) - {ev} && ev in old(Pending(hold))
  {
    hide AfterRefill, From, Past;
    StoredIsMarket(hold.table, hold.tf);
    PendStep(hold.table, hold.tf, hold.symbol, hold.Next(), hold.endMS);
    RefillKeeps(hold.Source(), hold.State(), Past(hold.endMS, hold.tf));
    hold.SetNext(Past(hold.endMS, hold.tf));
  }

  /** An event that one feeder alone holds leaves what is left when that feeder gives it up. */
  lemma Delivered(m: map<TfKlineLoader, set<Event>>, f: TfKlineLoader, ev: Event, left: set<Event>)
    requires LeftIn(m, left) && f in m && ev in m[f]
    requires forall g :: g in m && g != f ==> ev !in m[g]
    ensures LeftIn(m[f := m[f] - {ev}], left - {ev})
  {
    var m' := m[f := m[f] - {ev}];
    forall e | e in left - {ev} ensures HeldBySome(m', e) {
      var g :| g in m && e in m[g];
      assert e in m'[g];
    }
  }

  /** An event of one feeder is no event of another. */
  lemma OnlyOne(all: set<TfKlineLoader>, f: TfKlineLoader, ev: Event)
    requires Cast(all) && f in all && ev in Pending(f)
    ensures forall g :: g in all && g != f ==> ev !in Pending(g)
  {
    ReadyFacts(f);
    forall g | g in all && g != f ensures ev !in Pending(g) {
      ReadyFacts(g);
    }
  }

  /** What has been delivered so far and what is left, of everything that was pending at the start. */
  ghost predicate Halfway(total: set<Event>, log: seq<Event>, left: set<Event>) {
    && InOrder(log)
    && (forall e :: e in total <==> e in log || e in left)
    && (forall e, l :: e in log && l in left ==> Sooner(e, l))
  }

  lemma OneMore(total: set<Event>, log: seq<Event>, left: set<Event>, ev: Event)
    requires Halfway(total, log, left) && ev in left
    requires forall e :: e in left ==> e == ev || Sooner(ev, e)
    ensures Halfway(total, log + [ev], left - {ev})
  {
    forall i | 0 <= i < |log| ensures Sooner(log[i], ev) {
      assert log[i] in log;
    }
    forall e ensures e in total <==> e in log + [ev] || e in left - {ev} {}
  }

  function Appended(log: seq<Event>, e: Event): (r: seq<Event>)
    ensures |r| == |log| + 1 && r[|log|] == e && r == log + [e]
  {
    log + [e]
  }

  /** How a run came to its end. */
  datatype Outcome = Finished | Terminated | Failed

  /** The event of the bar that a feeder shows. */
  method ShownEvent(hold: TfKlineLoader) returns (event: Event)
    requires Ready(hold) && hold.Reading()
    ensures event == Due(hold)
  {
    var bar := hold.GetBar();
    event := Event(bar.value.time + hold.tf, hold.symbol, bar.value);
  }

  /** Puts the feeder that was delivered last back in its place, or sorts the whole cast. */
  method NextHolds(all: set<TfKlineLoader>, holds: seq<TfKlineLoader>, hold: TfKlineLoader?, anew: bool)
    returns (r: seq<TfKlineLoader>)
    requires all != {} && Sorted(holds)
    requires anew || (hold != null && multiset(holds) + multiset{hold} == multiset(all))
    ensures Sorted(r) && multiset(r) == multiset(all) && r != [] && r[0] in all
  {
    if anew {
      var feeders := MakeFeeders(all);
      r := SortFeeders(feeders);
    } else {
      r := InsertFeeder(holds, hold);
    }
    FrontIn(r, all);
  }

  /** Moves a feeder on; the others do not notice. */
  method CallNextAmong(front: TfKlineLoader, ghost others: set<TfKlineLoader>, ghost ev: Event)
    requires Cast(others) && front !in others && Ready(front) && front.Reading() && ev == Due(front)
    modifies front
    ensures Cast(others) && Pendings(others) == old(Pendings(others))
    ensures Ready(front) && Pending(front) == old(Pending(front)) - {ev}
  {
    CallNext(front, ev);
  }

  /** Moves a feeder of the cast on; what is left loses its event and nothing else. */
  method Advance(front: TfKlineLoader, ghost all: set<TfKlineLoader>, ghost ev: Event, ghost left: set<Event>)
    requires Cast(all) && Left(all, left) && front in all && front.Reading() && ev == Due(front)
    modifies front
    ensures Cast(all) && Left(all, left - {ev})
  {
    ghost var others := all - {front};
    ghost var held := Pending(front);
    DueHere(all, front, ev, left);
    CastSplit(all, front);
    ghost var m: map<TfKlineLoader, set<Event>> := Pendings(others);
    assert LeftIn(m[front := held][front := held - {ev}], left - {ev});
    CallNextAmong(front, others, ev);
    CastJoin(all, front);
    assert m[front := held][front := held - {ev}] == m[front := held - {ev}];
  }

  /** The event a feeder shows is held by it alone. */
  lemma DueHere(all: set<TfKlineLoader>, front: TfKlineLoader, ev: Event, left: set<Event>)
    requires Cast(all) && Left(all, left) && front in all && front.Reading() && ev == Due(front)
    ensures ev in Pending(front)
    ensures LeftIn(Pendings(all)[front := Pending(front) - {ev}], left - {ev})
  {
    ReadyFacts(front);
    OnlyOne(all, front, ev);
    Delivered(Pendings(all), front, ev, left);
  }

  /** A cast without one of its feeders. */
  lemma CastSplit(all: set<TfKlineLoader>, f: TfKlineLoader)
    requires Cast(all) && f in all
    ensures Cast(all - {f}) && Pendings(all) == Pendings(all - {f})[f := Pending(f)]
  {
  }

  lemma CastJoin(all: set<TfKlineLoader>, f: TfKlineLoader)
    requires f in all && Cast(all - {f}) && Ready(f) && forall g :: g in all && g != f ==> f.symbol != g.symbol
    ensures Cast(all) && Pendings(all) == Pendings(all - {f})[f := Pending(f)]
  {
    var others := all - {f};
    forall g | g in all ensures Ready(g) {
      assert g == f || g in others;
    }
    forall g, h | g in all && h in all && g != h ensures g.symbol != h.symbol {
      assert (g == f || g in others) && (h == f || h in others);
    }
  }

  lemma NextHalfway(all: set<TfKlineLoader>, holds: seq<TfKlineLoader>, total: set<Event>, log: seq<Event>,
                    left: set<Event>, event: Event)
    requires Cast(all) && Left(all, left) && Halfway(total, log, left)
    requires Sorted(holds) && multiset(holds) == multiset(all) && holds != [] && holds[0] in all && holds[0].Reading()
    requires event == Due(holds[0])
    ensures event in left && Halfway(total, log + [event], left - {event})
  {
    FrontFirst(holds, all, left);
    OneMore(total, log, left, event);
  }

  /** Delivers the event that a feeder shows while the other feeders wait in their order. */
  method Deliver(front: TfKlineLoader, ghost all: set<TfKlineLoader>, ghost rest: seq<TfKlineLoader>,
      ghost left: set<Event>)
    returns (event: Event)
    requires Cast(all) && Left(all, left) && front in all && front.Reading() && Sorted(rest) && front !in rest
    modifies front
    ensures event == old(Due(front)) && Cast(all) && Left(all, left - {event}) && Sorted(rest)
  {
    event := ShownEvent(front);
    Advance(front, all, event, left);
  }

  /** Before each of the first `n` bars no stop was asked for, and its callbacks succeeded. */
  ghost predicate Undisturbed(log: seq<Event>, n: int, version: nat -> int, handle: Event -> bool)
    requires n <= |log|
  {
    forall k :: 0 <= k < n ==> version(k) >= 0 && handle(log[k])
  }

  lemma Begins(total: set<Event>, version: nat -> int, handle: Event -> bool)
    ensures Halfway(total, [], total) && Undisturbed([], 0, version, handle)
  {
  }

  lemma NextUndisturbed(log: seq<Event>, e: Event, version: nat -> int, handle: Event -> bool)
    requires Undisturbed(log, |log|, version, handle) && version(|log|) >= 0
    ensures Undisturbed(Appended(log, e), |log|, version, handle)
    ensures handle(e) ==> Undisturbed(Appended(log, e), |log| + 1, version, handle)
  {
  }

  /**
   * Runs all feeders. `version(k)` is what the version channel yields before the k-th bar: zero for
   * nothing, a negative number to stop, and a number above the last one to collect the feeders anew.
   * `handle` runs the callbacks of a bar and tells whether they succeeded.
   */
  method RunHistFeeders(all: set<TfKlineLoader>, version: nat -> int, handle: Event -> bool, ghost total: set<Event>)
    returns (log: seq<Event>, outcome: Outcome, ghost left: set<Event>)
    requires all != {} && Cast(all) && Left(all, total)
    modifies all
    ensures Cast(all) && Left(all, left) && Halfway(total, log, left)
    ensures outcome.Finished? ==> left == {}
    ensures outcome.Terminated? ==> version(|log|) < 0
    ensures outcome.Failed? ==> log != [] && !handle(log[|log| - 1])
    ensures Undisturbed(log, if outcome.Failed? then |log| - 1 else |log|, version, handle)
    ensures outcome.Finished? ==> version(|log|) >= 0
  {
    hide Undisturbed, Halfway, Left, InOrder, Sooner, FeederLess;
    left, outcome := total, Finished;
    log := [];
    Begins(total, version, handle);
    var holds: seq<TfKlineLoader> := [];
    var hold: TfKlineLoader? := null;
    var oldVer := 0;
    while true
      invariant Cast(all) && Left(all, left) && Halfway(total, log, left)
      invariant Undisturbed(log, |log|, version, handle)
      invariant hold != null ==> multiset(holds) + multiset{hold} == multiset(all)
      invariant Sorted(holds)
      decreases left
    {
      var ver := version(|log|);
      if ver < 0 {
        outcome := Terminated;
        break;
      }
      var anew := ver > oldVer || hold == null;
      holds := NextHolds(all, holds, hold, anew);
      if anew {
        oldVer := Max(oldVer, ver);
      }
      hold := holds[0];
      if !hold.Shows() {
        FrontEmpty(holds, all, left);
        outcome := Finished;
        break;
      }
      RestSorted(holds, all);
      NextHalfway(all, holds, total, log, left, Due(hold));
      holds := holds[1..];
      var event := Deliver(hold, all, holds, left);
      NextUndisturbed(log, event, version, handle);
      log, left := Appended(log, event), left - {event};
      if !handle(event) {
        outcome := Failed;
        break;
      }
    }
  }

  /**
   * Runs from the same state deliver the same bars in the same order, whatever the order in which the
   * feeders are collected and however often: a run that stops early has delivered a prefix of the others.
   */
  lemma RunsAgree(total: set<Event>, a: seq<Event>, leftA: set<Event>, b: seq<Event>, leftB: set<Event>)
    requires Halfway(total, a, leftA) && Halfway(total, b, leftB) && leftB == {}
    ensures a <= b
    ensures leftA == {} ==> a == b
  {
    PrefixOf(a, b, leftA);
    if leftA == {} {
      PrefixOf(b, a, leftB);
    }
  }

  lemma FrontIn(holds: seq<TfKlineLoader>, all: set<TfKlineLoader>)
    requires multiset(holds) == multiset(all) && all != {}
    ensures holds != [] && holds[0] in all
  {
    var f := Element(all);
    assert f in multiset(holds);
    assert holds[0] in multiset(all);
  }

  /** The others stay sorted, and the front feeder is not among them. */
  lemma RestSorted(holds: seq<TfKlineLoader>, all: set<TfKlineLoader>)
    requires holds != [] && multiset(holds) == multiset(all)
    ensures multiset(holds[1..]) + multiset{holds[0]} == multiset(all)
    ensures holds[0] !in holds[1..]
    ensures Sorted(holds) ==> Sorted(holds[1..])
  {
    assert holds == [holds[0]] + holds[1..];
    assert multiset(all)[holds[0]] == 1;
  }
}
