/** Half-open time ranges in milliseconds. */
module Spans {
  import opened Basics

  datatype Span = Span(start: int, stop: int)

  predicate Within(t: int, s: Span) {
    s.start <= t < s.stop
  }

  /** `t` lies in one of the spans. */
  ghost predicate Covers(ss: seq<Span>, t: int) {
    exists i :: 0 <= i < |ss| && Within(t, ss[i])
  }

  /** `t` lies in a span at index `from` or later. */
  ghost predicate CoversFrom(ss: seq<Span>, from: nat, t: int) {
    exists i :: from <= i < |ss| && Within(t, ss[i])
  }

  /** No span starts before an earlier one stops; spans that touch or are empty are allowed. */
  ghost predicate Ordered(ss: seq<Span>) {
    forall i, j :: 0 <= i < j < |ss| ==> ss[i].start <= ss[j].start && ss[i].stop <= ss[j].start
  }

  /** Starts never decrease and no span is inverted. */
  ghost predicate ByStart(ss: seq<Span>) {
    && (forall i, j :: 0 <= i < j < |ss| ==> ss[i].start <= ss[j].start)
    && (forall i :: 0 <= i < |ss| ==> ss[i].start <= ss[i].stop)
  }

  lemma CoversCons(s: Span, ss: seq<Span>, t: int)
    ensures Covers([s] + ss, t) <==> Within(t, s) || Covers(ss, t)
  {
    var all := [s] + ss;
    if Within(t, s) {
      assert Within(t, all[0]);
    }
    if Covers(ss, t) {
      var i :| 0 <= i < |ss| && Within(t, ss[i]);
      assert Within(t, all[i + 1]);
    }
  }

  lemma CoversConcat(a: seq<Span>, b: seq<Span>, t: int)
    ensures Covers(a + b, t) <==> Covers(a, t) || Covers(b, t)
  {
    if Covers(a, t) {
      var i :| 0 <= i < |a| && Within(t, a[i]);
      assert Within(t, (a + b)[i]);
    }
    if Covers(b, t) {
      var i :| 0 <= i < |b| && Within(t, b[i]);
      assert Within(t, (a + b)[|a| + i]);
    }
  }

  /** Concatenation keeps the order when a time separates the two lists. */
  lemma OrderedConcat(a: seq<Span>, b: seq<Span>, m: int)
    requires Ordered(a) && Ordered(b)
    requires forall i :: 0 <= i < |a| ==> a[i].start <= m && a[i].stop <= m
    requires forall i :: 0 <= i < |b| ==> m <= b[i].start
    ensures Ordered(a + b)
  {
  }
}
