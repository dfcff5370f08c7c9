/** The simulated path of the price inside a bar, and the time at which it reaches a price. */
module PricePath {
  import opened Bars

  const LAST_RATE: real := 0.999

  ghost predicate WellFormed(b: Bar) {
    b.low <= b.open <= b.high && b.low <= b.close <= b.high
  }

  predicate Rises(b: Bar) {
    b.open <= b.close
  }

  // The four stretches of the path: a small swing against the direction of the bar, the way to the
  // first extreme, the way to the other extreme, and the way to the close, which is drawn out by 30%.

  function Swing(b: Bar): real {
    if Rises(b) then (b.open - b.low) * 0.3 else (b.high - b.open) * 0.3
  }

  function First(b: Bar): real {
    if Rises(b) then b.open + Swing(b) - b.low else b.high - (b.open - Swing(b))
  }

  function Second(b: Bar): real {
    b.high - b.low
  }

  function Third(b: Bar): real {
    if Rises(b) then (b.high - b.close) * 1.3 else (b.close - b.low) * 1.3
  }

  function Total(b: Bar): real {
    First(b) + Second(b) + Third(b) + Swing(b)
  }

  // ---------------------------------------------------------------- from rate to price

  /** A point of the path, and the range that is left of the bar there. */
  datatype Point = Point(price: real, high: real, low: real)

  function Between(start: real, end: real, posRate: real): real {
    start * (1.0 - posRate) + end * posRate
  }

  /** The four stretches lead from p0 over p1, p2 and p3 to p4; the first three end at the given rates. */
  function Zigzag(p0: real, p1: real, p2: real, p3: real, p4: real,
                  paEnd: real, aEnd: real, bEnd: real, rate: real): real
    requires 0.0 < rate < LAST_RATE
  {
    if rate <= paEnd then Between(p0, p1, rate / paEnd)
    else if rate <= aEnd then Between(p1, p2, (rate - paEnd) / (aEnd - paEnd))
    else if rate <= bEnd then Between(p2, p3, (rate - aEnd) / (bEnd - aEnd))
    else Between(p3, p4, (rate - bEnd) / (1.0 - bEnd))
  }

  /** The price after a share `rate` of the bar's time, with the highest and lowest prices still to come. */
  function SimPriceByRate(b: Bar, rate: real): Point
    requires rate >= 0.0
  {
    if rate == 0.0 then Point(b.open, b.high, b.low)
    else if rate >= LAST_RATE || Total(b) == 0.0 then Point(b.close, b.high, b.low)
    else
      var pa, a, c := Swing(b), First(b), Total(b);
      var paEnd, aEnd, bEnd := pa / c, (pa + a) / c, (pa + a + Second(b)) / c;
      if Rises(b) then
        var price := Zigzag(b.open, b.open + pa, b.low, b.high, b.close, paEnd, aEnd, bEnd, rate);
        if rate <= paEnd || rate <= aEnd then Limited(price, b.high, b.low)
        else if rate <= bEnd then Limited(price, b.high, b.close)
        else Limited(price, b.close, b.close)
      else
        var price := Zigzag(b.open, b.open - pa, b.high, b.low, b.close, paEnd, aEnd, bEnd, rate);
        if rate <= paEnd || rate <= aEnd || rate <= bEnd then Limited(price, b.high, b.low)
        else Limited(price, b.close, b.close)
  }

  function Limited(price: real, high: real, low: real): Point {
    Point(price, MaxReal(price, high), MinReal(price, low))
  }

  function SimMarketPrice(b: Bar, rate: real): real
    requires rate >= 0.0
  {
    SimPriceByRate(b, rate).price
  }

  /** The part of a bar that is left from a rate on. */
  function CutKlineFromRate(k: Kline, tfMSecs: nat, rate: real): Kline
    requires rate >= 0.0
  {
    var p := SimPriceByRate(k.bar, rate);
    Kline(k.time + (tfMSecs as real * rate).Floor,
          Bar(p.price, p.high, p.low, k.bar.close, k.bar.volume * (1.0 - rate), k.bar.info))
  }

  // ---------------------------------------------------------------- from price to rate

  /** An order that is filled at once: outside the bar in trigger mode, at or beyond the open otherwise. */
  predicate Immediate(b: Bar, price: real, isBuy: bool, isTrigger: bool) {
    if isTrigger then price < b.low || price > b.high
    else (isBuy && price >= b.open) || (!isBuy && price <= b.open)
  }

  // The distance from the open at which each stretch passes a price.

  function SwingWay(b: Bar, price: real): real {
    if Rises(b) then price - b.open else b.open - price
  }

  function FirstWay(b: Bar, price: real): real {
    if Rises(b) then Swing(b) + b.open + Swing(b) - price else Swing(b) + price - b.open + Swing(b)
  }

  function SecondWay(b: Bar, price: real): real {
    Swing(b) + First(b) + if Rises(b) then price - b.low else b.high - price
  }

  function ThirdWay(b: Bar, price: real): real {
    Swing(b) + First(b) + Second(b) + if Rises(b) then b.high - price else price - b.low
  }

  /** The share of the bar's time after which an order at `price` is filled, not before `minRate` if that can be had. */
  function SimMarketRate(b: Bar, price: real, isBuy: bool, isTrigger: bool, minRate: real): real {
    if Immediate(b, price, isBuy, isTrigger) then minRate
    else if Total(b) == 0.0 then 0.5
    else
      var onSwing, onFirst := SwingWay(b, price) / Total(b), FirstWay(b, price) / Total(b);
      var onSecond, onThird := SecondWay(b, price) / Total(b), ThirdWay(b, price) / Total(b);
      if Rises(b) then
        if isTrigger then
          if b.open <= price <= b.open + Swing(b) && onSwing >= minRate then onSwing
          else if price < b.open && onFirst >= minRate then onFirst
          else if onSecond >= minRate then onSecond
          else onThird
        else if isBuy then
          if onFirst >= minRate then onFirst else onSecond
        else
          if onSecond >= minRate then onSecond else onThird
      else
        if (if isTrigger then price < b.open else isBuy) then
          if price >= b.open - Swing(b) && onSwing >= minRate then onSwing
          else if onSecond >= minRate then onSecond
          else onThird
        else
          if onFirst >= minRate then onFirst else onSecond
  }

  // ---------------------------------------------------------------- the path by distance

  function Toward(up: bool, start: real, way: real): real {
    if up then start + way else start - way
  }

  /** The price after a way `x` along the path; only the last stretch is not covered at full speed. */
  function PathAt(b: Bar, x: real): real {
    if Rises(b) then Way(true, b.open, b.low, b.high, Swing(b), First(b), Second(b), x)
    else Way(false, b.open, b.high, b.low, Swing(b), First(b), Second(b), x)
  }

  function Way(up: bool, p0: real, p2: real, p3: real, pa: real, a: real, s: real, x: real): real {
    if x <= pa then Toward(up, p0, x)
    else if x <= pa + a then Toward(!up, Toward(up, p0, pa), x - pa)
    else if x <= pa + a + s then Toward(up, p2, x - pa - a)
    else Toward(!up, p3, (x - pa - a - s) / 1.3)
  }

  lemma DivideCompare(r: real, x: real, t: real)
    requires t > 0.0
    ensures r <= x / t <==> r * t <= x
    ensures (x / t) * t == x
  {
  }

  lemma Lengths(b: Bar)
    requires WellFormed(b)
    ensures 0.0 <= Swing(b) <= First(b) && Second(b) >= 0.0 && Third(b) >= 0.0
    ensures Total(b) >= 0.0 && (Total(b) == 0.0 <==> b.high == b.low)
    ensures Swing(b) * 2.0 <= Total(b)
  {
  }

  /** The position within a stretch, times its length, is the distance from its beginning. */
  lemma Position(r: real, lo: real, len: real, t: real)
    requires t > 0.0 && len > 0.0
    ensures (lo + len) / t - lo / t != 0.0
    ensures (r - lo / t) / ((lo + len) / t - lo / t) * len == r * t - lo
  {
    var w := len / t;
    assert (lo + len) / t - lo / t == w;
    assert w * t == len;
    var p := (r - lo / t) / w;
    assert p * w == r - lo / t;
    assert p * len == p * w * t;
  }

  /** A share `p` of a stretch is covered at `speed` times the distance. */
  lemma BetweenAt(up: bool, start: real, len: real, p: real)
    ensures Between(start, Toward(up, start, len / 1.3), p) == Toward(up, start, p * len / 1.3)
    ensures Between(start, Toward(up, start, len), p) == Toward(up, start, p * len)
  {
  }

  /** On each stretch the simulated price is the path after the distance covered so far. */
  lemma Stretch(up: bool, start: real, r: real, lo: real, len: real, t: real)
    requires t > 0.0 && len > 0.0
    ensures (lo + len) / t - lo / t != 0.0
    ensures Between(start, Toward(up, start, len), (r - lo / t) / ((lo + len) / t - lo / t))
      == Toward(up, start, r * t - lo)
  {
    Position(r, lo, len, t);
    BetweenAt(up, start, len, (r - lo / t) / ((lo + len) / t - lo / t));
  }

  lemma FirstStretch(up: bool, start: real, r: real, len: real, t: real)
    requires t > 0.0 && len > 0.0
    ensures len / t != 0.0
    ensures Between(start, Toward(up, start, len), r / (len / t)) == Toward(up, start, r * t)
  {
    Stretch(up, start, r, 0.0, len, t);
    assert 0.0 / t == 0.0;
  }

  lemma LastStretch(up: bool, start: real, r: real, lo: real, len: real, t: real)
    requires t > 0.0 && len > 0.0 && lo + len == t
    ensures 1.0 - lo / t != 0.0
    ensures Between(start, Toward(up, start, len / 1.3), (r - lo / t) / (1.0 - lo / t))
      == Toward(up, start, (r * t - lo) / 1.3)
  {
    Position(r, lo, len, t);
    assert t / t == 1.0;
    BetweenAt(up, start, len, (r - lo / t) / (1.0 - lo / t));
  }

  lemma BelowOne(r: real, t: real)
    requires t > 0.0 && 0.0 < r < 1.0
    ensures 0.0 < r * t < t
  {
  }

  lemma SwingLeg(up: bool, p0: real, p2: real, p3: real, p4: real, pa: real, a: real, s: real, t: real, r: real)
    requires pa >= 0.0 && a >= 0.0 && s >= 0.0 && t >= pa + a + s && t > 0.0 && 0.0 < r < LAST_RATE
    requires r <= pa / t
    ensures Zigzag(p0, Toward(up, p0, pa), p2, p3, p4, pa / t, (pa + a) / t, (pa + a + s) / t, r)
         == Way(up, p0, p2, p3, pa, a, s, r * t)
  {
    BelowOne(r, t);
    DivideCompare(r, pa, t);
    FirstStretch(up, p0, r, pa, t);
  }

  lemma FirstLeg(up: bool, p0: real, p2: real, p3: real, p4: real, pa: real, a: real, s: real, t: real, r: real)
    requires pa >= 0.0 && a >= 0.0 && s >= 0.0 && t >= pa + a + s && t > 0.0 && 0.0 < r < LAST_RATE
    requires pa / t < r <= (pa + a) / t && p2 == Toward(!up, Toward(up, p0, pa), a)
    ensures Zigzag(p0, Toward(up, p0, pa), p2, p3, p4, pa / t, (pa + a) / t, (pa + a + s) / t, r)
         == Way(up, p0, p2, p3, pa, a, s, r * t)
  {
    BelowOne(r, t);
    DivideCompare(r, pa, t);
    DivideCompare(r, pa + a, t);
    Stretch(!up, Toward(up, p0, pa), r, pa, a, t);
  }

  lemma SecondLeg(up: bool, p0: real, p2: real, p3: real, p4: real, pa: real, a: real, s: real, t: real, r: real)
    requires pa >= 0.0 && a >= 0.0 && s >= 0.0 && t >= pa + a + s && t > 0.0 && 0.0 < r < LAST_RATE
    requires pa / t < r && (pa + a) / t < r <= (pa + a + s) / t && p3 == Toward(up, p2, s)
    ensures Zigzag(p0, Toward(up, p0, pa), p2, p3, p4, pa / t, (pa + a) / t, (pa + a + s) / t, r)
         == Way(up, p0, p2, p3, pa, a, s, r * t)
  {
    BelowOne(r, t);
    DivideCompare(r, pa, t);
    DivideCompare(r, pa + a, t);
    DivideCompare(r, pa + a + s, t);
    Stretch(up, p2, r, pa + a, s, t);
  }

  lemma ThirdLeg(up: bool, p0: real, p2: real, p3: real, p4: real, pa: real, a: real, s: real, t: real, r: real)
    requires pa >= 0.0 && a >= 0.0 && s >= 0.0 && t >= pa + a + s && t > 0.0 && 0.0 < r < LAST_RATE
    requires pa / t < r && (pa + a) / t < r && (pa + a + s) / t < r && p4 == Toward(!up, p3, (t - (pa + a + s)) / 1.3)
    ensures Zigzag(p0, Toward(up, p0, pa), p2, p3, p4, pa / t, (pa + a) / t, (pa + a + s) / t, r)
         == Way(up, p0, p2, p3, pa, a, s, r * t)
  {
    BelowOne(r, t);
    DivideCompare(r, pa, t);
    DivideCompare(r, pa + a, t);
    DivideCompare(r, pa + a + s, t);
    LastStretch(!up, p3, r, pa + a + s, t - (pa + a + s), t);
  }

  lemma ZigzagIsWay(up: bool, p0: real, p2: real, p3: real, p4: real, pa: real, a: real, s: real, t: real, r: real)
    requires pa >= 0.0 && a >= 0.0 && s >= 0.0 && t >= pa + a + s && t > 0.0 && 0.0 < r < LAST_RATE
    requires p2 == Toward(!up, Toward(up, p0, pa), a) && p3 == Toward(up, p2, s)
      && p4 == Toward(!up, p3, (t - (pa + a + s)) / 1.3)
    ensures Zigzag(p0, Toward(up, p0, pa), p2, p3, p4, pa / t, (pa + a) / t, (pa + a + s) / t, r)
         == Way(up, p0, p2, p3, pa, a, s, r * t)
  {
    if r <= pa / t {
      SwingLeg(up, p0, p2, p3, p4, pa, a, s, t, r);
    } else if r <= (pa + a) / t {
      FirstLeg(up, p0, p2, p3, p4, pa, a, s, t, r);
    } else if r <= (pa + a + s) / t {
      SecondLeg(up, p0, p2, p3, p4, pa, a, s, t, r);
    } else {
      ThirdLeg(up, p0, p2, p3, p4, pa, a, s, t, r);
    }
  }

  lemma SimIsZigzag(b: Bar, r: real)
    requires WellFormed(b) && b.high > b.low && 0.0 < r < LAST_RATE
    ensures var pa, a, s, t := Swing(b), First(b), Second(b), Total(b);
      t != 0.0 &&
      SimMarketPrice(b, r) ==
        if Rises(b) then
          Zigzag(b.open, Toward(true, b.open, pa), b.low, b.high, b.close, pa / t, (pa + a) / t, (pa + a + s) / t, r)
        else
          Zigzag(b.open, Toward(false, b.open, pa), b.high, b.low, b.close, pa / t, (pa + a) / t, (pa + a + s) / t, r)
  {
    Lengths(b);
  }

  lemma Corners(b: Bar)
    requires WellFormed(b)
    ensures var pa, a, s, c := Swing(b), First(b), Second(b), (Total(b) - (Swing(b) + First(b) + Second(b))) / 1.3;
      if Rises(b) then
        b.low == Toward(false, Toward(true, b.open, pa), a) && b.high == Toward(true, b.low, s)
          && b.close == Toward(false, b.high, c)
      else
        b.high == Toward(true, Toward(false, b.open, pa), a) && b.low == Toward(false, b.high, s)
          && b.close == Toward(true, b.low, c)
    ensures Total(b) >= Swing(b) + First(b) + Second(b)
  {
  }

  lemma SimIsWay(b: Bar, r: real, pa: real, a: real, s: real, t: real, d: real)
    requires WellFormed(b) && b.high > b.low && 0.0 < r < LAST_RATE && d == r * t
    requires pa == Swing(b) && a == First(b) && s == Second(b) && t == Total(b)
    ensures SimMarketPrice(b, r) == if Rises(b) then Way(true, b.open, b.low, b.high, pa, a, s, d)
                                    else Way(false, b.open, b.high, b.low, pa, a, s, d)
  {
    Lengths(b);
    Corners(b);
    SimIsZigzag(b, r);
    if Rises(b) {
      ZigzagIsWay(true, b.open, b.low, b.high, b.close, pa, a, s, t, r);
    } else {
      ZigzagIsWay(false, b.open, b.high, b.low, b.close, pa, a, s, t, r);
    }
  }

  /** The simulated price is the path at the distance `d` that the rate stands for. */
  lemma SimIsPath(b: Bar, r: real, d: real)
    requires WellFormed(b) && b.high > b.low && 0.0 <= r < LAST_RATE && d == r * Total(b)
    ensures SimMarketPrice(b, r) == PathAt(b, d)
  {
    if r > 0.0 {
      SimIsWay(b, r, Swing(b), First(b), Second(b), Total(b), d);
    } else {
      PathBegins(b, d);
    }
  }

  lemma PathBegins(b: Bar, d: real)
    requires WellFormed(b) && d == 0.0
    ensures PathAt(b, d) == b.open
  {
    Lengths(b);
  }

  // ---------------------------------------------------------------- there and back again

  ghost predicate Inside(b: Bar, price: real) {
    WellFormed(b) && b.high > b.low && b.low <= price <= b.high
  }

  predicate OnSwing(b: Bar, price: real) {
    if Rises(b) then b.open <= price <= b.open + Swing(b) else b.open - Swing(b) <= price < b.open
  }

  predicate OnFirst(b: Bar, price: real) {
    if Rises(b) then price < b.open else b.open <= price
  }

  ghost predicate Passes(b: Bar, price: real, d: real) {
    || (d == SwingWay(b, price) && OnSwing(b, price))
    || (d == FirstWay(b, price) && OnFirst(b, price))
    || d == SecondWay(b, price)
    || d == ThirdWay(b, price)
  }

  /** The orders for which the last stretch, on the way back to the close, is considered. */
  predicate ComesBack(b: Bar, price: real, isBuy: bool, isTrigger: bool) {
    if isTrigger then Rises(b) || price < b.open else Rises(b) != isBuy
  }

  /** The distance behind the chosen rate belongs to a stretch that passes the price. */
  lemma Chosen(b: Bar, price: real, isBuy: bool, isTrigger: bool, minRate: real) returns (d: real)
    requires Inside(b, price) && !Immediate(b, price, isBuy, isTrigger)
    ensures Total(b) > 0.0 && d / Total(b) == SimMarketRate(b, price, isBuy, isTrigger, minRate) && d >= 0.0
    ensures d == ThirdWay(b, price) ==>
      || d == SecondWay(b, price)
      || (ComesBack(b, price, isBuy, isTrigger) && SecondWay(b, price) / Total(b) < minRate)
    ensures Passes(b, price, d)
  {
    Lengths(b);
    var r := SimMarketRate(b, price, isBuy, isTrigger, minRate);
    var c := Total(b);
    d := if r == SwingWay(b, price) / c && OnSwing(b, price) then SwingWay(b, price)
         else if r == FirstWay(b, price) / c && OnFirst(b, price) then FirstWay(b, price)
         else if r == SecondWay(b, price) / c then SecondWay(b, price)
         else ThirdWay(b, price);
  }

  lemma RisingPasses(b: Bar, price: real, d: real)
    requires Inside(b, price) && Passes(b, price, d) && Rises(b)
    ensures PathAt(b, d) == price <==> d <= Swing(b) + First(b) + Second(b)
  {
    Lengths(b);
  }

  lemma FallingPasses(b: Bar, price: real, d: real)
    requires Inside(b, price) && Passes(b, price, d) && !Rises(b)
    ensures PathAt(b, d) == price <==> d <= Swing(b) + First(b) + Second(b)
  {
    Lengths(b);
  }

  /** Every stretch but the last passes the price at the distance computed for it. */
  lemma PathPasses(b: Bar, price: real, d: real)
    requires Inside(b, price) && Passes(b, price, d)
    ensures PathAt(b, d) == price <==> d <= Swing(b) + First(b) + Second(b)
  {
    if Rises(b) {
      RisingPasses(b, price, d);
    } else {
      FallingPasses(b, price, d);
    }
  }

  lemma PassesEarly(b: Bar, price: real, d: real)
    requires Inside(b, price) && Passes(b, price, d)
    ensures d != ThirdWay(b, price) || d == SecondWay(b, price) ==> d <= Swing(b) + First(b) + Second(b)
  {
    Lengths(b);
  }

  lemma DivideBack(d: real, c: real, r: real)
    requires c > 0.0 && d >= 0.0 && d / c == r
    ensures r >= 0.0 && d == r * c
  {
  }

  lemma DivideOrder(d: real, e: real, c: real)
    requires c > 0.0
    ensures d / c <= e / c <==> d <= e
  {
    DivideCompare(d / c, e, c);
    DivideCompare(d / c, d, c);
  }

  /** The rate at which the last stretch begins. */
  function LastBegins(b: Bar): real
    requires Total(b) != 0.0
  {
    (Swing(b) + First(b) + Second(b)) / Total(b)
  }

  lemma SecondIsLate(b: Bar, price: real, minRate: real)
    requires Inside(b, price) && Total(b) > 0.0 && SecondWay(b, price) / Total(b) < minRate
    ensures minRate > 0.0
  {
    Lengths(b);
    DivideOrder(0.0, SecondWay(b, price), Total(b));
  }

  lemma FillsAt(b: Bar, price: real, r: real, d: real)
    requires Inside(b, price) && Passes(b, price, d) && Total(b) > 0.0 && d >= 0.0 && d / Total(b) == r && r < LAST_RATE
    ensures r >= 0.0
    ensures SimMarketPrice(b, r) == price <==> d <= Swing(b) + First(b) + Second(b)
  {
    DivideBack(d, Total(b), r);
    SimIsPath(b, r, d);
    PathPasses(b, price, d);
  }

  lemma InTime(b: Bar, r: real, d: real)
    requires Total(b) > 0.0 && d >= 0.0 && d / Total(b) == r
    ensures r >= 0.0
    ensures r <= LastBegins(b) <==> d <= Swing(b) + First(b) + Second(b)
  {
    DivideBack(d, Total(b), r);
    DivideOrder(d, Swing(b) + First(b) + Second(b), Total(b));
  }

  lemma OnTime(b: Bar, price: real, d: real, minRate: real)
    requires Inside(b, price) && Passes(b, price, d) && Total(b) > 0.0 && minRate <= 0.0
    requires d == ThirdWay(b, price) ==> d == SecondWay(b, price) || SecondWay(b, price) / Total(b) < minRate
    ensures d <= Swing(b) + First(b) + Second(b)
  {
    if d == ThirdWay(b, price) && d != SecondWay(b, price) {
      SecondIsLate(b, price, minRate);
    }
    PassesEarly(b, price, d);
  }

  lemma WaysInOrder(b: Bar, price: real)
    requires Inside(b, price)
    ensures Total(b) > 0.0 && SecondWay(b, price) <= ThirdWay(b, price)
    ensures OnSwing(b, price) ==> SwingWay(b, price) <= SecondWay(b, price)
    ensures OnFirst(b, price) ==> FirstWay(b, price) <= SecondWay(b, price)
  {
    Lengths(b);
  }

  /**
   * The rises to the price and the first way down to it are over before `minRate`, and the way back is not the same
   * point.
   */
  predicate TooLate(b: Bar, price: real, isBuy: bool, isTrigger: bool, minRate: real)
    requires Total(b) != 0.0
  {
    && ComesBack(b, price, isBuy, isTrigger)
    && SecondWay(b, price) / Total(b) < minRate && SecondWay(b, price) < ThirdWay(b, price)
  }

  lemma TakesThird(b: Bar, price: real, isBuy: bool, isTrigger: bool, minRate: real, d: real)
    requires Inside(b, price) && !Immediate(b, price, isBuy, isTrigger) && Total(b) > 0.0
    requires TooLate(b, price, isBuy, isTrigger, minRate)
    requires d / Total(b) == SimMarketRate(b, price, isBuy, isTrigger, minRate)
    ensures d == ThirdWay(b, price) && d > Swing(b) + First(b) + Second(b)
  {
    WaysInOrder(b, price);
    DivideOrder(SwingWay(b, price), SecondWay(b, price), Total(b));
    DivideOrder(FirstWay(b, price), SecondWay(b, price), Total(b));
    SameWay(d, ThirdWay(b, price), Total(b));
    ThirdIsBeyond(b, price);
  }

  lemma ThirdIsBeyond(b: Bar, price: real)
    requires Inside(b, price)
    ensures ThirdWay(b, price) > Swing(b) + First(b) + Second(b) <==> SecondWay(b, price) < ThirdWay(b, price)
  {
  }

  lemma SameWay(d: real, e: real, c: real)
    requires c > 0.0 && d / c == e / c
    ensures d == e
  {
    DivideOrder(d, e, c);
    DivideOrder(e, d, c);
  }

  /**
   * An order is simulated to fill at its own price, unless only the way back to the close is late enough for it;
   * with no earliest rate it never is. That is so if and only if its rate is not on the last stretch.
   */
  lemma RoundTrip(b: Bar, price: real, isBuy: bool, isTrigger: bool, minRate: real, r: real)
    requires Inside(b, price) && !Immediate(b, price, isBuy, isTrigger)
    requires r == SimMarketRate(b, price, isBuy, isTrigger, minRate)
    ensures r >= 0.0 && Total(b) > 0.0
    ensures r < LAST_RATE ==> (SimMarketPrice(b, r) == price <==> !TooLate(b, price, isBuy, isTrigger, minRate))
    ensures r >= LAST_RATE ==> SimMarketPrice(b, r) == b.close
    ensures r <= LastBegins(b) <==> !TooLate(b, price, isBuy, isTrigger, minRate)
    ensures minRate <= 0.0 ==> !TooLate(b, price, isBuy, isTrigger, minRate)
  {
    var d := Chosen(b, price, isBuy, isTrigger, minRate);
    InTime(b, r, d);
    if TooLate(b, price, isBuy, isTrigger, minRate) {
      TakesThird(b, price, isBuy, isTrigger, minRate, d);
      SecondIsLate(b, price, minRate);
    } else {
      PassesInTime(b, price, isBuy, isTrigger, minRate, d);
    }
    if r < LAST_RATE {
      FillsAt(b, price, r, d);
    }
  }

  lemma PassesInTime(b: Bar, price: real, isBuy: bool, isTrigger: bool, minRate: real, d: real)
    requires Inside(b, price) && Passes(b, price, d) && Total(b) > 0.0
    requires !TooLate(b, price, isBuy, isTrigger, minRate)
    requires d == ThirdWay(b, price) ==>
      || d == SecondWay(b, price)
      || (ComesBack(b, price, isBuy, isTrigger) && SecondWay(b, price) / Total(b) < minRate)
    ensures d <= Swing(b) + First(b) + Second(b)
  {
    WaysInOrder(b, price);
    PassesEarly(b, price, d);
  }

  /** A limit order to sell at 15, not before half of the bar, is simulated to fill above 16. */
  lemma LateOrderMissesPrice()
    ensures var b := Bar(10.0, 20.0, 10.0, 10.0, 0.0, 0.0);
      && Inside(b, 15.0) && !Immediate(b, 15.0, false, false)
      && SimMarketRate(b, 15.0, false, false, 0.5) == 15.0 / 23.0
      && SimMarketPrice(b, 15.0 / 23.0) > 16.0
  {
    var b := Bar(10.0, 20.0, 10.0, 10.0, 0.0, 0.0);
    SimIsPath(b, 15.0 / 23.0, 15.0);
  }

  lemma NearClose(b: Bar, price: real, d: real)
    requires Inside(b, price) && Passes(b, price, d) && LAST_RATE * Total(b) <= d <= Swing(b) + First(b) + Second(b)
    ensures -0.001 * Total(b) <= b.close - price <= 0.001 * Total(b)
  {
    Lengths(b);
  }

  lemma LateWay(d: real, c: real, r: real)
    requires c > 0.0 && d / c == r && r >= LAST_RATE
    ensures d >= LAST_RATE * c
  {
  }

  /**
   * From 99.9% of the bar's time on, the fill is at the close, off the price by no more than what is left of the
   * path.
   */
  lemma LateFill(b: Bar, price: real, isBuy: bool, isTrigger: bool, r: real)
    requires Inside(b, price) && !Immediate(b, price, isBuy, isTrigger)
    requires r == SimMarketRate(b, price, isBuy, isTrigger, 0.0) && r >= LAST_RATE
    ensures SimMarketPrice(b, r) == b.close
    ensures -0.001 * Total(b) <= SimMarketPrice(b, r) - price <= 0.001 * Total(b)
  {
    var d := Chosen(b, price, isBuy, isTrigger, 0.0);
    OnTime(b, price, d, 0.0);
    LateWay(d, Total(b), r);
    NearClose(b, price, d);
  }

  // ---------------------------------------------------------------- the first time

  lemma WaysNotNegative(b: Bar, price: real)
    requires Inside(b, price)
    ensures Total(b) > 0.0 && SecondWay(b, price) / Total(b) >= 0.0 && SecondWay(b, price) >= 0.0
    ensures OnSwing(b, price) ==> SwingWay(b, price) / Total(b) >= 0.0 && SwingWay(b, price) >= 0.0
    ensures OnFirst(b, price) ==> FirstWay(b, price) / Total(b) >= 0.0 && FirstWay(b, price) >= 0.0
  {
    Lengths(b);
    DivideOrder(0.0, SwingWay(b, price), Total(b));
    DivideOrder(0.0, FirstWay(b, price), Total(b));
    DivideOrder(0.0, SecondWay(b, price), Total(b));
  }

  /** With no earliest rate, only a limit order to sell on a rising bar skips the swing. */
  function EarliestWay(b: Bar, price: real, isBuy: bool, isTrigger: bool): real {
    if Rises(b) && !isTrigger && !isBuy then SecondWay(b, price)
    else if OnSwing(b, price) then SwingWay(b, price)
    else if OnFirst(b, price) then FirstWay(b, price)
    else SecondWay(b, price)
  }

  lemma Earliest(b: Bar, price: real, isBuy: bool, isTrigger: bool) returns (d: real)
    requires Inside(b, price) && !Immediate(b, price, isBuy, isTrigger)
    ensures Total(b) > 0.0 && d >= 0.0 && d / Total(b) == SimMarketRate(b, price, isBuy, isTrigger, 0.0)
    ensures d == EarliestWay(b, price, isBuy, isTrigger)
  {
    WaysNotNegative(b, price);
    d := EarliestWay(b, price, isBuy, isTrigger);
  }

  /** The two cases in which the path has the price before the order is filled there. */
  predicate PassedBefore(b: Bar, price: real, isBuy: bool, isTrigger: bool) {
    if Rises(b) then !isTrigger && !isBuy && price <= b.open + Swing(b)
    else isTrigger && price == b.open && b.open < b.high
  }

  lemma NotOnTheWay(b: Bar, price: real, isBuy: bool, isTrigger: bool, x: real)
    requires Inside(b, price) && !Immediate(b, price, isBuy, isTrigger) && !PassedBefore(b, price, isBuy, isTrigger)
    requires 0.0 <= x < EarliestWay(b, price, isBuy, isTrigger)
    ensures PathAt(b, x) != price
  {
    Lengths(b);
  }

  lemma WayOfEarlier(b: Bar, e: real, r: real, d: real)
    requires Total(b) > 0.0 && d / Total(b) == r && 0.0 <= e < r
    ensures 0.0 <= e * Total(b) < d
  {
    DivideCompare(e, d, Total(b));
    DivideCompare(r, d, Total(b));
  }

  /** No earlier rate has the price of the order, except in the two cases above, in which some earlier rate does. */
  lemma FirstHit(b: Bar, price: real, isBuy: bool, isTrigger: bool, r: real)
    requires Inside(b, price) && !Immediate(b, price, isBuy, isTrigger)
    requires r == SimMarketRate(b, price, isBuy, isTrigger, 0.0) && r < LAST_RATE
    ensures (exists e :: 0.0 <= e < r && SimMarketPrice(b, e) == price) <==> PassedBefore(b, price, isBuy, isTrigger)
  {
    if PassedBefore(b, price, isBuy, isTrigger) {
      var e := PassedAt(b, price, isBuy, isTrigger, r);
    } else {
      forall e | 0.0 <= e < r
        ensures SimMarketPrice(b, e) != price
      {
        NotPassedAt(b, price, isBuy, isTrigger, r, e);
      }
    }
  }

  lemma NotPassedAt(b: Bar, price: real, isBuy: bool, isTrigger: bool, r: real, e: real)
    requires Inside(b, price) && !Immediate(b, price, isBuy, isTrigger) && !PassedBefore(b, price, isBuy, isTrigger)
    requires r == SimMarketRate(b, price, isBuy, isTrigger, 0.0) && 0.0 <= e < r < LAST_RATE
    ensures SimMarketPrice(b, e) != price
  {
    var d := Earliest(b, price, isBuy, isTrigger);
    WayOfEarlier(b, e, r, d);
    var x := e * Total(b);
    SimIsPath(b, e, x);
    NotOnTheWay(b, price, isBuy, isTrigger, x);
  }

  lemma PassedAt(b: Bar, price: real, isBuy: bool, isTrigger: bool, r: real) returns (e: real)
    requires Inside(b, price) && !Immediate(b, price, isBuy, isTrigger) && PassedBefore(b, price, isBuy, isTrigger)
    requires r == SimMarketRate(b, price, isBuy, isTrigger, 0.0) && r < LAST_RATE
    ensures 0.0 <= e < r && SimMarketPrice(b, e) == price
  {
    var d := Earliest(b, price, isBuy, isTrigger);
    var x := if Rises(b) then price - b.open else 0.0;
    assert 0.0 <= x < d && PathAt(b, x) == price by {
      Lengths(b);
    }
    DivideOrder(d, x, Total(b));
    e := x / Total(b);
    DivideBack(x, Total(b), e);
    SimIsPath(b, e, x);
  }

  /**
   * A sell at 11 fills on the way up from the low, though the swing has the price; a trigger at the open fills after
   * it.
   */
  lemma PassedUnfilled()
    ensures var b := Bar(10.0, 20.0, 0.0, 15.0, 0.0, 0.0);
      && Inside(b, 11.0) && !Immediate(b, 11.0, false, false) && PassedBefore(b, 11.0, false, false)
      && SimMarketRate(b, 11.0, false, false, 0.0) == 27.0 / 42.5 && SimMarketPrice(b, 1.0 / 42.5) == 11.0
    ensures var b := Bar(10.0, 20.0, 0.0, 5.0, 0.0, 0.0);
      && Inside(b, 10.0) && !Immediate(b, 10.0, true, true) && PassedBefore(b, 10.0, true, true)
      && SimMarketRate(b, 10.0, true, true, 0.0) == 6.0 / 42.5 && SimMarketPrice(b, 0.0) == 10.0
  {
    SimIsPath(Bar(10.0, 20.0, 0.0, 15.0, 0.0, 0.0), 1.0 / 42.5, 1.0);
  }

  // ---------------------------------------------------------------- the first time from an earliest rate on

  /** The orders that may be filled on the swing, and those that may be filled on the way to the first extreme. */
  predicate TakesSwing(b: Bar, price: real, isBuy: bool, isTrigger: bool) {
    OnSwing(b, price) && (if Rises(b) then isTrigger else isTrigger || isBuy)
  }

  predicate TakesFirst(b: Bar, price: real, isBuy: bool, isTrigger: bool) {
    if Rises(b) then (if isTrigger then price < b.open else isBuy) else (if isTrigger then price >= b.open else !isBuy)
  }

  /** The way that is chosen when the ways before `m` are over. */
  function ChosenWay(b: Bar, price: real, isBuy: bool, isTrigger: bool, m: real): real {
    if TakesSwing(b, price, isBuy, isTrigger) && SwingWay(b, price) >= m then SwingWay(b, price)
    else if TakesFirst(b, price, isBuy, isTrigger) && FirstWay(b, price) >= m then FirstWay(b, price)
    else if SecondWay(b, price) >= m || !ComesBack(b, price, isBuy, isTrigger) then SecondWay(b, price)
    else ThirdWay(b, price)
  }

  lemma NotBefore(minRate: real, x: real, t: real, m: real)
    requires t > 0.0 && m == minRate * t
    ensures x / t >= minRate <==> x >= m
  {
    DivideCompare(minRate, x, t);
  }

  lemma ChosenFrom(b: Bar, price: real, isBuy: bool, isTrigger: bool, minRate: real, t: real, m: real)
    requires Inside(b, price) && !Immediate(b, price, isBuy, isTrigger)
    requires t == Total(b) > 0.0 && m == minRate * t
    ensures SimMarketRate(b, price, isBuy, isTrigger, minRate) == ChosenWay(b, price, isBuy, isTrigger, m) / t
  {
    hide SwingWay, FirstWay, SecondWay, ThirdWay, Swing, Total;
    NotBefore(minRate, SwingWay(b, price), t, m);
    NotBefore(minRate, FirstWay(b, price), t, m);
    NotBefore(minRate, SecondWay(b, price), t, m);
  }

  /** The path has the price once more before it is at the chosen way, and not before `m`. */
  predicate PassedAgain(b: Bar, price: real, isBuy: bool, isTrigger: bool, m: real) {
    if Rises(b) then
      OnSwing(b, price) && (if isTrigger then SwingWay(b, price) < m else !isBuy) && FirstWay(b, price) >= m
    else
      || (OnSwing(b, price) && (isTrigger || isBuy) && SwingWay(b, price) < m && FirstWay(b, price) >= m)
      || (isTrigger && price == b.open && b.open < b.high && m <= 0.0)
  }

  lemma NotOnTheWayFrom(b: Bar, price: real, isBuy: bool, isTrigger: bool, m: real, x: real)
    requires Inside(b, price) && !Immediate(b, price, isBuy, isTrigger)
    requires !PassedAgain(b, price, isBuy, isTrigger, m)
    requires 0.0 <= m <= x < ChosenWay(b, price, isBuy, isTrigger, m)
    ensures PathAt(b, x) != price
  {
    Lengths(b);
  }

  /** Where the path has the price once more. */
  function AgainWay(b: Bar, price: real, m: real): real {
    if OnSwing(b, price) && FirstWay(b, price) >= m then FirstWay(b, price) else 0.0
  }

  lemma PassedAgainAt(b: Bar, price: real, isBuy: bool, isTrigger: bool, m: real)
    requires Inside(b, price) && !Immediate(b, price, isBuy, isTrigger) && m >= 0.0
    requires PassedAgain(b, price, isBuy, isTrigger, m)
    ensures m <= AgainWay(b, price, m) < ChosenWay(b, price, isBuy, isTrigger, m)
    ensures PathAt(b, AgainWay(b, price, m)) == price
  {
    Lengths(b);
  }

  lemma RateOfWay(x: real, t: real, minRate: real, m: real, d: real)
    requires t > 0.0 && m == minRate * t && m <= x < d
    ensures minRate <= x / t < d / t && (x / t) * t == x
  {
    NotBefore(minRate, x, t, m);
    DivideOrder(d, x, t);
    DivideCompare(x / t, x, t);
  }

  lemma WayOfRate(e: real, t: real, minRate: real, m: real, d: real)
    requires t > 0.0 && m == minRate * t && minRate <= e < d / t
    ensures m <= e * t < d
  {
    DivideCompare(e, d, t);
    assert (e - minRate) * t >= 0.0;
  }

  /**
   * From the earliest rate on no rate before the chosen one has the price, except where the path leads back over its
   * swing, which is then over as far as the order is concerned.
   */
  lemma FirstHitFrom(b: Bar, price: real, isBuy: bool, isTrigger: bool, minRate: real, m: real, r: real)
    requires Inside(b, price) && !Immediate(b, price, isBuy, isTrigger) && minRate >= 0.0 && m == minRate * Total(b)
    requires r == SimMarketRate(b, price, isBuy, isTrigger, minRate) && r < LAST_RATE
    ensures (exists e :: minRate <= e < r && SimMarketPrice(b, e) == price) <==>
      PassedAgain(b, price, isBuy, isTrigger, m)
  {
    hide ChosenWay, PassedAgain, SimMarketRate, SimMarketPrice, PathAt, Immediate;
    Lengths(b);
    var t := Total(b);
    NotNegativeWay(minRate, t, m);
    ChosenFrom(b, price, isBuy, isTrigger, minRate, t, m);
    if PassedAgain(b, price, isBuy, isTrigger, m) {
      var e := AgainRate(b, price, isBuy, isTrigger, minRate, t, m, r);
    } else {
      forall e | minRate <= e < r ensures SimMarketPrice(b, e) != price {
        NotAgainAt(b, price, isBuy, isTrigger, minRate, t, m, r, e, e * t);
      }
    }
  }

  lemma NotNegativeWay(minRate: real, t: real, m: real)
    requires minRate >= 0.0 && t >= 0.0 && m == minRate * t
    ensures m >= 0.0
  {
  }

  lemma NotAgainAt(b: Bar, price: real, isBuy: bool, isTrigger: bool, minRate: real, t: real, m: real, r: real, e: real,
                   x: real)
    requires Inside(b, price) && !Immediate(b, price, isBuy, isTrigger) && 0.0 <= minRate <= e < r < LAST_RATE
    requires t == Total(b) > 0.0 && m == minRate * t && m >= 0.0 && !PassedAgain(b, price, isBuy, isTrigger, m)
    requires r == ChosenWay(b, price, isBuy, isTrigger, m) / t && x == e * t
    ensures SimMarketPrice(b, e) != price
  {
    hide ChosenWay, PassedAgain, SimMarketPrice, PathAt, Immediate, Total;
    WayOfRate(e, t, minRate, m, ChosenWay(b, price, isBuy, isTrigger, m));
    SimIsPath(b, e, x);
    NotOnTheWayFrom(b, price, isBuy, isTrigger, m, x);
  }

  lemma AgainRate(b: Bar, price: real, isBuy: bool, isTrigger: bool, minRate: real, t: real, m: real, r: real)
    returns (e: real)
    requires Inside(b, price) && !Immediate(b, price, isBuy, isTrigger) && minRate >= 0.0 && m >= 0.0
    requires t == Total(b) > 0.0 && m == minRate * t && PassedAgain(b, price, isBuy, isTrigger, m)
    requires r == ChosenWay(b, price, isBuy, isTrigger, m) / t && r < LAST_RATE
    ensures minRate <= e < r && SimMarketPrice(b, e) == price
  {
    var x := AgainWay(b, price, m);
    PassedAgainAt(b, price, isBuy, isTrigger, m);
    RateOfWay(x, t, minRate, m, ChosenWay(b, price, isBuy, isTrigger, m));
    e := x / t;
    SimIsPath(b, e, x);
  }

  /**
   * A trigger at 11 that may not be filled before a way of 2 is filled after a way of 27, though the path has its price
   * after a way of 5, on the way back over the swing.
   */
  lemma PassedOnTheWayBack()
    ensures var b := Bar(10.0, 20.0, 0.0, 15.0, 0.0, 0.0);
      && Inside(b, 11.0) && !Immediate(b, 11.0, true, true) && Total(b) == 42.5 && PassedAgain(b, 11.0, true, true, 2.0)
      && SimMarketRate(b, 11.0, true, true, 2.0 / 42.5) == 27.0 / 42.5 && SimMarketPrice(b, 5.0 / 42.5) == 11.0
  {
    SimIsPath(Bar(10.0, 20.0, 0.0, 15.0, 0.0, 0.0), 5.0 / 42.5, 5.0);
  }

  // ---------------------------------------------------------------- a bar without a range

  /**
   * A bar of one single price has no way. Every order for it that is not filled at once is dated to its middle, a limit
   * order too that the price never reaches, and is filled at the price of the bar.
   */
  lemma FlatBar(b: Bar, price: real, isBuy: bool, isTrigger: bool, minRate: real)
    requires WellFormed(b) && b.high == b.low && minRate >= 0.0
    ensures Total(b) == 0.0
    ensures var rate := SimMarketRate(b, price, isBuy, isTrigger, minRate);
      && rate == (if Immediate(b, price, isBuy, isTrigger) then minRate else 0.5)
      && SimMarketPrice(b, rate) == b.open
    ensures Immediate(b, price, isBuy, isTrigger) <==>
      if isTrigger then price != b.open else if isBuy then b.open <= price else price <= b.open
  {
  }

  // ---------------------------------------------------------------- not before the earliest rate

  /** The way of the last stretch that is considered for an order. */
  function LastChance(b: Bar, price: real, isBuy: bool, isTrigger: bool): real {
    if ComesBack(b, price, isBuy, isTrigger) then ThirdWay(b, price) else SecondWay(b, price)
  }

  /**
   * The rate keeps to the earliest one asked for, if and only if the last stretch considered passes the price after
   * it.
   */
  lemma KeepsMinRate(b: Bar, price: real, isBuy: bool, isTrigger: bool, minRate: real)
    requires Inside(b, price) && !Immediate(b, price, isBuy, isTrigger)
    ensures Total(b) > 0.0
    ensures SimMarketRate(b, price, isBuy, isTrigger, minRate) >= minRate <==>
      LastChance(b, price, isBuy, isTrigger) / Total(b) >= minRate
  {
    WaysInOrder(b, price);
    DivideOrder(SwingWay(b, price), SecondWay(b, price), Total(b));
    DivideOrder(FirstWay(b, price), SecondWay(b, price), Total(b));
    DivideOrder(SecondWay(b, price), ThirdWay(b, price), Total(b));
  }

  // ---------------------------------------------------------------- the bar that is left

  /**
   * The range left of the bar at `price`, of which the low comes first on a rising bar and the high on a falling one.
   */
  function Left(b: Bar, price: real, firstDone: bool, secondDone: bool): Point {
    if !firstDone then Limited(price, b.high, b.low)
    else if !secondDone then Limited(price, b.high, if Rises(b) then b.close else b.low)
    else Limited(price, b.close, b.close)
  }

  lemma LeftByRate(b: Bar, r: real)
    requires WellFormed(b) && b.high > b.low && 0.0 < r < LAST_RATE
    ensures Total(b) > 0.0
    ensures SimPriceByRate(b, r) == Left(b, SimMarketPrice(b, r), r > (Swing(b) + First(b)) / Total(b),
      r > LastBegins(b))
  {
    Lengths(b);
    DivideOrder(Swing(b), Swing(b) + First(b), Total(b));
    DivideOrder(Swing(b) + First(b), Swing(b) + First(b) + Second(b), Total(b));
  }

  /** The prices still to come, as the cut bar has them, after a way `x`. */
  function RangeAt(b: Bar, x: real): Point {
    Left(b, PathAt(b, x), x > Swing(b) + First(b), x > Swing(b) + First(b) + Second(b))
  }

  lemma SimRange(b: Bar, r: real, d: real)
    requires WellFormed(b) && b.high > b.low && 0.0 <= r < LAST_RATE && d == r * Total(b)
    ensures SimPriceByRate(b, r) == RangeAt(b, d)
  {
    Lengths(b);
    SimIsPath(b, r, d);
    if r > 0.0 {
      LeftByRate(b, r);
      Compared(b, r, d);
    }
  }

  lemma Compared(b: Bar, r: real, d: real)
    requires Total(b) > 0.0 && d == r * Total(b)
    ensures r > (Swing(b) + First(b)) / Total(b) <==> d > Swing(b) + First(b)
    ensures r > LastBegins(b) <==> d > Swing(b) + First(b) + Second(b)
  {
    var t, e, f := Total(b), Swing(b) + First(b), Swing(b) + First(b) + Second(b);
    DivideCompare(r, e, t);
    DivideCompare(r, f, t);
  }

  ghost predicate SwingInside(b: Bar) {
    if Rises(b) then b.open + Swing(b) <= b.high else b.open - Swing(b) >= b.low
  }

  lemma RisingRest(b: Bar, x: real, y: real)
    requires WellFormed(b) && Rises(b) && 0.0 <= x <= y <= Total(b) && (x >= Swing(b) || SwingInside(b))
    ensures RangeAt(b, x).low <= PathAt(b, y) <= RangeAt(b, x).high
  {
    Lengths(b);
  }

  lemma FallingRest(b: Bar, x: real, y: real)
    requires WellFormed(b) && !Rises(b) && 0.0 <= x <= y <= Total(b) && (x >= Swing(b) || SwingInside(b))
    ensures RangeAt(b, x).low <= PathAt(b, y) <= RangeAt(b, x).high
  {
    Lengths(b);
  }

  lemma CloseInRange(b: Bar, r: real)
    requires WellFormed(b) && 0.0 <= r
    ensures var p := SimPriceByRate(b, r); p.low <= p.price <= p.high && p.low <= b.close <= p.high
  {
    if b.high > b.low && 0.0 < r < LAST_RATE {
      LeftByRate(b, r);
    }
  }

  lemma WayOfRates(r: real, e: real, t: real, x: real, y: real)
    requires t > 0.0 && 0.0 <= r <= e < LAST_RATE && x == r * t && y == e * t
    ensures 0.0 <= x <= y <= t
  {
  }

  lemma RestAt(b: Bar, r: real, e: real, x: real, y: real)
    requires WellFormed(b) && b.high > b.low && 0.0 <= r < LAST_RATE && 0.0 <= e < LAST_RATE
    requires x == r * Total(b) && y == e * Total(b) && 0.0 <= x <= y <= Total(b) && (x >= Swing(b) || SwingInside(b))
    ensures var p := SimPriceByRate(b, r); p.low <= SimMarketPrice(b, e) <= p.high
  {
    SimRange(b, r, x);
    SimIsPath(b, e, y);
    if Rises(b) {
      RisingRest(b, x, y);
    } else {
      FallingRest(b, x, y);
    }
  }

  /** After a way `x` the swing is over, or else it stays inside the bar. */
  ghost predicate SwingHarmless(b: Bar, x: real) {
    x >= Swing(b) || SwingInside(b)
  }

  lemma RestInRange(b: Bar, r: real, e: real, x: real)
    requires WellFormed(b) && 0.0 <= r <= e && x == r * Total(b) && SwingHarmless(b, x)
    ensures var p := SimPriceByRate(b, r); p.low <= SimMarketPrice(b, e) <= p.high
  {
    Lengths(b);
    if b.high > b.low && e < LAST_RATE {
      var y := e * Total(b);
      WayOfRates(r, e, Total(b), x, y);
      RestAt(b, r, e, x, y);
    } else {
      CloseInRange(b, r);
    }
  }

  lemma SwingEnd(b: Bar) returns (e: real)
    requires WellFormed(b) && b.high > b.low
    ensures 0.0 <= e < LAST_RATE && Swing(b) == e * Total(b)
  {
    Lengths(b);
    e := Swing(b) / Total(b);
    DivideBack(Swing(b), Total(b), e);
    SwingIsEarly(Swing(b), Total(b), e);
  }

  lemma SwingOutside(b: Bar, x: real)
    requires WellFormed(b) && 0.0 <= x < Swing(b) && !SwingInside(b)
    ensures !(RangeAt(b, x).low <= PathAt(b, Swing(b)) <= RangeAt(b, x).high)
  {
    Lengths(b);
  }

  lemma EarlierRate(r: real, e: real, x: real, y: real, t: real)
    requires t > 0.0 && 0.0 <= r && x == r * t && y == e * t && x < y
    ensures 0.0 <= x && r <= e
  {
  }

  lemma SwingLeaves(b: Bar, r: real, x: real) returns (e: real)
    requires WellFormed(b) && b.high > b.low && 0.0 <= r && x == r * Total(b) && !SwingHarmless(b, x)
    ensures var p := SimPriceByRate(b, r); r <= e && !(p.low <= SimMarketPrice(b, e) <= p.high)
  {
    Lengths(b);
    e := SwingEnd(b);
    EarlierRate(r, e, x, Swing(b), Total(b));
    SimRange(b, r, x);
    SimIsPath(b, e, Swing(b));
    SwingOutside(b, x);
  }

  lemma SwingIsEarly(s: real, t: real, e: real)
    requires t > 0.0 && s * 2.0 <= t && s == e * t
    ensures e < LAST_RATE
  {
  }

  lemma HarmlessPoint(b: Bar, x: real)
    requires WellFormed(b) && !SwingHarmless(b, x)
    ensures b.high > b.low
  {
    Lengths(b);
  }

  /** The bar cut at `rate` holds every price from there on. */
  ghost predicate HoldsRest(k: Kline, tfMSecs: nat, rate: real)
    requires rate >= 0.0
  {
    forall e :: e >= rate ==> WithinCut(k, tfMSecs, rate, e)
  }

  ghost predicate WithinCut(k: Kline, tfMSecs: nat, rate: real, e: real)
    requires 0.0 <= rate <= e
  {
    var cut := CutKlineFromRate(k, tfMSecs, rate).bar;
    cut.low <= SimMarketPrice(k.bar, e) <= cut.high
  }

  lemma RestIsHeld(k: Kline, tfMSecs: nat, rate: real, x: real)
    requires WellFormed(k.bar) && 0.0 <= rate && x == rate * Total(k.bar) && SwingHarmless(k.bar, x)
    ensures HoldsRest(k, tfMSecs, rate)
  {
    forall e | e >= rate
      ensures WithinCut(k, tfMSecs, rate, e)
    {
      RestInRange(k.bar, rate, e, x);
    }
  }

  lemma RestIsLost(k: Kline, tfMSecs: nat, rate: real, x: real)
    requires WellFormed(k.bar) && 0.0 <= rate && x == rate * Total(k.bar) && !SwingHarmless(k.bar, x)
    ensures !HoldsRest(k, tfMSecs, rate)
  {
    HarmlessPoint(k.bar, x);
    var e := SwingLeaves(k.bar, rate, x);
    assert !WithinCut(k, tfMSecs, rate, e);
  }

  /**
   * The bar that is cut opens at the price of the path, closes as before, has the volume of the rest of the time, and
   * begins after the whole milliseconds of the time that is over.
   */
  lemma CutContents(k: Kline, tfMSecs: nat, rate: real)
    requires rate >= 0.0
    ensures var cut := CutKlineFromRate(k, tfMSecs, rate);
      && cut.bar.open == SimMarketPrice(k.bar, rate) && cut.bar.close == k.bar.close && cut.bar.info == k.bar.info
      && k.bar.volume - cut.bar.volume == rate * k.bar.volume
      && (cut.time - k.time) as real <= tfMSecs as real * rate < (cut.time - k.time) as real + 1.0
  {
    var cut := CutKlineFromRate(k, tfMSecs, rate);
    RestOfVolume(k.bar.volume, rate, cut.bar.volume);
    WholeMillis(tfMSecs as real * rate, cut.time - k.time);
  }

  lemma RestOfVolume(volume: real, rate: real, left: real)
    requires left == volume * (1.0 - rate)
    ensures volume - left == rate * volume
  {
  }

  lemma WholeMillis(x: real, n: int)
    requires n == x.Floor
    ensures n as real <= x < n as real + 1.0
  {
  }

  /** The cut bar is well formed. */
  lemma CutWellFormed(k: Kline, tfMSecs: nat, rate: real)
    requires WellFormed(k.bar) && 0.0 <= rate
    ensures WellFormed(CutKlineFromRate(k, tfMSecs, rate).bar)
  {
    CloseInRange(k.bar, rate);
  }

  /**
   * A cut bar holds the rest of the path, unless the swing is still on and leaves the bar. `x` is the way at the
   * rate.
   */
  lemma CutSound(k: Kline, tfMSecs: nat, rate: real, x: real)
    requires WellFormed(k.bar) && 0.0 <= rate && x == rate * Total(k.bar)
    ensures HoldsRest(k, tfMSecs, rate) <==> x >= Swing(k.bar) || SwingInside(k.bar)
  {
    if SwingHarmless(k.bar, x) {
      RestIsHeld(k, tfMSecs, rate, x);
    } else {
      RestIsLost(k, tfMSecs, rate, x);
    }
  }

  lemma SwingPeak(b: Bar) returns (e: real)
    requires WellFormed(b) && b.high > b.low && Rises(b)
    ensures 0.0 <= e < LAST_RATE && SimMarketPrice(b, e) == b.open + Swing(b)
  {
    e := SwingEnd(b);
    SimIsPath(b, e, Swing(b));
    Lengths(b);
  }

  /**
   * A rising bar whose swing goes beyond its high has a price there, which the whole bar, cut at its start, does not
   * hold.
   */
  lemma SwingLeavesBar(k: Kline, tfMSecs: nat) returns (e: real)
    requires WellFormed(k.bar) && k.bar.high > k.bar.low && Rises(k.bar) && k.bar.open + Swing(k.bar) > k.bar.high
    ensures 0.0 <= e < LAST_RATE && SimMarketPrice(k.bar, e) > k.bar.high == CutKlineFromRate(k, tfMSecs, 0.0).bar.high
    ensures !HoldsRest(k, tfMSecs, 0.0)
  {
    e := SwingPeak(k.bar);
    CutSound(k, tfMSecs, 0.0, 0.0);
  }

  /** Such a bar opens and closes at its high. */
  lemma SwingBeyondHigh(b: Bar)
    requires b == Bar(10.0, 10.0, 0.0, 10.0, 0.0, 0.0)
    ensures WellFormed(b) && b.high > b.low && Rises(b) && b.open + Swing(b) == 13.0 > b.high
  {
  }

  lemma DescentRest(b: Bar, x: real, y: real)
    requires WellFormed(b) && !Rises(b) && Swing(b) + First(b) < x <= y <= Total(b)
    ensures PathAt(b, y) <= MaxReal(PathAt(b, x), b.close)
  {
    Lengths(b);
  }

  lemma DescentBelow(b: Bar, x: real)
    requires WellFormed(b) && !Rises(b) && Swing(b) + First(b) < x <= Swing(b) + First(b) + Second(b)
    ensures b.low <= PathAt(b, x) < b.high && b.close < b.high
  {
    Lengths(b);
  }

  lemma DescentInside(b: Bar, rate: real, e: real, x: real, y: real)
    requires WellFormed(b) && !Rises(b) && 0.0 <= rate <= e < LAST_RATE && x == rate * Total(b) && y == e * Total(b)
    ensures b.high > b.low && 0.0 <= x <= y <= Total(b)
  {
    Lengths(b);
    WayOfRates(rate, e, Total(b), x, y);
  }

  lemma DescentRange(b: Bar, rate: real, e: real, x: real, y: real)
    requires WellFormed(b) && !Rises(b) && 0.0 <= rate <= e < LAST_RATE && x == rate * Total(b) && y == e * Total(b)
    requires Swing(b) + First(b) < x <= Swing(b) + First(b) + Second(b)
    ensures var p := SimPriceByRate(b, rate);
      p.high == b.high && SimMarketPrice(b, e) <= MaxReal(p.price, b.close) && MaxReal(p.price, b.close) < b.high
  {
    DescentInside(b, rate, e, x, y);
    DescentBelow(b, x);
    SimRange(b, rate, x);
    SimIsPath(b, e, y);
    DescentRest(b, x, y);
  }

  /** On the descent of a falling bar the cut keeps the whole high, though neither price nor close comes back to it. */
  lemma DescentKeepsHigh(k: Kline, tfMSecs: nat, rate: real, e: real, x: real, y: real)
    requires WellFormed(k.bar) && !Rises(k.bar) && 0.0 <= rate <= e < LAST_RATE
    requires x == rate * Total(k.bar) && y == e * Total(k.bar)
    requires Swing(k.bar) + First(k.bar) < x <= Swing(k.bar) + First(k.bar) + Second(k.bar)
    ensures var cut := CutKlineFromRate(k, tfMSecs, rate).bar;
      && cut.high == k.bar.high
      && SimMarketPrice(k.bar, e) <= MaxReal(cut.open, cut.close)
      && MaxReal(cut.open, cut.close) < k.bar.high
  {
    DescentRange(k.bar, rate, e, x, y);
  }

  /** The path comes to `price` on the rest from a way `x` on. */
  ghost predicate StillComes(b: Bar, x: real, price: real) {
    exists y :: x <= y <= Total(b) && PathAt(b, y) == price
  }

  /** The descent of a falling bar from its high to its low. */
  predicate Descends(b: Bar, x: real) {
    !Rises(b) && Swing(b) + First(b) < x <= Swing(b) + First(b) + Second(b)
  }

  lemma LowComes(b: Bar, x: real)
    requires WellFormed(b) && b.high > b.low && 0.0 <= x <= Total(b)
    ensures StillComes(b, x, RangeAt(b, x).low)
  {
    Lengths(b);
    var y := if RangeAt(b, x).low == PathAt(b, x) then x
             else if Rises(b) then (if x <= Swing(b) + First(b) then Swing(b) + First(b) else Total(b))
             else Swing(b) + First(b) + Second(b);
    assert x <= y <= Total(b) && PathAt(b, y) == RangeAt(b, x).low;
  }

  lemma HighComes(b: Bar, x: real)
    requires WellFormed(b) && b.high > b.low && 0.0 <= x <= Total(b) && !Descends(b, x)
    ensures StillComes(b, x, RangeAt(b, x).high)
  {
    Lengths(b);
    var y := if RangeAt(b, x).high == PathAt(b, x) then x
             else if !Rises(b) then (if x <= Swing(b) + First(b) then Swing(b) + First(b) else Total(b))
             else Swing(b) + First(b) + Second(b);
    assert x <= y <= Total(b) && PathAt(b, y) == RangeAt(b, x).high;
  }

  lemma HighIsOver(b: Bar, x: real)
    requires WellFormed(b) && b.high > b.low && 0.0 <= x <= Total(b) && Descends(b, x)
    ensures !StillComes(b, x, RangeAt(b, x).high)
  {
    DescentBelow(b, x);
    forall y | x <= y <= Total(b) ensures PathAt(b, y) != RangeAt(b, x).high {
      DescentRest(b, x, y);
    }
  }

  lemma WayWithin(rate: real, t: real, x: real)
    requires 0.0 <= rate < LAST_RATE && t >= 0.0 && x == rate * t
    ensures 0.0 <= x <= t
  {
  }

  /**
   * The cut bar is no wider than the rest of the path: its low is still to come, and so is its high, if and only if the
   * bar is not a falling one on its descent.
   */
  lemma CutTight(k: Kline, tfMSecs: nat, rate: real, x: real)
    requires WellFormed(k.bar) && k.bar.high > k.bar.low && 0.0 <= rate < LAST_RATE && x == rate * Total(k.bar)
    ensures StillComes(k.bar, x, CutKlineFromRate(k, tfMSecs, rate).bar.low)
    ensures StillComes(k.bar, x, CutKlineFromRate(k, tfMSecs, rate).bar.high) <==> !Descends(k.bar, x)
  {
    Lengths(k.bar);
    WayWithin(rate, Total(k.bar), x);
    SimRange(k.bar, rate, x);
    LowComes(k.bar, x);
    if Descends(k.bar, x) {
      HighIsOver(k.bar, x);
    } else {
      HighComes(k.bar, x);
    }
  }

  // ---------------------------------------------------------------- orders that wait

  lemma EveryPriceComes(b: Bar, price: real)
    requires Inside(b, price)
    ensures StillComes(b, 0.0, price)
  {
    Lengths(b);
    var y := SecondWay(b, price);
    assert 0.0 <= y <= Total(b) && PathAt(b, y) == price;
  }

  lemma NothingElseComes(b: Bar, price: real)
    requires WellFormed(b) && b.high > b.low && SwingInside(b) && !(b.low <= price <= b.high)
    ensures !StillComes(b, 0.0, price)
  {
    forall y | 0.0 <= y <= Total(b) ensures PathAt(b, y) != price {
      if Rises(b) {
        RisingRest(b, 0.0, y);
      } else {
        FallingRest(b, 0.0, y);
      }
    }
  }

  /**
   * A trigger that is not filled at once has its price on the path. When the swing stays inside the bar, it waits if
   * and only if that is so; a limit order waits if and only if the opening price is worse than its own.
   */
  lemma WaitsExactly(b: Bar, price: real, isBuy: bool)
    requires WellFormed(b) && b.high > b.low
    ensures !Immediate(b, price, isBuy, true) ==> StillComes(b, 0.0, price)
    ensures SwingInside(b) ==> (!Immediate(b, price, isBuy, true) <==> StillComes(b, 0.0, price))
    ensures !Immediate(b, price, isBuy, false) <==> if isBuy then b.open > price else b.open < price
  {
    if b.low <= price <= b.high {
      EveryPriceComes(b, price);
    } else if SwingInside(b) {
      NothingElseComes(b, price);
    }
  }
}
