/** The price-move circuit breaker over a bounded, time-limited window of recent trade prices. */
module Circuit {
  import opened Decimals

  const MAX_SAMPLES: nat := 10_000

  datatype Sample = Sample(price: Decimal, time: int)

  // ----- The window as a value: samples, oldest first -----

  /** Drop samples from the old end while they are before `cutoff`. */
  function DropStale(w: seq<Sample>, cutoff: int): seq<Sample> {
    if w == [] || w[0].time >= cutoff then w else DropStale(w[1..], cutoff)
  }

  /** At most the newest MAX_SAMPLES. */
  function Newest(w: seq<Sample>): seq<Sample> {
    if |w| > MAX_SAMPLES then w[|w| - MAX_SAMPLES..] else w
  }

  function Record(w: seq<Sample>, s: Sample, duration: int): seq<Sample> {
    DropStale(Newest(w + [s]), s.time - duration)
  }

  /** The window after every sample of `h` was added, since the last reset. */
  function After(h: seq<Sample>, duration: int): seq<Sample> {
    if h == [] then [] else Record(After(h[..|h| - 1], duration), h[|h| - 1], duration)
  }

  // ----- The circular buffer -----

  /** Where the `k`-th oldest of `size` samples before `head` is stored. */
  function Slot(head: int, size: int, k: int): int {
    (head - size + k + MAX_SAMPLES) % MAX_SAMPLES
  }

  /** One sample fewer: everything moves up by one. */
  lemma Shift(head: int, size: int)
    ensures forall k :: Slot(head, size, k) == Slot(head, size + 1, k + 1)
  {
  }

  /** One sample more: it lands where the head was, over the oldest when the buffer was full. */
  lemma AfterPut(head: int, size: int, k: int)
    requires 0 <= head < MAX_SAMPLES && 0 <= size <= MAX_SAMPLES
    requires 0 <= k < if size < MAX_SAMPLES then size + 1 else size
    ensures var h, n := (head + 1) % MAX_SAMPLES, if size < MAX_SAMPLES then size + 1 else size;
            var j := if size < MAX_SAMPLES then k else k + 1;
            && 0 <= Slot(h, n, k) < MAX_SAMPLES
            && (k == n - 1 ==> Slot(h, n, k) == head)
            && (k < n - 1 ==> Slot(h, n, k) == Slot(head, size, j) && Slot(h, n, k) != head)
  {
  }

  class RollingWindow {
    const buffer: array<Sample>
    var head: int
    var size: int
    const duration: int

    ghost predicate Valid()
      reads this
    {
      buffer.Length == MAX_SAMPLES && 0 <= head < MAX_SAMPLES && 0 <= size <= MAX_SAMPLES
    }

    ghost function Contents(): (s: seq<Sample>)
      requires Valid()
      reads this, buffer
      ensures |s| == size
    {
      var n, h, b := size, head, buffer[..];
      seq(n, k requires 0 <= k < n => b[Slot(h, n, k)])
    }

    constructor (duration: int)
      ensures Valid() && Contents() == [] && this.duration == duration && fresh(buffer)
    {
      buffer := new Sample[MAX_SAMPLES](_ => Sample(Decimal(0, 0), 0));
      head, size, this.duration := 0, 0, duration;
    }

    method Put(price: Decimal, now: int)
      requires Valid()
      modifies `head, `size, buffer
      ensures Valid() && Contents() == Newest(old(Contents()) + [Sample(price, now)])
      ensures head == old(head + 1) % MAX_SAMPLES
    {
      hide Slot;
      ghost var was := Contents();
      buffer[head] := Sample(price, now);
      head := (head + 1) % MAX_SAMPLES;
      if size < MAX_SAMPLES {
        size := size + 1;
      }
      ghost var want := Newest(was + [Sample(price, now)]);
      forall k | 0 <= k < size
        ensures Contents()[k] == want[k]
      {
        AfterPut(old(head), old(size), k);
      }
      assert Contents() == want;
    }

    /** Record a price and evict what has fallen out of the window. */
    method Add(price: Decimal, now: int)
      requires Valid()
      modifies `head, `size, buffer
      ensures Valid() && Contents() == Record(old(Contents()), Sample(price, now), duration)
    {
      Put(price, now);
      var cutoff := now - duration;
      ghost var all, h := Contents(), head;
      while size > 0
        invariant Valid() && head == h
        invariant DropStale(all, cutoff) == DropStale(Contents(), cutoff)
      {
        var oldestIdx := Slot(head, size, 0);
        assert buffer[oldestIdx] == Contents()[0];
        if buffer[oldestIdx].time >= cutoff {
          break;
        }
        ghost var was := Contents();
        size := size - 1;
        Shift(head, size);
        assert Contents() == was[1..];
      }
    }

    /** The oldest price still in the window. */
    method OldestPrice() returns (price: Decimal, ok: bool)
      requires Valid()
      ensures ok == (Contents() != []) && (ok ==> price == Contents()[0].price)
    {
      if size == 0 {
        return Decimal(0, 2), false;
      }
      var idx := Slot(head, size, 0);
      assert buffer[idx] == Contents()[0];
      price, ok := buffer[idx].price, true;
    }

    /** The price added last. */
    method NewestPrice() returns (price: Decimal, ok: bool)
      requires Valid()
      ensures ok == (Contents() != []) && (ok ==> price == Contents()[|Contents()| - 1].price)
    {
      if size == 0 {
        return Decimal(0, 2), false;
      }
      var idx := (head - 1 + MAX_SAMPLES) % MAX_SAMPLES;
      assert idx == Slot(head, size, size - 1);
      assert buffer[idx] == Contents()[size - 1];
      price, ok := buffer[idx].price, true;
    }

    method Reset()
      requires Valid()
      modifies `head, `size
      ensures Valid() && Contents() == []
    {
      head, size := 0, 0;
    }
  }

  // ----- What the window holds -----

  /** Timestamps never decrease. */
  ghost predicate Ordered(h: seq<Sample>) {
    forall i, j :: 0 <= i < j < |h| ==> h[i].time <= h[j].time
  }

  lemma {:induction false} DropStaleFrom(h: seq<Sample>, from: nat, cutoff: int) returns (k: nat)
    requires Ordered(h) && from <= |h|
    ensures from <= k <= |h| && DropStale(h[from..], cutoff) == h[k..]
    ensures forall i :: from <= i < |h| ==> (i >= k <==> h[i].time >= cutoff)
    decreases |h| - from
  {
    k := from;
    if from < |h| && h[from].time < cutoff {
      assert h[from..][1..] == h[from + 1..];
      k := DropStaleFrom(h, from + 1, cutoff);
    }
  }

  /** With non-decreasing timestamps the window is, in order, exactly those of the last MAX_SAMPLES
      additions that are not older than `duration` before the newest. */
  lemma {:induction false} WindowHolds(h: seq<Sample>, duration: int) returns (k: nat)
    requires Ordered(h)
    ensures k <= |h| && After(h, duration) == h[k..] && Kept(h, duration, k)
  {
    if h == [] {
      k := 0;
    } else {
      var j := WindowHolds(h[..|h| - 1], duration);
      k := KeptNext(h, duration, j);
    }
  }

  /** From the `k`-th on, and only from there, samples of `h` are recent enough and not displaced. */
  ghost predicate Kept(h: seq<Sample>, duration: int, k: int) {
    forall i :: 0 <= i < |h| ==> (i >= k <==> i >= |h| - MAX_SAMPLES && h[i].time >= h[|h| - 1].time - duration)
  }

  lemma KeptNext(h: seq<Sample>, duration: int, j: nat) returns (k: nat)
    requires h != [] && Ordered(h) && j < |h| && Kept(h[..|h| - 1], duration, j)
    requires After(h[..|h| - 1], duration) == h[..|h| - 1][j..]
    ensures k <= |h| && After(h, duration) == h[k..] && Kept(h, duration, k)
  {
    hide DropStale, Ordered, Kept, After, Newest;
    var cut := if |h| - j > MAX_SAMPLES then |h| - j - MAX_SAMPLES else 0;
    k := DropStaleFrom(h, j + cut, h[|h| - 1].time - duration);
    AfterNext(h, duration, j, cut);
    KeptFront(h, duration, j);
    KeptIndex(h, duration, j, cut, k);
  }

  lemma AfterNext(h: seq<Sample>, duration: int, j: nat, cut: nat)
    requires h != [] && j < |h| && After(h[..|h| - 1], duration) == h[..|h| - 1][j..]
    requires cut == if |h| - j > MAX_SAMPLES then |h| - j - MAX_SAMPLES else 0
    ensures After(h, duration) == DropStale(h[j + cut..], h[|h| - 1].time - duration)
  {
    hide DropStale, After;
    AfterLast(h, duration);
    LastSlice(h, j);
    SliceSlice(h, j, cut);
  }

  lemma AfterLast(h: seq<Sample>, duration: int)
    requires h != []
    ensures After(h, duration) == Record(After(h[..|h| - 1], duration), h[|h| - 1], duration)
  {
  }

  lemma LastSlice(h: seq<Sample>, j: nat)
    requires j < |h|
    ensures h[..|h| - 1][j..] + [h[|h| - 1]] == h[j..]
  {
  }

  lemma SliceSlice(h: seq<Sample>, j: nat, cut: nat)
    requires j + cut <= |h|
    ensures h[j..][cut..] == h[j + cut..]
  {
  }

  /** Kept, of all but the newest sample, in terms of the whole history. */
  ghost predicate KeptBefore(h: seq<Sample>, duration: int, j: int) {
    forall i :: 0 <= i < |h| - 1 ==> (i >= j <==> i >= |h| - 1 - MAX_SAMPLES && h[i].time >= h[|h| - 2].time - duration)
  }

  lemma KeptFront(h: seq<Sample>, duration: int, j: int)
    requires h != [] && Kept(h[..|h| - 1], duration, j)
    ensures KeptBefore(h, duration, j)
  {
    var f := h[..|h| - 1];
    forall i | 0 <= i < |h| - 1
      ensures i >= j <==> i >= |h| - 1 - MAX_SAMPLES && h[i].time >= h[|h| - 2].time - duration
    {
      assert h[i] == f[i] && h[|h| - 2] == f[|f| - 1];
    }
  }

  /** What was displaced or stale stays so: the cutoff and the newest position only advance. */
  lemma KeptIndex(h: seq<Sample>, duration: int, j: nat, cut: nat, k: nat)
    requires h != [] && Ordered(h) && j < |h| && j + cut <= k
    requires cut == if |h| - j > MAX_SAMPLES then |h| - j - MAX_SAMPLES else 0
    requires KeptBefore(h, duration, j)
    requires forall i :: j + cut <= i < |h| ==> (i >= k <==> h[i].time >= h[|h| - 1].time - duration)
    ensures Kept(h, duration, k)
  {
    forall i | 0 <= i < |h|
      ensures i >= k <==> i >= |h| - MAX_SAMPLES && h[i].time >= h[|h| - 1].time - duration
    {
      if i < j + cut && i >= |h| - MAX_SAMPLES {
        assert h[|h| - 1].time >= h[|h| - 2].time;
      }
    }
  }

  // ----- The breaker -----

  datatype BreakerConfig = BreakerConfig(window: int, maxMove: Decimal, cooldown: int)

  /** The breaker as a value. */
  datatype Gauge = Gauge(samples: seq<Sample>, lastHalt: int)

  predicate Cooling(cfg: BreakerConfig, g: Gauge, now: int) {
    cfg.cooldown > 0 && g.lastHalt > 0 && now - g.lastHalt < cfg.cooldown
  }

  /** The move since the oldest sample, at four places, exceeds the limit. */
  predicate Exceeds(cfg: BreakerConfig, oldest: Decimal, price: Decimal) {
    oldest.value != 0 && Div(Abs(Sub(price, oldest)), oldest, 4).value > cfg.maxMove.value
  }

  function Recorded(cfg: BreakerConfig, g: Gauge, price: Decimal, now: int): Gauge {
    g.(samples := Record(g.samples, Sample(price, now), cfg.window))
  }

  /** The halt decision, on the gauge that already includes `price`. */
  predicate Trips(cfg: BreakerConfig, g: Gauge, price: Decimal, now: int) {
    !Cooling(cfg, g, now) && |g.samples| >= 2 && Exceeds(cfg, g.samples[0].price, price)
  }

  class CircuitBreaker {
    const window: RollingWindow
    const cfg: BreakerConfig
    var lastHalt: int

    ghost predicate Valid()
      reads this, window
    {
      window.Valid() && window.duration == cfg.window
    }

    ghost function State(): Gauge
      requires Valid()
      reads this, window, window.buffer
    {
      Gauge(window.Contents(), lastHalt)
    }

    constructor (cfg: BreakerConfig)
      ensures Valid() && State() == Gauge([], 0) && this.cfg == cfg && fresh(window) && fresh(window.buffer)
    {
      window := new RollingWindow(cfg.window);
      this.cfg, lastHalt := cfg, 0;
    }

    /** Record a trade price and decide whether the market should halt. */
    method Check(price: Decimal, now: int) returns (shouldHalt: bool)
      requires Valid()
      modifies window`head, window`size, window.buffer
      ensures Valid() && State() == Recorded(cfg, old(State()), price, now)
      ensures shouldHalt == Trips(cfg, State(), price, now)
    {
      window.Add(price, now);
      if cfg.cooldown > 0 && lastHalt > 0 && now - lastHalt < cfg.cooldown {
        return false;
      }
      if window.size < 2 {
        return false;
      }
      var oldest, ok := window.OldestPrice();
      if !ok || oldest.value == 0 {
        return false;
      }
      var diff := Abs(Sub(price, oldest));
      var move := Div(diff, oldest, 4);
      shouldHalt := move.value > cfg.maxMove.value;
    }

    method SetLastHalt(ts: int)
      requires Valid()
      modifies `lastHalt, window`head, window`size
      ensures Valid() && State() == Gauge([], ts)
    {
      lastHalt := ts;
      window.Reset();
    }
  }

  /** Nothing in the threshold computation leaves 64 bits. */
  predicate NoOverflow(price: Decimal, oldest: Decimal) {
    InInt64(price.value - oldest.value) && InInt64(Mag(price.value - oldest.value) * 10_000)
  }

  /** For positive prices of one precision, truncation included, the move exceeds the limit exactly when
      the difference times ten thousand reaches one step above the limit's share of the oldest price. */
  lemma Threshold(cfg: BreakerConfig, price: Decimal, oldest: Decimal)
    requires price.precision == oldest.precision && oldest.value > 0 && price.value > 0 && NoOverflow(price, oldest)
    ensures Exceeds(cfg, oldest, price)
       <==> Mag(price.value - oldest.value) * 10_000 >= (cfg.maxMove.value + 1) * oldest.value
  {
    hide Wrap64, Pow10;
    Powers();
    var diff := price.value - oldest.value;
    WrapFits(diff);
    WrapFits(-diff);
    var n: int := Mag(diff) * 10_000;
    WrapFits(n);
    assert Abs(Sub(price, oldest)) == Decimal(Mag(diff), price.precision);
    AtLeast(n, oldest.value, cfg.maxMove.value + 1);
    QuotientFits(n, oldest.value);
    WrapFits(n / oldest.value);
  }

  lemma QuotientFits(n: int, b: int)
    requires 0 <= n < TWO63 && b > 0
    ensures InInt64(n / b)
  {
    DivisionFacts(n, b);
  }

  /** When a check halts, for any history of additions in time order since the last reset: outside the
      cooldown, with at least two samples kept, by the exact threshold against the oldest sample kept. */
  lemma HaltsExactly(cfg: BreakerConfig, h: seq<Sample>, lastHalt: int) returns (k: nat)
    requires h != [] && Ordered(h)
    requires forall i :: 0 <= i < |h| ==> h[i].price.value > 0 && h[i].price.precision == h[0].price.precision
    requires forall i :: 0 <= i < |h| ==> NoOverflow(h[|h| - 1].price, h[i].price)
    ensures k <= |h| && Kept(h, cfg.window, k)
    ensures var s, g := h[|h| - 1], Gauge(After(h, cfg.window), lastHalt);
            Trips(cfg, g, s.price, s.time) <==>
              && !Cooling(cfg, g, s.time) && |h| - k >= 2
              && Mag(s.price.value - h[k].price.value) * 10_000 >= (cfg.maxMove.value + 1) * h[k].price.value
  {
    hide After, Exceeds, NoOverflow;
    k := WindowHolds(h, cfg.window);
    if |h| - k >= 2 {
      Threshold(cfg, h[|h| - 1].price, h[k].price);
    }
  }
}
