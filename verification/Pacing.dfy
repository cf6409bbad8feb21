/**
 * Token buckets: the packet pacer (src/congestion/pacing.c) and the per-stream rate limiter
 * (src/core/stream_rate.h), which differ only in how the rate is set.  Tokens are thousandths of a byte;
 * the refill product wraps at 2^64.
 */
module Pacing {
  import opened Bytes

  const SCALE: nat := 1000
  const SECOND: nat := 1000000
  const PACER_MAX_BURST: nat := 12000
  const STREAM_MIN_BURST: nat := 4800

  datatype Bucket = Bucket(rate: nat, tokens: nat, lastUpdate: nat, maxBurst: nat, enabled: bool, timeInitialized: bool)

  function PacerInit(): (b: Bucket)
  {
    Bucket(0, PACER_MAX_BURST * SCALE, 0, PACER_MAX_BURST, false, false)
  }

  /** `nxp_pacer_set_rate`. */
  function SetRate(b: Bucket, rate: nat): (r: Bucket)
  {
    b.(rate := rate, enabled := rate > 0)
  }

  /** `nxp_stream_rate_set`: a burst of a tenth of a second, and a full bucket. */
  function StreamRateSet(b: Bucket, rate: nat): (r: Bucket)
  {
    var burst := Max(rate / 10, STREAM_MIN_BURST);
    b.(rate := rate, enabled := rate > 0, maxBurst := burst, tokens := burst * SCALE)
  }

  function Refill(rate: nat, elapsed: nat): (n: nat)
  {
    (rate * elapsed * SCALE) % TWO_64 / SECOND
  }

  /** `nxp_pacer_update` and `nxp_stream_rate_update`. */
  function Update(b: Bucket, now: nat): (r: Bucket)
  {
    if !b.enabled || b.rate == 0 then b
    else if !b.timeInitialized then b.(lastUpdate := now, timeInitialized := true)
    else if now <= b.lastUpdate then b
    else b.(lastUpdate := now, tokens := Min(b.tokens + Refill(b.rate, now - b.lastUpdate), b.maxBurst * SCALE))
  }

  predicate CanSend(b: Bucket, bytes: nat)
  {
    !b.enabled || b.tokens >= bytes * SCALE
  }

  function OnSend(b: Bucket, bytes: nat): (r: Bucket)
  {
    if !b.enabled then b
    else b.(tokens := if b.tokens >= bytes * SCALE then b.tokens - bytes * SCALE else 0)
  }

  /** `nxp_stream_rate_budget`. */
  function Budget(b: Bucket): (n: nat)
  {
    if !b.enabled then TWO_64 - 1 else b.tokens / SCALE
  }

  /** `nxp_pacer_next_send_time`: the delay in microseconds. */
  function NextSendTime(b: Bucket, bytes: nat): (d: nat)
  {
    if !b.enabled || b.rate == 0 || b.tokens >= bytes * SCALE then 0
    else (bytes * SCALE - b.tokens) * SECOND / (b.rate * SCALE)
  }

  /** A send takes its bytes off the bucket, and never below empty; without a rate it takes nothing. */
  lemma SendingDrains(b: Bucket, bytes: nat)
    ensures var r := OnSend(b, bytes);
            && r == b.(tokens := r.tokens) && (!b.enabled ==> r.tokens == b.tokens)
            && (b.enabled && b.tokens >= 1000 * bytes ==> r.tokens == b.tokens - 1000 * bytes)
            && (b.enabled && b.tokens <= 1000 * bytes ==> r.tokens == 0)
  {
  }

  /** The burst of a stream is a tenth of a second at its rate, rounded down, and at least four packets. */
  lemma StreamBurst(b: Bucket, rate: nat)
    ensures var r := StreamRateSet(b, rate);
            && r.maxBurst >= 4800 && rate < 10 * (r.maxBurst + 1) && (r.maxBurst == 4800 || 10 * r.maxBurst <= rate)
            && r.tokens == 1000 * r.maxBurst
  {
  }

  // ---------- Division ----------

  lemma DivAtLeast(a: nat, b: nat, c: nat)
    requires b > 0
    ensures a / b >= c <==> a >= b * c
  {
    var q, r := a / b, a % b;
    assert a == b * q + r;
    if q >= c {
      MulMonotone(b, c, q);
    } else {
      MulMonotone(b, q + 1, c);
    }
  }

  lemma MulMonotone(a: nat, b: nat, c: nat)
    requires b <= c
    ensures a * b <= a * c
  {
    assert a * c == a * b + a * (c - b);
  }

  /** A refill never exceeds what the rate allows. */
  lemma RefillBounded(rate: nat, elapsed: nat, maxRate: nat)
    requires rate <= maxRate
    ensures SECOND * Refill(rate, elapsed) <= SCALE * (maxRate * elapsed)
  {
    var wrapped := (rate * elapsed * SCALE) % TWO_64;
    assert SECOND * (wrapped / SECOND) <= wrapped <= rate * elapsed * SCALE;
    MulMonotone(elapsed, rate, maxRate);
    assert rate * elapsed <= maxRate * elapsed;
  }

  // ---------- Conformance ----------

  /**
   * The pacer's rate changes, the per-stream rate is set anew, or a send of `bytes` is attempted at time
   * `now`: refill first, then ask, as the send path does.
   */
  datatype Event = Rate(rate: nat) | StreamRate(rate: nat) | Attempt(now: nat, bytes: nat)

  /** A bucket, the bytes it has permitted, and the bursts it has been granted. */
  datatype Run = Run(bucket: Bucket, sent: nat, granted: nat)

  function Step(run: Run, e: Event): (r: Run)
  {
    match e
    case Rate(rate) => run.(bucket := SetRate(run.bucket, rate))
    case StreamRate(rate) =>
      var b := StreamRateSet(run.bucket, rate);
      run.(bucket := b, granted := run.granted + b.maxBurst)
    case Attempt(now, bytes) =>
      var b := Update(run.bucket, now);
      if CanSend(b, bytes) then run.(bucket := OnSend(b, bytes), sent := run.sent + bytes) else run.(bucket := b)
  }

  function Execute(b: Bucket, es: seq<Event>): (run: Run)
  {
    if es == [] then Run(b, 0, b.maxBurst) else Step(Execute(b, es[..|es| - 1]), es[|es| - 1])
  }

  predicate Within(e: Event, maxRate: nat, from: nat, period: nat)
  {
    match e
    case Rate(rate) => 0 < rate <= maxRate
    case StreamRate(rate) => 0 < rate <= maxRate
    case Attempt(now, _) => from <= now <= from + period
  }

  /** The part of the period that refills have covered. */
  ghost function Elapsed(b: Bucket, from: nat, period: nat): (n: nat)
    ensures n <= period
  {
    if b.lastUpdate <= from then 0 else Min(b.lastUpdate - from, period)
  }

  /** What was sent and what is left are covered by the bursts granted and the rate so far. */
  ghost predicate Covered(run: Run, maxRate: nat, from: nat, period: nat)
  {
    var b := run.bucket;
    && b.enabled && 0 < b.rate <= maxRate && b.tokens <= b.maxBurst * SCALE && b.maxBurst <= run.granted
    && (run.sent > 0 ==> b.timeInitialized && from <= b.lastUpdate)
    && SECOND * (SCALE * run.sent + b.tokens) <=
       SECOND * SCALE * run.granted + SCALE * (maxRate * Elapsed(b, from, period))
  }

  lemma UpdateCovered(run: Run, maxRate: nat, from: nat, period: nat, now: nat)
    requires Covered(run, maxRate, from, period) && from <= now <= from + period
    ensures var run' := run.(bucket := Update(run.bucket, now));
            Covered(run', maxRate, from, period) && run'.bucket.timeInitialized && from <= run'.bucket.lastUpdate
  {
    hide Refill;
    var b, b' := run.bucket, Update(run.bucket, now);
    var e, e' := Elapsed(b, from, period), Elapsed(b', from, period);
    if run.sent == 0 {
      NothingSent(b'.tokens, b'.maxBurst, run.granted, maxRate, e');
    } else if now > b.lastUpdate {
      RefillBounded(b.rate, now - b.lastUpdate, maxRate);
      assert e' == e + (now - b.lastUpdate);
      TimePassed(run.sent, b.tokens, b'.tokens, run.granted, maxRate, e, now - b.lastUpdate);
    }
  }

  lemma NothingSent(tokens: nat, burst: nat, granted: nat, rate: nat, elapsed: nat)
    requires tokens <= burst * SCALE && burst <= granted
    ensures SECOND * tokens <= SECOND * SCALE * granted + SCALE * (rate * elapsed)
  {
    MulMonotone(rate, 0, elapsed);
  }

  lemma TimePassed(sent: nat, tokens: nat, tokens': nat, granted: nat, rate: nat, elapsed: nat, dt: nat)
    requires SECOND * (SCALE * sent + tokens) <= SECOND * SCALE * granted + SCALE * (rate * elapsed)
    requires SECOND * (tokens' - tokens) <= SCALE * (rate * dt)
    ensures SECOND * (SCALE * sent + tokens') <= SECOND * SCALE * granted + SCALE * (rate * (elapsed + dt))
  {
    assert rate * (elapsed + dt) == rate * elapsed + rate * dt;
  }

  lemma StepCovered(run: Run, e: Event, maxRate: nat, from: nat, period: nat)
    requires Covered(run, maxRate, from, period) && Within(e, maxRate, from, period)
    ensures Covered(Step(run, e), maxRate, from, period)
  {
    if e.Attempt? {
      UpdateCovered(run, maxRate, from, period, e.now);
      hide Update;
      UpdateFrame(run.bucket, e.now);
    }
  }

  lemma UpdateFrame(b: Bucket, now: nat)
    ensures var b' := Update(b, now); b'.maxBurst == b.maxBurst && b'.rate == b.rate && b'.enabled == b.enabled
  {
  }

  /**
   * Conformance: over any run of rate changes (never above `maxRate`) and attempts within a period of
   * `period` microseconds, the bytes permitted never exceed the bursts granted plus the rate over the period.
   */
  lemma {:induction false} Conformance(b: Bucket, es: seq<Event>, maxRate: nat, from: nat, period: nat)
    requires b.enabled && 0 < b.rate <= maxRate && b.tokens <= b.maxBurst * SCALE
    requires forall i :: 0 <= i < |es| ==> Within(es[i], maxRate, from, period)
    ensures Covered(Execute(b, es), maxRate, from, period)
    ensures SECOND * Execute(b, es).sent <= SECOND * Execute(b, es).granted + maxRate * period
  {
    hide Step;
    var run := Execute(b, es);
    if es == [] {
      assert maxRate * Elapsed(b, from, period) >= 0;
    } else {
      var init, last := es[..|es| - 1], es[|es| - 1];
      Conformance(b, init, maxRate, from, period);
      StepCovered(Execute(b, init), last, maxRate, from, period);
    }
    MulMonotone(maxRate, Elapsed(run.bucket, from, period), period);
  }

  /** As long as no per-stream rate is set anew, the only burst is the first: one burst plus rate times time. */
  lemma {:induction false} OneBurst(b: Bucket, es: seq<Event>)
    requires forall i :: 0 <= i < |es| ==> !es[i].StreamRate?
    ensures Execute(b, es).granted == b.maxBurst
  {
    hide Update, CanSend, OnSend;
    if es != [] {
      OneBurst(b, es[..|es| - 1]);
    }
  }

  /** Setting a stream's rate refills its bucket: two sends of a full burst pass at the same instant. */
  lemma SettingTheRateGrantsABurst(b: Bucket, rate: nat, now: nat)
    requires rate > 0 && b.timeInitialized && now <= b.lastUpdate
    ensures var burst := Max(rate / 10, STREAM_MIN_BURST);
            Execute(b, [StreamRate(rate), Attempt(now, burst), StreamRate(rate), Attempt(now, burst)]).sent == 2 * burst
  {
    hide Step, Execute;
    var burst := Max(rate / 10, STREAM_MIN_BURST);
    var refill, send := StreamRate(rate), Attempt(now, burst);
    var r0 := Execute(b, []);
    OneMore(b, [], refill);
    OneMore(b, [refill], send);
    OneMore(b, [refill, send], refill);
    OneMore(b, [refill, send, refill], send);
    assert [] + [refill] == [refill] && [refill] + [send] == [refill, send];
    assert [refill, send] + [refill] == [refill, send, refill];
    assert [refill, send, refill] + [send] == [refill, send, refill, send];
    NothingExecuted(b);
    BurstPasses(r0, rate, now);
    BurstPasses(Execute(b, [refill, send]), rate, now);
  }

  lemma NothingExecuted(b: Bucket)
    ensures Execute(b, []) == Run(b, 0, b.maxBurst)
  {
  }

  lemma OneMore(b: Bucket, es: seq<Event>, e: Event)
    ensures Execute(b, es + [e]) == Step(Execute(b, es), e)
  {
    hide Step;
    assert (es + [e])[..|es|] == es;
  }

  lemma BurstPasses(run: Run, rate: nat, now: nat)
    requires rate > 0 && run.bucket.timeInitialized && now <= run.bucket.lastUpdate
    ensures var burst := Max(rate / 10, STREAM_MIN_BURST);
            var r := Step(Step(run, StreamRate(rate)), Attempt(now, burst));
            r.sent == run.sent + burst && r.bucket.timeInitialized && now <= r.bucket.lastUpdate
  {
  }

  // ---------- Delays ----------

  /**
   * Exactly how long the pacer has to wait: sending is possible after `w` microseconds if and only if the refill
   * covers the deficit.
   */
  lemma WaitIsExact(b: Bucket, bytes: nat, w: nat)
    requires b.enabled && b.rate > 0 && b.timeInitialized && b.tokens < bytes * SCALE
    ensures CanSend(Update(b, b.lastUpdate + w), bytes) <==>
            bytes <= b.maxBurst && (b.rate * w * SCALE) % TWO_64 >= SECOND * (bytes * SCALE - b.tokens)
  {
    DivAtLeast((b.rate * w * SCALE) % TWO_64, SECOND, bytes * SCALE - b.tokens);
    if w == 0 {
      assert b.rate * w == 0;
    }
  }

  /**
   * After any wait shorter than the delay, sending is impossible; after any wait longer than it, possible,
   * unless the wait is so long that the product in the refill wraps.
   */
  lemma DelayIsTight(b: Bucket, bytes: nat, w: nat)
    requires b.enabled && b.rate > 0 && b.timeInitialized && b.tokens < bytes * SCALE
    ensures w < NextSendTime(b, bytes) ==> !CanSend(Update(b, b.lastUpdate + w), bytes)
    ensures w > NextSendTime(b, bytes) && bytes <= b.maxBurst && b.rate * w * SCALE < TWO_64 ==>
            CanSend(Update(b, b.lastUpdate + w), bytes)
  {
    hide Update, CanSend;
    WaitIsExact(b, bytes, w);
    DelayBrackets(bytes * SCALE - b.tokens, b.rate, w);
    WrappedProduct(b.rate * w * SCALE);
  }

  lemma WrappedProduct(x: nat)
    ensures x % TWO_64 <= x && (x < TWO_64 ==> x % TWO_64 == x)
  {
  }

  /** The delay is the last moment before the tokens gained reach the deficit. */
  lemma DelayBrackets(deficit: nat, rate: nat, w: nat)
    requires deficit > 0 && rate > 0
    ensures var d := deficit * SECOND / (rate * SCALE);
      && (w < d ==> rate * w * SCALE < SECOND * deficit)
      && (w > d ==> rate * w * SCALE >= SECOND * deficit)
  {
    var d := deficit * SECOND / (rate * SCALE);
    if w < d {
      DivAtLeast(deficit * SECOND, rate * SCALE, w + 1);
      assert rate * SCALE * (w + 1) == rate * w * SCALE + rate * SCALE;
    } else if w > d {
      DivAtLeast(deficit * SECOND, rate * SCALE, w);
      assert rate * SCALE * w == rate * w * SCALE;
    }
  }

  /** The product in the refill wraps: after 2^41 microseconds at 2^23 bytes per second a bucket gains nothing. */
  lemma RefillCanWrap()
    ensures Refill(0x80_0000, 0x200_0000_0000) == 0
  {
    assert 0x80_0000 * 0x200_0000_0000 * SCALE == SCALE * TWO_64;
  }

  /** A bucket never holds more than a burst, and its budget is what it may send. */
  lemma BudgetIsExact(b: Bucket, bytes: nat)
    requires b.enabled
    ensures CanSend(b, bytes) <==> bytes <= Budget(b)
  {
  }

  // ---------- In place ----------

  /** A higher rate and one more burst keep the account balanced. */
  lemma NewBurst(paced: nat, tokens: nat, granted: nat, rate: nat, rate': nat, seen: nat, burst: nat)
    requires SECOND * (SCALE * paced + tokens) <= SECOND * SCALE * granted + SCALE * (rate * seen) && rate <= rate'
    ensures SECOND * (SCALE * paced + tokens) <= SECOND * SCALE * granted + SCALE * (rate' * seen)
    ensures SECOND * (SCALE * paced + burst * SCALE) <= SECOND * SCALE * (granted + burst) + SCALE * (rate' * seen)
  {
    MulMonotone(seen, rate, rate');
    assert rate * seen == seen * rate && rate' * seen == seen * rate';
  }

  /**
   * A bucket that keeps account of itself: over its whole life, the bytes it has permitted are covered by the
   * bursts it was granted and by its highest rate over the time it has seen.
   */
  class TokenBucket {
    var rate: nat
    var tokens: nat
    var lastUpdate: nat
    var maxBurst: nat
    var enabled: bool
    var timeInitialized: bool

    /** Bytes permitted while the bucket was enabled, bursts granted, highest rate, first moment seen. */
    ghost var paced: nat
    ghost var granted: nat
    ghost var topRate: nat
    ghost var since: nat

    ghost function View(): (b: Bucket)
      reads this
    {
      Bucket(rate, tokens, lastUpdate, maxBurst, enabled, timeInitialized)
    }

    /** The time between the first and the last update. */
    ghost function Seen(): (n: nat)
      reads this
      requires timeInitialized ==> since <= lastUpdate
    {
      if timeInitialized then lastUpdate - since else 0
    }

    ghost predicate Valid()
      reads this
    {
      && tokens <= maxBurst * SCALE && maxBurst <= granted && rate <= topRate
      && (timeInitialized ==> since <= lastUpdate)
      && SECOND * (SCALE * paced + tokens) <= SECOND * SCALE * granted + SCALE * (topRate * Seen())
    }

    /** The bound on what it has let through. */
    lemma Conforms()
      requires Valid()
      ensures SECOND * paced <= SECOND * granted + topRate * Seen()
    {
    }

    /** `nxp_pacer_init`: starts with a full burst. */
    constructor ()
      ensures Valid() && View() == PacerInit()
      ensures paced == 0 && granted == PACER_MAX_BURST && topRate == 0
    {
      rate, tokens, lastUpdate, maxBurst := 0, PACER_MAX_BURST * SCALE, 0, PACER_MAX_BURST;
      enabled, timeInitialized := false, false;
      paced, granted, topRate, since := 0, PACER_MAX_BURST, 0, 0;
    }

    /** `nxp_pacer_set_rate`: grants no burst. */
    method UseRate(r: nat)
      requires Valid()
      modifies this`rate, this`enabled, this`topRate
      ensures Valid() && View() == SetRate(old(View()), r)
      ensures topRate == Max(old(topRate), r)
    {
      rate, enabled := r, r > 0;
      NewBurst(paced, tokens, granted, topRate, Max(topRate, r), Seen(), 0);
      topRate := Max(topRate, r);
    }

    /** `nxp_stream_rate_set`: grants one more burst. */
    method UseStreamRate(r: nat)
      requires Valid()
      modifies this`rate, this`enabled, this`maxBurst, this`tokens, this`topRate, this`granted
      ensures Valid() && View() == StreamRateSet(old(View()), r)
      ensures topRate == Max(old(topRate), r) && granted == old(granted) + maxBurst
    {
      rate, enabled := r, r > 0;
      var burst := if r > 0 then r / 10 else 0;
      if burst < STREAM_MIN_BURST {
        burst := STREAM_MIN_BURST;
      }
      assert burst == Max(r / 10, STREAM_MIN_BURST);
      NewBurst(paced, tokens, granted, topRate, Max(topRate, r), Seen(), burst);
      maxBurst, tokens := burst, burst * SCALE;
      topRate, granted := Max(topRate, r), granted + burst;
    }

    /**
     * `nxp_pacer_update` and `nxp_stream_rate_update`: the bound grows by no more than the highest rate over the
     * time passed.
     */
    method Replenish(now: nat)
      requires Valid()
      modifies this`tokens, this`lastUpdate, this`timeInitialized, this`since
      ensures Valid() && View() == Update(old(View()), now)
      ensures Seen() >= old(Seen())
    {
      hide Refill;
      if !enabled || rate == 0 {
        return;
      }
      if !timeInitialized {
        lastUpdate, timeInitialized, since := now, true, now;
        return;
      }
      if now <= lastUpdate {
        return;
      }
      var elapsed := now - lastUpdate;
      ghost var before, seen := tokens, Seen();
      RefillBounded(rate, elapsed, topRate);
      lastUpdate := now;
      tokens := tokens + Refill(rate, elapsed);
      if tokens > maxBurst * SCALE {
        tokens := maxBurst * SCALE;
      }
      TimePassed(paced, before, tokens, granted, topRate, seen, elapsed);
    }

    /** `nxp_pacer_can_send` and `nxp_stream_rate_can_send`. */
    predicate Permits(bytes: nat)
      reads this
      ensures Permits(bytes) <==> CanSend(View(), bytes)
    {
      !enabled || tokens >= bytes * SCALE
    }

    /** `nxp_pacer_on_send` and `nxp_stream_rate_on_send`: a permitted send is accounted for in full. */
    method Consume(bytes: nat)
      requires Valid()
      modifies this`tokens, this`paced
      ensures Valid() && View() == OnSend(old(View()), bytes)
      ensures paced == old(paced) + if enabled && old(Permits(bytes)) then bytes else 0
    {
      if !enabled {
        return;
      }
      var cost := bytes * SCALE;
      if tokens >= cost {
        tokens := tokens - cost;
        paced := paced + bytes;
      } else {
        tokens := 0;
      }
    }
  }
}
