/** The windowed min/max filter behind BBR's bandwidth estimate (src/congestion/windowed_filter.h). */
module WindowedFilter {
  import opened Bytes

  datatype Sample = Sample(value: nat, time: nat)

  datatype Filter = Filter(best: Sample, second: Sample, third: Sample, window: nat, isMax: bool, initialized: bool)

  function Init(window: nat, isMax: bool): (f: Filter)
  {
    Filter(Sample(0, 0), Sample(0, 0), Sample(0, 0), window, isMax, false)
  }

  function Reset(f: Filter, s: Sample): (f': Filter)
  {
    f.(best := s, second := s, third := s, initialized := true)
  }

  function Get(f: Filter): (v: nat)
  {
    f.best.value
  }

  /** At least as good. */
  predicate IsBetter(isMax: bool, a: nat, b: nat)
  {
    if isMax then a >= b else a <= b
  }

  predicate Expired(s: Sample, now: nat, age: nat)
  {
    Sub64(now, s.time) > age
  }

  /** `nxp_wf_update`. */
  function Update(f: Filter, value: nat, now: nat): (f': Filter)
  {
    var s := Sample(value, now);
    if !f.initialized || IsBetter(f.isMax, value, f.best.value) then Reset(f, s)
    else if Expired(f.best, now, f.window) then
      var f1 := f.(best := f.second, second := f.third, third := s);
      var f2 := if Expired(f1.best, now, f.window) then f1.(best := f1.second, second := f1.third) else f1;
      if Expired(f2.best, now, f.window) then f2.(best := s, second := s) else f2
    else if IsBetter(f.isMax, value, f.second.value) || Expired(f.second, now, f.window / 4) then
      f.(second := s, third := s)
    else if IsBetter(f.isMax, value, f.third.value) || Expired(f.third, now, f.window / 2) then f.(third := s)
    else f
  }

  function Feed(window: nat, isMax: bool, fed: seq<Sample>): (f: Filter)
  {
    if fed == [] then Init(window, isMax)
    else Update(Feed(window, isMax, fed[..|fed| - 1]), fed[|fed| - 1].value, fed[|fed| - 1].time)
  }

  predicate InOrder(fed: seq<Sample>)
  {
    && (forall i :: 0 <= i < |fed| ==> fed[i].time < TWO_64)
    && forall i, j :: 0 <= i <= j < |fed| ==> fed[i].time <= fed[j].time
  }

  /**
   * The filter's three samples were fed to it, in the order of their times, and the estimate is no older than the
   * window.
   */
  ghost predicate Sound(f: Filter, fed: seq<Sample>, now: nat)
  {
    && f.initialized
    && f.best in fed && f.second in fed && f.third in fed
    && f.best.time <= f.second.time <= f.third.time <= now < TWO_64
    && now - f.best.time <= f.window
  }

  lemma Age(s: Sample, now: nat, age: nat)
    requires s.time <= now < TWO_64
    ensures Expired(s, now, age) <==> now - s.time > age
  {
  }

  lemma UpdateIsSound(f: Filter, fed: seq<Sample>, before: nat, s: Sample)
    requires Sound(f, fed, before) && before <= s.time < TWO_64
    ensures Sound(Update(f, s.value, s.time), fed + [s], s.time)
    ensures Update(f, s.value, s.time).window == f.window && Update(f, s.value, s.time).isMax == f.isMax
  {
    hide Expired, IsBetter;
    Age(f.best, s.time, f.window);
    Age(f.second, s.time, f.window);
    Age(f.third, s.time, f.window);
    Age(s, s.time, f.window);
    assert s in fed + [s];
  }

  /**
   * After every update the estimate is a sample really fed in, taken within the window, so it is never
   * better than the true extremum of the window.
   */
  lemma {:induction false} EstimateIsSound(window: nat, isMax: bool, fed: seq<Sample>)
    requires fed != [] && InOrder(fed)
    ensures Sound(Feed(window, isMax, fed), fed, fed[|fed| - 1].time)
    ensures Feed(window, isMax, fed).window == window && Feed(window, isMax, fed).isMax == isMax
  {
    hide Update, Sound;
    var init, last := fed[..|fed| - 1], fed[|fed| - 1];
    assert fed == init + [last];
    if init == [] {
      FirstSample(window, isMax, last);
    } else {
      EstimateIsSound(window, isMax, init);
      UpdateIsSound(Feed(window, isMax, init), init, init[|init| - 1].time, last);
    }
  }

  lemma FirstSample(window: nat, isMax: bool, s: Sample)
    requires s.time < TWO_64
    ensures var f := Update(Init(window, isMax), s.value, s.time);
            Sound(f, [] + [s], s.time) && f.window == window && f.isMax == isMax
  {
  }

  /** A bound that no sample in the window beats is not beaten by the estimate. */
  lemma NeverBetterThanTheWindow(window: nat, isMax: bool, fed: seq<Sample>, bound: nat)
    requires fed != [] && InOrder(fed)
    requires forall i :: 0 <= i < |fed| && fed[|fed| - 1].time - fed[i].time <= window ==>
             IsBetter(isMax, bound, fed[i].value)
    ensures IsBetter(isMax, bound, Get(Feed(window, isMax, fed)))
  {
    EstimateIsSound(window, isMax, fed);
    var best := Feed(window, isMax, fed).best;
    var i :| 0 <= i < |fed| && fed[i] == best;
  }

  // ---------- When the estimate is the extremum of the window ----------

  /** The update that does not reset the filter although its best sample has expired. */
  predicate Rotates(f: Filter, s: Sample)
  {
    f.initialized && !IsBetter(f.isMax, s.value, f.best.value) && Expired(f.best, s.time, f.window)
  }

  /** What a rotation makes the estimate. */
  function Promoted(f: Filter, s: Sample): (p: Sample)
  {
    if !Expired(f.second, s.time, f.window) then f.second
    else if !Expired(f.third, s.time, f.window) then f.third
    else s
  }

  /**
   * Without a rotation the runners-up are kept fresh: after an update the second sample is no older than a quarter
   * of the window and the third no older than half of it, each sample is replaced by one at least as good, and the
   * second while fresh by no other.
   */
  lemma RunnersUpStayFresh(f: Filter, s: Sample)
    requires f.initialized && !Rotates(f, s)
    ensures var f' := Update(f, s.value, s.time);
            && !Expired(f'.second, s.time, f.window / 4) && !Expired(f'.third, s.time, f.window / 2)
            && (f'.best == s || (f'.best == f.best && !IsBetter(f.isMax, s.value, f.best.value)))
            && (f'.second == s || (f'.second == f.second && !IsBetter(f.isMax, s.value, f.second.value)))
            && (f'.second != f.second ==>
                  || IsBetter(f.isMax, s.value, f.best.value) || IsBetter(f.isMax, s.value, f.second.value)
                  || Expired(f.second, s.time, f.window / 4))
            && (f'.third == s || (f'.third == f.third && !IsBetter(f.isMax, s.value, f.third.value)))
  {
    assert Sub64(s.time, s.time) == 0;
  }

  predicate InWindow(s: Sample, now: nat, window: nat)
  {
    now - s.time <= window
  }

  /** The estimate is at least as good as every sample in the window. */
  ghost predicate Exact(f: Filter, fed: seq<Sample>, now: nat)
  {
    forall i :: 0 <= i < |fed| && InWindow(fed[i], now, f.window) ==> IsBetter(f.isMax, f.best.value, fed[i].value)
  }

  /**
   * An exact estimate stays exact unless the update rotates and promotes a sample that something in the window
   * beats: only then does it fall short, of the newest sample or of an older one.
   */
  lemma UpdateIsExact(f: Filter, fed: seq<Sample>, before: nat, s: Sample)
    requires Sound(f, fed, before) && Exact(f, fed, before) && before <= s.time < TWO_64
    ensures Exact(Update(f, s.value, s.time), fed + [s], s.time) <==>
            !(Rotates(f, s) && exists i :: 0 <= i < |fed + [s]| && InWindow((fed + [s])[i], s.time, f.window)
                                           && !IsBetter(f.isMax, Promoted(f, s).value, (fed + [s])[i].value))
  {
    hide Expired;
    UpdatedBest(f, s);
    var f', fed' := Update(f, s.value, s.time), fed + [s];
    if !Rotates(f, s) {
      hide Update;
      forall i | 0 <= i < |fed'| && InWindow(fed'[i], s.time, f.window)
        ensures IsBetter(f.isMax, f'.best.value, fed'[i].value)
      {
        assert i < |fed| ==> InWindow(fed[i], before, f.window) && fed[i] == fed'[i];
      }
    }
  }

  /** The estimate after an update: the new sample, the promoted one, or the old estimate. */
  lemma UpdatedBest(f: Filter, s: Sample)
    requires s.time < TWO_64
    ensures var f' := Update(f, s.value, s.time);
            && f'.window == f.window && f'.isMax == f.isMax && f'.initialized
            && f'.best == if !f.initialized || IsBetter(f.isMax, s.value, f.best.value) then s
                          else if Rotates(f, s) then Promoted(f, s) else f.best
  {
    Age(s, s.time, f.window);
  }

  ghost predicate NoRotationFrom(window: nat, isMax: bool, fed: seq<Sample>, k: nat)
  {
    forall m :: k <= m < |fed| ==> !Rotates(Feed(window, isMax, fed[..m]), fed[m])
  }

  /** One update of a run, in terms of the estimate. */
  lemma StepOfRun(window: nat, isMax: bool, fed: seq<Sample>, k: nat)
    requires InOrder(fed) && k < |fed| && !Rotates(Feed(window, isMax, fed[..k]), fed[k])
    ensures var before, after := Get(Feed(window, isMax, fed[..k])), Get(Feed(window, isMax, fed[..k + 1]));
            IsBetter(isMax, after, fed[k].value) && (k > 0 ==> IsBetter(isMax, after, before))
  {
    hide Update;
    assert fed[..k + 1][..k] == fed[..k] && fed[..k + 1][k] == fed[k];
    UpdatedBest(Feed(window, isMax, fed[..k]), fed[k]);
    if k > 0 {
      EstimateIsSound(window, isMax, fed[..k]);
    }
  }

  /** Without rotations the estimate only gets better. */
  lemma {:induction false} EstimateRises(window: nat, isMax: bool, fed: seq<Sample>, k: nat, m: nat)
    requires InOrder(fed) && NoRotationFrom(window, isMax, fed, k) && 0 < k <= m <= |fed|
    ensures IsBetter(isMax, Get(Feed(window, isMax, fed[..m])), Get(Feed(window, isMax, fed[..k])))
  {
    hide Feed, Rotates;
    if k < m {
      EstimateRises(window, isMax, fed, k, m - 1);
      StepOfRun(window, isMax, fed, m - 1);
    }
  }

  /** Along a run without rotations the estimate is at least as good as everything fed meanwhile. */
  lemma BestSinceRotation(window: nat, isMax: bool, fed: seq<Sample>, k: nat, i: nat)
    requires InOrder(fed) && NoRotationFrom(window, isMax, fed, k) && k <= i < |fed|
    ensures IsBetter(isMax, Get(Feed(window, isMax, fed)), fed[i].value)
  {
    hide Feed, Rotates;
    StepOfRun(window, isMax, fed, i);
    EstimateRises(window, isMax, fed, i + 1, |fed|);
    assert fed[..|fed|] == fed;
  }

  /** Without any rotation the estimate is the extremum of everything fed. */
  lemma NoRotationNoShortfall(window: nat, isMax: bool, fed: seq<Sample>)
    requires fed != [] && InOrder(fed)
    requires NoRotationFrom(window, isMax, fed, 0)
    ensures Feed(window, isMax, fed).best in fed
    ensures forall i :: 0 <= i < |fed| ==> IsBetter(isMax, Get(Feed(window, isMax, fed)), fed[i].value)
  {
    hide Feed, Rotates;
    EstimateIsSound(window, isMax, fed);
    forall i | 0 <= i < |fed| ensures IsBetter(isMax, Get(Feed(window, isMax, fed)), fed[i].value) {
      BestSinceRotation(window, isMax, fed, 0, i);
    }
  }

  /**
   * In general only samples fed up to the last rotation can be missed: the estimate is exact if and only if none
   * of those does better.
   */
  lemma ExactExactlyWhen(window: nat, isMax: bool, fed: seq<Sample>, k: nat)
    requires fed != [] && InOrder(fed) && NoRotationFrom(window, isMax, fed, k)
    ensures var f, now := Feed(window, isMax, fed), fed[|fed| - 1].time;
            Exact(f, fed, now) <==>
            forall i :: 0 <= i < k && i < |fed| && InWindow(fed[i], now, window) ==>
            IsBetter(isMax, Get(f), fed[i].value)
  {
    hide Feed, Rotates;
    EstimateIsSound(window, isMax, fed);
    forall i | k <= i < |fed| ensures IsBetter(isMax, Get(Feed(window, isMax, fed)), fed[i].value) {
      BestSinceRotation(window, isMax, fed, k, i);
    }
  }

  // ---------- What the three samples are for ----------

  /** At least as good as every sample taken later. */
  ghost predicate Covers(isMax: bool, slot: Sample, fed: seq<Sample>)
  {
    forall i :: 0 <= i < |fed| && fed[i].time > slot.time ==> IsBetter(isMax, slot.value, fed[i].value)
  }

  ghost predicate CoversAll(f: Filter, fed: seq<Sample>)
  {
    Covers(f.isMax, f.best, fed) && Covers(f.isMax, f.second, fed) && Covers(f.isMax, f.third, fed)
  }

  predicate Beats(isMax: bool, s: Sample, slot: Sample)
  {
    s.time > slot.time && !IsBetter(isMax, slot.value, s.value)
  }

  /** A rotation that keeps a sample worse than the new one, which it does not compare with any. */
  predicate Overlooks(f: Filter, s: Sample)
  {
    && Rotates(f, s)
    && (|| Beats(f.isMax, s, Promoted(f, s))
        || (!Expired(f.second, s.time, f.window) && Beats(f.isMax, s, f.third)))
  }

  lemma CoversMore(isMax: bool, slot: Sample, fed: seq<Sample>, s: Sample)
    ensures Covers(isMax, slot, fed + [s]) <==> Covers(isMax, slot, fed) && !Beats(isMax, s, slot)
  {
    if Covers(isMax, slot, fed + [s]) {
      assert (fed + [s])[|fed|] == s;
      forall i | 0 <= i < |fed| && fed[i].time > slot.time ensures IsBetter(isMax, slot.value, fed[i].value) {
        assert (fed + [s])[i] == fed[i];
      }
    }
  }

  lemma NewestCovers(isMax: bool, s: Sample, fed: seq<Sample>)
    requires forall i :: 0 <= i < |fed| ==> fed[i].time <= s.time
    ensures Covers(isMax, s, fed)
  {
  }

  /** Each of the three samples stays the best since it was taken, exactly unless the update overlooks the new one. */
  lemma CoverIsExact(f: Filter, fed: seq<Sample>, s: Sample)
    requires f.initialized && CoversAll(f, fed) && s.time < TWO_64
    requires forall i :: 0 <= i < |fed| ==> fed[i].time <= s.time
    ensures CoversAll(Update(f, s.value, s.time), fed + [s]) <==> !Overlooks(f, s)
  {
    hide Covers, Expired;
    NewestCovers(f.isMax, s, fed);
    CoversMore(f.isMax, s, fed, s);
    CoversMore(f.isMax, f.best, fed, s);
    CoversMore(f.isMax, f.second, fed, s);
    CoversMore(f.isMax, f.third, fed, s);
    Age(s, s.time, f.window);
  }

  /**
   * Over whole runs: at every moment each sample is the best since it was taken, if and only if no update overlooks
   * one.
   */
  lemma {:induction false} CoverExactlyWhen(window: nat, isMax: bool, fed: seq<Sample>)
    requires InOrder(fed)
    ensures (forall k :: 0 < k <= |fed| ==> CoversAll(Feed(window, isMax, fed[..k]), fed[..k]))
            <==> (forall k :: 0 < k < |fed| ==> !Overlooks(Feed(window, isMax, fed[..k]), fed[k]))
  {
    hide CoversAll, Overlooks, Update;
    forall k | 0 < k < |fed| && CoversAll(Feed(window, isMax, fed[..k]), fed[..k])
      ensures CoversAll(Feed(window, isMax, fed[..k + 1]), fed[..k + 1]) <==>
              !Overlooks(Feed(window, isMax, fed[..k]), fed[k])
    {
      OneMore(window, isMax, fed, k);
    }
    if fed != [] {
      FirstCovers(window, isMax, fed);
    }
    if forall k :: 0 < k < |fed| ==> !Overlooks(Feed(window, isMax, fed[..k]), fed[k]) {
      forall k | 0 < k <= |fed| ensures CoversAll(Feed(window, isMax, fed[..k]), fed[..k]) {
        CoverUpTo(window, isMax, fed, k);
      }
    } else {
      var k :| 0 < k < |fed| && Overlooks(Feed(window, isMax, fed[..k]), fed[k]);
      assert CoversAll(Feed(window, isMax, fed[..k]), fed[..k]) ==>
        !CoversAll(Feed(window, isMax, fed[..k + 1]), fed[..k + 1]);
    }
  }

  lemma OneMore(window: nat, isMax: bool, fed: seq<Sample>, k: nat)
    requires InOrder(fed) && 0 < k < |fed| && CoversAll(Feed(window, isMax, fed[..k]), fed[..k])
    ensures CoversAll(Feed(window, isMax, fed[..k + 1]), fed[..k + 1]) <==>
            !Overlooks(Feed(window, isMax, fed[..k]), fed[k])
  {
    hide CoversAll, Overlooks, Update;
    assert fed[..k + 1][..k] == fed[..k] && fed[..k + 1] == fed[..k] + [fed[k]];
    EstimateIsSound(window, isMax, fed[..k]);
    CoverIsExact(Feed(window, isMax, fed[..k]), fed[..k], fed[k]);
  }

  lemma FirstCovers(window: nat, isMax: bool, fed: seq<Sample>)
    requires InOrder(fed) && fed != []
    ensures CoversAll(Feed(window, isMax, fed[..1]), fed[..1])
  {
    assert fed[..1][..0] == [] && fed[..1][0] == fed[0];
    assert Feed(window, isMax, fed[..1]) == Reset(Init(window, isMax), fed[0]);
  }

  lemma {:induction false} CoverUpTo(window: nat, isMax: bool, fed: seq<Sample>, k: nat)
    requires InOrder(fed) && 0 < k <= |fed|
    requires forall m :: 0 < m < |fed| ==> !Overlooks(Feed(window, isMax, fed[..m]), fed[m])
    ensures CoversAll(Feed(window, isMax, fed[..k]), fed[..k])
  {
    hide CoversAll, Overlooks, Update;
    if k == 1 {
      FirstCovers(window, isMax, fed);
    } else {
      CoverUpTo(window, isMax, fed, k - 1);
      OneMore(window, isMax, fed, k - 1);
    }
  }

  /**
   * Then the estimate is the extremum of the window if and only if nothing in it as old as the estimate does
   * better.
   */
  lemma CoveredEstimateIsExact(f: Filter, fed: seq<Sample>, now: nat)
    requires CoversAll(f, fed)
    ensures Exact(f, fed, now) <==>
            forall i :: 0 <= i < |fed| && InWindow(fed[i], now, f.window) && fed[i].time <= f.best.time
                        ==> IsBetter(f.isMax, f.best.value, fed[i].value)
  {
  }

  /**
   * A sample at least as good as the estimate replaces all three at once; nothing taken later is overlooked from
   * then on.
   */
  lemma BetterSampleWins(window: nat, isMax: bool, fed: seq<Sample>, s: Sample)
    requires InOrder(fed + [s])
    requires fed == [] || IsBetter(isMax, s.value, Get(Feed(window, isMax, fed)))
    ensures var f := Feed(window, isMax, fed + [s]); f.best == s && CoversAll(f, fed + [s])
  {
    assert (fed + [s])[..|fed|] == fed && (fed + [s])[|fed|] == s;
    if fed != [] {
      assert InOrder(fed) by {
        assert forall i :: 0 <= i < |fed| ==> fed[i] == (fed + [s])[i];
      }
      EstimateIsSound(window, isMax, fed);
    }
    NewestCovers(isMax, s, fed + [s]);
  }

  // ---------- Runs that fall short ----------

  /**
   * The newest sample itself is missed exactly when the old best expires and the one that takes its place is
   * worse than that sample.
   */
  lemma NewestIsMissedExactlyWhen(f: Filter, value: nat, now: nat)
    requires f.initialized && now < TWO_64
    ensures !IsBetter(f.isMax, Get(Update(f, value, now)), value) <==>
            Rotates(f, Sample(value, now)) && !IsBetter(f.isMax, Promoted(f, Sample(value, now)).value, value)
  {
    UpdatedBest(f, Sample(value, now));
  }

  /** Such a run: 90 is the newest sample, the estimate is 50. */
  lemma NewestMissedExample()
    ensures Get(Feed(10, true, [Sample(100, 0), Sample(50, 9), Sample(90, 11)])) == 50
  {
    ExampleSteps();
  }

  /**
   * The same run one sample later: 90 is still in the window, in none of the three places, although this last
   * update does not rotate.
   */
  lemma EvictedExample()
    ensures !Rotates(Feed(10, true, [Sample(100, 0), Sample(50, 9), Sample(90, 11)]), Sample(40, 12))
    ensures var f := Feed(10, true, [Sample(100, 0), Sample(50, 9), Sample(90, 11), Sample(40, 12)]);
            Get(f) == 50 && f.second.value < 90 && f.third.value < 90
  {
    var fed := [Sample(100, 0), Sample(50, 9), Sample(90, 11), Sample(40, 12)];
    assert fed[..3] == [Sample(100, 0), Sample(50, 9), Sample(90, 11)];
    ExampleSteps();
  }

  lemma ExampleSteps()
    ensures Feed(10, true, [Sample(100, 0), Sample(50, 9), Sample(90, 11)])
            == Filter(Sample(50, 9), Sample(50, 9), Sample(90, 11), 10, true, true)
  {
    var fed := [Sample(100, 0), Sample(50, 9), Sample(90, 11)];
    assert fed[..2][..1] == [Sample(100, 0)] && fed[..2][..1][..0] == [];
    assert Feed(10, true, fed[..2][..1]) == Reset(Init(10, true), Sample(100, 0));
    assert Feed(10, true, fed[..2]) == Filter(Sample(100, 0), Sample(50, 9), Sample(50, 9), 10, true, true);
  }

  /** No estimate exceeds a bound on everything fed to a max filter. */
  lemma BoundedUpdate(f: Filter, value: nat, now: nat, bound: nat)
    requires f.best.value <= bound && f.second.value <= bound && f.third.value <= bound && value <= bound
    ensures var f' := Update(f, value, now);
            f'.best.value <= bound && f'.second.value <= bound && f'.third.value <= bound
  {
  }

  // ---------- In place ----------

  class FilterObject {
    const samples: array<Sample>
    const window: nat
    const isMax: bool
    var initialized: bool

    /** Everything fed so far. */
    ghost var fed: seq<Sample>

    ghost predicate Valid()
      reads this, samples
    {
      samples.Length == 3 && View() == Feed(window, isMax, fed)
    }

    ghost function View(): (f: Filter)
      reads this, samples
      requires samples.Length == 3
    {
      Filter(samples[0], samples[1], samples[2], window, isMax, initialized)
    }

    constructor (window: nat, isMax: bool)
      ensures Valid() && fresh(samples) && fed == [] && this.window == window && this.isMax == isMax
    {
      samples := new Sample[3](_ => Sample(0, 0));
      this.window, this.isMax, initialized, fed := window, isMax, false, [];
    }

    method ResetTo(s: Sample)
      requires samples.Length == 3
      modifies this`initialized, samples
      ensures View() == Reset(old(View()), s)
    {
      samples[0], samples[1], samples[2] := s, s, s;
      initialized := true;
    }

    /** `nxp_wf_get`: for times in order, a sample really fed in and no older than the window. */
    method Best() returns (v: nat)
      requires Valid()
      ensures v == Get(View())
      ensures fed != [] && InOrder(fed) ==>
        exists i :: 0 <= i < |fed| && fed[i].value == v && InWindow(fed[i], fed[|fed| - 1].time, window)
    {
      v := samples[0].value;
      if fed != [] && InOrder(fed) {
        EstimateIsSound(window, isMax, fed);
        ghost var i :| 0 <= i < |fed| && fed[i] == samples[0];
        assert InWindow(fed[i], fed[|fed| - 1].time, window);
      }
    }

    /** A copy of the record. */
    method Value() returns (f: Filter)
      requires Valid()
      ensures f == View()
    {
      f := Filter(samples[0], samples[1], samples[2], window, isMax, initialized);
    }

    /** `nxp_wf_update`; a sample at least as good as the estimate becomes it. */
    method Add(value: nat, now: nat)
      requires Valid()
      modifies this, samples
      ensures Valid() && fed == old(fed) + [Sample(value, now)] && View() == Update(old(View()), value, now)
      ensures !old(initialized) || IsBetter(isMax, value, Get(old(View()))) ==> Get(View()) == value
    {
      assert (fed + [Sample(value, now)])[..|fed|] == fed;
      fed := fed + [Sample(value, now)];
      Shift(value, now);
    }

    method Shift(value: nat, now: nat)
      requires samples.Length == 3
      modifies this`initialized, samples
      ensures View() == Update(old(View()), value, now)
    {
      var s := Sample(value, now);
      if !initialized || IsBetter(isMax, value, samples[0].value) {
        ResetTo(s);
        return;
      }
      if Expired(samples[0], now, window) {
        samples[0] := samples[1];
        samples[1] := samples[2];
        samples[2] := s;
        if Expired(samples[0], now, window) {
          samples[0] := samples[1];
          samples[1] := samples[2];
        }
        if Expired(samples[0], now, window) {
          samples[0] := s;
          samples[1] := s;
        }
        return;
      }
      if IsBetter(isMax, value, samples[1].value) || Expired(samples[1], now, window / 4) {
        samples[1] := s;
        samples[2] := s;
        return;
      }
      if IsBetter(isMax, value, samples[2].value) || Expired(samples[2], now, window / 2) {
        samples[2] := s;
      }
    }
  }
}
