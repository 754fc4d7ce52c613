/** The statistics pass of `AnalyzeRace`: one forward loop over the laps that
    keeps, per driver, a pitstop counter, the running fastest lap, the clean-lap
    times and the tyre-compound sequence, plus the pace deltas of laps where both
    drivers ran under green flag; then the averages, medians and the pace-delta
    verdict. The printing that follows in the source is not modelled. */
module Statistics {
  import opened Wrappers
  import opened RaceData
  import opened Sequences
  import opened Medians

  // ---------------------------------------------------------------------------
  // What one lap contributes

  function LapTime(d: LapData): Option<real> {
    d.time
  }

  predicate Pitted(d: LapData) {
    d.pitstop
  }

  /** A clean lap: green flag, no pitstop, and a recorded time. */
  predicate IsClean(d: LapData) {
    d.status == Some(GreenFlag) && !d.pitstop && d.time.Some?
  }

  function CleanTime(d: LapData): Option<real> {
    if IsClean(d) then d.time else None
  }

  function NamedTyre(d: LapData): Option<string> {
    if d.tyreCompound == "" then None else Some(d.tyreCompound)
  }

  /** Both drivers under green flag with a recorded time (pitstops allowed). */
  predicate BothGreen(lap: RaceLap) {
    && lap.gas.status == Some(GreenFlag) && lap.col.status == Some(GreenFlag)
    && lap.gas.time.Some? && lap.col.time.Some?
  }

  /** Gasly's time minus Colapinto's on a lap where both ran under green flag. */
  function PaceDelta(lap: RaceLap): Option<real> {
    if BothGreen(lap) then Some(lap.gas.time.value - lap.col.time.value) else None
  }

  // ---------------------------------------------------------------------------
  // Reference definitions of the accumulators

  function PitstopCount(laps: seq<RaceLap>, d: Driver): nat {
    Count(Column(laps, d), Pitted)
  }

  function RecordedTimes(laps: seq<RaceLap>, d: Driver): seq<real> {
    Keep(Column(laps, d), LapTime)
  }

  /** The fastest lap, `MaxTime` when no time was recorded. */
  function FastestLap(laps: seq<RaceLap>, d: Driver): real {
    RunningMin(MaxTime, RecordedTimes(laps, d))
  }

  function CleanLaps(laps: seq<RaceLap>, d: Driver): seq<real> {
    Keep(Column(laps, d), CleanTime)
  }

  /** The non-empty tyre compounds in lap order, consecutive repeats collapsed. */
  function Compounds(laps: seq<RaceLap>, d: Driver): seq<string> {
    Collapse(Keep(Column(laps, d), NamedTyre))
  }

  function Deltas(laps: seq<RaceLap>): seq<real> {
    Keep(laps, PaceDelta)
  }

  // ---------------------------------------------------------------------------
  // The summary handed to the report

  datatype DriverSummary = DriverSummary(
    pitstops: nat,
    fastest: real,            // MaxTime when the driver has no recorded time
    averagePace: real,        // 0 when there is no clean lap
    medianPace: real,         // 0 when there is no clean lap
    compounds: seq<string>)

  datatype PaceVerdict = PaceVerdict(meanDelta: real, faster: Driver)

  datatype RaceSummary = RaceSummary(gas: DriverSummary, col: DriverSummary, paceDelta: Option<PaceVerdict>)

  function DriverSummaryOf(laps: seq<RaceLap>, d: Driver): DriverSummary {
    DriverSummary(PitstopCount(laps, d), FastestLap(laps, d),
                  Average(CleanLaps(laps, d)), Median(CleanLaps(laps, d)), Compounds(laps, d))
  }

  /** What the statistics pass is meant to compute from the laps. */
  function SummaryOf(laps: seq<RaceLap>): RaceSummary {
    RaceSummary(DriverSummaryOf(laps, Gasly), DriverSummaryOf(laps, Colapinto), PaceFooter(Deltas(laps)))
  }

  /** A negative mean delta means Gasly was faster; zero goes to Colapinto. */
  function Winner(meanDelta: real): (w: Driver)
    ensures w == Gasly <==> meanDelta < 0.0
    ensures w == Colapinto <==> meanDelta >= 0.0
  {
    if meanDelta < 0.0 then Gasly else Colapinto
  }

  /** The pace-delta footer: present exactly when some delta was collected. */
  function PaceFooter(deltas: seq<real>): (v: Option<PaceVerdict>)
    ensures v.Some? <==> |deltas| > 0
    ensures v.Some? ==> v.value.meanDelta == Sum(deltas) / (|deltas| as real)
    ensures v.Some? ==> (v.value.faster == Gasly <==> Sum(deltas) < 0.0)
  {
    if |deltas| > 0 then
      var mean := Average(deltas);
      Some(PaceVerdict(mean, Winner(mean)))
    else
      None
  }

  /** The summing `foreach` of the averages. */
  method Total(s: seq<real>) returns (t: real)
    ensures t == Sum(s)
  {
    t := 0.0;
    var i := 0;
    while i < |s|
      invariant 0 <= i <= |s|
      invariant t == Sum(s[..i])
    {
      assert Init(s[..i + 1]) == s[..i];
      t := t + s[i];
      i := i + 1;
    }
    assert s[..i] == s;
  }

  /** A sample's median, taken as the source does: copy it into a list and let
      `CalculateMedian` sort that list in place. */
  method MedianOf(s: seq<real>) returns (m: real)
    ensures m == Median(s)
  {
    var values := new real[|s|](i requires 0 <= i < |s| => s[i]);
    assert values[..] == s;
    m := CalculateMedian(values);
  }

  // ---------------------------------------------------------------------------
  // The loop

  lemma ColumnStep(laps: seq<RaceLap>, i: nat, d: Driver)
    requires i < |laps|
    ensures Column(laps[..i + 1], d) == Column(laps[..i], d) + [Of(laps[i], d)]
    ensures Init(Column(laps[..i + 1], d)) == Column(laps[..i], d)
    ensures Last(Column(laps[..i + 1], d)) == Of(laps[i], d)
  {
    assert Column(laps[..i + 1], d) == Column(laps[..i], d) + [Of(laps[i], d)];
    InitOfSnoc(Column(laps[..i], d), Of(laps[i], d));
  }

  /** The accumulators of one driver after the laps seen so far. */
  ghost predicate DriverAccumulators(seen: seq<RaceLap>, d: Driver, stops: nat, fastest: real,
                                     clean: seq<real>, compounds: seq<string>)
  {
    && stops == PitstopCount(seen, d)
    && fastest == FastestLap(seen, d)
    && clean == CleanLaps(seen, d)
    && compounds == Compounds(seen, d)
  }

  /** One lap of one driver's part of the loop body: the counter, the compound
      list, the fastest lap and the clean-lap list. */
  method DriverStep(ghost laps: seq<RaceLap>, i: nat, d: Driver, lap: LapData,
                    stops: nat, fastest: real, clean: seq<real>, compounds: seq<string>)
    returns (stops': nat, fastest': real, clean': seq<real>, compounds': seq<string>)
    requires i < |laps| && lap == Of(laps[i], d)
    requires DriverAccumulators(laps[..i], d, stops, fastest, clean, compounds)
    ensures DriverAccumulators(laps[..i + 1], d, stops', fastest', clean', compounds')
  {
    ColumnStep(laps, i, d);
    var before := Column(laps[..i], d);
    KeepSnoc(before, lap, LapTime);
    KeepSnoc(before, lap, CleanTime);
    KeepSnoc(before, lap, NamedTyre);

    stops', fastest', clean', compounds' := stops, fastest, clean, compounds;
    if lap.pitstop {
      stops' := stops' + 1;
    }

    var tyre := lap.tyreCompound;
    ghost var named := Keep(before, NamedTyre);
    if tyre != "" {
      CollapseSnoc(named, tyre);
      if named != [] {
        CollapseEnds(named);
      }
      if compounds' == [] || Last(compounds') != tyre {
        compounds' := compounds' + [tyre];
      }
    }

    if lap.time.Some? {
      InitOfSnoc(RecordedTimes(laps[..i], d), lap.time.value);
      if lap.time.value < fastest' {
        fastest' := lap.time.value;
      }
      if lap.status == Some(GreenFlag) && !lap.pitstop {
        clean' := clean' + [lap.time.value];
      }
    }
  }

  /** The statistics pass: one forward loop over the laps, then the averages
      (0 for no clean lap), the medians and the pace-delta footer. */
  method AnalyzeRace(laps: seq<RaceLap>) returns (summary: RaceSummary)
    ensures summary == SummaryOf(laps)
    ensures NoAdjacentRepeats(summary.gas.compounds) && "" !in summary.gas.compounds
    ensures NoAdjacentRepeats(summary.col.compounds) && "" !in summary.col.compounds
  {
    var gasStops, colStops := 0, 0;
    var gasFastest, colFastest := MaxTime, MaxTime;
    var gasClean: seq<real>, colClean: seq<real> := [], [];
    var gasCompounds: seq<string>, colCompounds: seq<string> := [], [];
    var overlappingDeltas: seq<real> := [];

    var i := 0;
    while i < |laps|
      invariant 0 <= i <= |laps|
      invariant DriverAccumulators(laps[..i], Gasly, gasStops, gasFastest, gasClean, gasCompounds)
      invariant DriverAccumulators(laps[..i], Colapinto, colStops, colFastest, colClean, colCompounds)
      invariant overlappingDeltas == Deltas(laps[..i])
    {
      var lap := laps[i];
      gasStops, gasFastest, gasClean, gasCompounds :=
        DriverStep(laps, i, Gasly, lap.gas, gasStops, gasFastest, gasClean, gasCompounds);
      colStops, colFastest, colClean, colCompounds :=
        DriverStep(laps, i, Colapinto, lap.col, colStops, colFastest, colClean, colCompounds);

      assert laps[..i + 1] == laps[..i] + [lap];
      KeepSnoc(laps[..i], lap, PaceDelta);
      if lap.gas.status == Some(GreenFlag) && lap.col.status == Some(GreenFlag)
         && lap.gas.time.Some? && lap.col.time.Some?
      {
        overlappingDeltas := overlappingDeltas + [lap.gas.time.value - lap.col.time.value];
      }
      i := i + 1;
    }
    assert laps[..i] == laps;

    var gasTotal := Total(gasClean);
    var gasAvg := if |gasClean| > 0 then gasTotal / (|gasClean| as real) else 0.0;
    var colTotal := Total(colClean);
    var colAvg := if |colClean| > 0 then colTotal / (|colClean| as real) else 0.0;

    var gasMedian := MedianOf(gasClean);
    var colMedian := MedianOf(colClean);

    var footer: Option<PaceVerdict> := None;
    if |overlappingDeltas| > 0 {
      var avgDelta := Sum(overlappingDeltas) / (|overlappingDeltas| as real);
      var winner := if avgDelta < 0.0 then Gasly else Colapinto;
      footer := Some(PaceVerdict(avgDelta, winner));
    }

    summary := RaceSummary(
      DriverSummary(gasStops, gasFastest, gasAvg, gasMedian, gasCompounds),
      DriverSummary(colStops, colFastest, colAvg, colMedian, colCompounds),
      footer);
    CompoundsWellFormed(laps, Gasly);
    CompoundsWellFormed(laps, Colapinto);
  }

  // ---------------------------------------------------------------------------
  // What the accumulators mean

  lemma ColumnAppend(a: seq<RaceLap>, b: seq<RaceLap>, d: Driver)
    ensures Column(a + b, d) == Column(a, d) + Column(b, d)
  {
    assert Column(a + b, d) == Column(a, d) + Column(b, d);
  }

  /** The pitstop count is the number of laps the driver pitted on. */
  lemma {:induction false} PitstopCountMeaning(laps: seq<RaceLap>, d: Driver)
    ensures PitstopCount(laps, d) == |set i | 0 <= i < |laps| && Of(laps[i], d).pitstop|
  {
    if laps != [] {
      var n := |laps| - 1;
      PitstopCountMeaning(laps[..n], d);
      ColumnStep(laps, n, d);
      assert laps[..n + 1] == laps;
      var before := set i | 0 <= i < n && Of(laps[..n][i], d).pitstop;
      var now := set i | 0 <= i < |laps| && Of(laps[i], d).pitstop;
      assert before == set i | 0 <= i < n && Of(laps[i], d).pitstop;
      if Of(laps[n], d).pitstop {
        assert now == before + {n};
      } else {
        assert now == before;
      }
    }
  }

  /** The fastest lap is at most every recorded time; with no recorded time it
      is the `MaxTime` sentinel; and when some recorded time does not exceed
      the sentinel it is one of the recorded times. */
  lemma FastestLapMeaning(laps: seq<RaceLap>, d: Driver)
    ensures forall i :: 0 <= i < |laps| && Of(laps[i], d).time.Some? ==> FastestLap(laps, d) <= Of(laps[i], d).time.value
    ensures (forall i :: 0 <= i < |laps| ==> Of(laps[i], d).time.None?) ==> FastestLap(laps, d) == MaxTime
    ensures (exists i :: 0 <= i < |laps| && Of(laps[i], d).time.Some? && Of(laps[i], d).time.value <= MaxTime)
            ==> exists i :: 0 <= i < |laps| && Of(laps[i], d).time == Some(FastestLap(laps, d))
  {
    var c := Column(laps, d);
    var times := RecordedTimes(laps, d);
    var m := FastestLap(laps, d);
    forall i | 0 <= i < |laps| && Of(laps[i], d).time.Some?
      ensures m <= Of(laps[i], d).time.value
    {
      var t := Of(laps[i], d).time.value;
      KeepMember(c, LapTime, t);
      assert LapTime(c[i]) == Some(t);
      var k :| 0 <= k < |times| && times[k] == t;
    }
    if forall i :: 0 <= i < |laps| ==> Of(laps[i], d).time.None? {
      if times != [] {
        KeepMember(c, LapTime, times[0]);
        assert false;
      }
    }
    if exists i :: 0 <= i < |laps| && Of(laps[i], d).time.Some? && Of(laps[i], d).time.value <= MaxTime {
      var i :| 0 <= i < |laps| && Of(laps[i], d).time.Some? && Of(laps[i], d).time.value <= MaxTime;
      if m == MaxTime {
        assert Of(laps[i], d).time == Some(m);
      } else {
        assert m in times;
        KeepMember(c, LapTime, m);
      }
    }
  }

  /** The clean list holds exactly the times of the clean laps ... */
  lemma CleanLapsMembers(laps: seq<RaceLap>, d: Driver, x: real)
    ensures x in CleanLaps(laps, d) <==>
      exists i :: 0 <= i < |laps| && IsClean(Of(laps[i], d)) && Of(laps[i], d).time == Some(x)
  {
    var c := Column(laps, d);
    KeepMember(c, CleanTime, x);
    if x in CleanLaps(laps, d) {
      var i :| 0 <= i < |c| && CleanTime(c[i]) == Some(x);
      assert IsClean(Of(laps[i], d));
    }
    if exists i :: 0 <= i < |laps| && IsClean(Of(laps[i], d)) && Of(laps[i], d).time == Some(x) {
      var i :| 0 <= i < |laps| && IsClean(Of(laps[i], d)) && Of(laps[i], d).time == Some(x);
      assert CleanTime(c[i]) == Some(x);
    }
  }

  /** ... one per clean lap, in lap order: splitting the race splits the list. */
  lemma CleanLapsInOrder(a: seq<RaceLap>, b: seq<RaceLap>, d: Driver)
    ensures CleanLaps(a + b, d) == CleanLaps(a, d) + CleanLaps(b, d)
    ensures |CleanLaps(a, d)| == Count(Column(a, d), IsClean)
  {
    ColumnAppend(a, b, d);
    KeepAppend(Column(a, d), Column(b, d), CleanTime);
    CleanLapsCount(Column(a, d));
  }

  lemma {:induction false} CleanLapsCount(c: seq<LapData>)
    ensures |Keep(c, CleanTime)| == Count(c, IsClean)
  {
    if c != [] {
      CleanLapsCount(Init(c));
    }
  }

  /** A delta is collected exactly for the laps where both drivers ran under
      green flag with a recorded time, and it is Gasly's time minus
      Colapinto's ... */
  lemma DeltasMembers(laps: seq<RaceLap>, x: real)
    ensures x in Deltas(laps) <==>
      exists i :: 0 <= i < |laps| && BothGreen(laps[i]) && x == laps[i].gas.time.value - laps[i].col.time.value
  {
    KeepMember(laps, PaceDelta, x);
  }

  /** ... in lap order. */
  lemma DeltasInOrder(a: seq<RaceLap>, b: seq<RaceLap>)
    ensures Deltas(a + b) == Deltas(a) + Deltas(b)
  {
    KeepAppend(a, b, PaceDelta);
  }

  /** The compound list never holds an empty name nor two equal neighbours, and
      holds exactly the non-empty compounds the driver used. */
  lemma CompoundsWellFormed(laps: seq<RaceLap>, d: Driver)
    ensures "" !in Compounds(laps, d)
    ensures NoAdjacentRepeats(Compounds(laps, d))
    ensures forall t :: t in Compounds(laps, d) <==>
      t != "" && exists i :: 0 <= i < |laps| && Of(laps[i], d).tyreCompound == t
  {
    var c := Column(laps, d);
    var named := Keep(c, NamedTyre);
    CollapseHasNoRepeats(named);
    forall t ensures t in Compounds(laps, d) <==> t != "" && exists i :: 0 <= i < |laps| && Of(laps[i], d).tyreCompound == t {
      CollapseElements(named, t);
      KeepMember(c, NamedTyre, t);
      if t != "" && exists i :: 0 <= i < |laps| && Of(laps[i], d).tyreCompound == t {
        var i :| 0 <= i < |laps| && Of(laps[i], d).tyreCompound == t;
        assert NamedTyre(c[i]) == Some(t);
      }
    }
  }

  lemma {:induction false} SumNegative(s: seq<real>)
    requires |s| > 0
    requires forall i :: 0 <= i < |s| ==> s[i] < 0.0
    ensures Sum(s) < 0.0
  {
    if |s| > 1 {
      SumNegative(Init(s));
    }
  }

  /** When Gasly is quicker on every compared lap, the footer names Gasly; when
      Colapinto is never slower, it names Colapinto. */
  lemma PaceFooterConsistent(deltas: seq<real>)
    requires |deltas| > 0
    ensures (forall i :: 0 <= i < |deltas| ==> deltas[i] < 0.0) ==> PaceFooter(deltas).value.faster == Gasly
    ensures (forall i :: 0 <= i < |deltas| ==> deltas[i] >= 0.0) ==> PaceFooter(deltas).value.faster == Colapinto
  {
    if forall i :: 0 <= i < |deltas| ==> deltas[i] < 0.0 {
      SumNegative(deltas);
    }
    if forall i :: 0 <= i < |deltas| ==> deltas[i] >= 0.0 {
      SumBounds(deltas, 0.0, AbsSum(deltas));
    }
  }

  /** A bound for every element of a sample (its sum of magnitudes). */
  ghost function AbsSum(s: seq<real>): (b: real)
    ensures b >= 0.0
    ensures forall i :: 0 <= i < |s| ==> -b <= s[i] <= b
  {
    if s == [] then 0.0
    else
      var x := Last(s);
      assert forall i :: 0 <= i < |s| - 1 ==> s[i] == Init(s)[i];
      AbsSum(Init(s)) + (if x < 0.0 then -x else x)
  }

  /** No clean-lap average or median is faster than the fastest lap. */
  lemma FastestBelowCleanPace(laps: seq<RaceLap>, d: Driver)
    requires CleanLaps(laps, d) != []
    ensures FastestLap(laps, d) <= Average(CleanLaps(laps, d))
    ensures FastestLap(laps, d) <= Median(CleanLaps(laps, d))
  {
    var clean := CleanLaps(laps, d);
    var lo := FastestLap(laps, d);
    var hi := AbsSum(clean);
    FastestLapMeaning(laps, d);
    forall k | 0 <= k < |clean| ensures lo <= clean[k] <= hi {
      CleanLapsMembers(laps, d, clean[k]);
    }
    AverageBounds(clean, lo, hi);
    MedianBounds(clean, lo, hi);
  }

  // ---------------------------------------------------------------------------
  // Worked examples

  function Green(time: real): LapData {
    LapData(Some(time), Some(GreenFlag), false, "", None)
  }

  lemma CompoundsExample()
    ensures Collapse(["SOFT", "SOFT", "MEDIUM", "MEDIUM", "SOFT"]) == ["SOFT", "MEDIUM", "SOFT"]
  {
    var s := ["SOFT", "SOFT", "MEDIUM", "MEDIUM", "SOFT"];
    assert s[1..] == ["SOFT", "MEDIUM", "MEDIUM", "SOFT"];
    assert s[1..][1..] == ["MEDIUM", "MEDIUM", "SOFT"];
    assert s[1..][1..][1..] == ["MEDIUM", "SOFT"];
    assert s[1..][1..][1..][1..] == ["SOFT"];
  }

  /** Two green laps, -1.0 and +0.5: the mean delta is -0.25, Gasly faster. A lap
      where Colapinto is under yellow flag adds no delta. */
  lemma PaceDeltaExample()
    ensures Deltas([RaceLap(1, Green(90.0), Green(91.0)), RaceLap(2, Green(89.0), Green(88.5))]) == [-1.0, 0.5]
    ensures PaceFooter([-1.0, 0.5]) == Some(PaceVerdict(-0.25, Gasly))
    ensures Deltas([RaceLap(3, Green(90.123), LapData(Some(92.0), Some(2), false, "", None))]) == []
    ensures PaceFooter([0.5, -0.5]) == Some(PaceVerdict(0.0, Colapinto))
  {
    var laps := [RaceLap(1, Green(90.0), Green(91.0)), RaceLap(2, Green(89.0), Green(88.5))];
    assert Init(laps) == [laps[0]];
    assert Init([laps[0]]) == [];
    assert Sum([-1.0, 0.5]) == -0.5 by {
      assert Init([-1.0, 0.5]) == [-1.0];
      assert Init([-1.0]) == [];
    }
    assert Sum([0.5, -0.5]) == 0.0 by {
      assert Init([0.5, -0.5]) == [0.5];
      assert Init([0.5]) == [];
    }
    var yellow := [RaceLap(3, Green(90.123), LapData(Some(92.0), Some(2), false, "", None))];
    assert Init(yellow) == [];
  }
}
