/** The record shapes of the analyzer: one `LapData` per driver per lap, one
    `RaceLap` per data row of the telemetry file, and the exceptions that abort
    a parse. Records are built once by the parser and never changed after. */
module RaceData {
  import opened Wrappers

  /** One driver's telemetry on one lap. A missing CSV field is `None`, never 0. */
  datatype LapData = LapData(
    time: Option<real>,        // lap time in seconds
    status: Option<int>,       // track status code (1 = green flag)
    pitstop: bool,
    tyreCompound: string,      // copied verbatim, may be empty
    position: Option<int>)

  /** The two drivers the file carries, in column order. */
  datatype Driver = Gasly | Colapinto

  datatype RaceLap = RaceLap(lapNumber: int, gas: LapData, col: LapData)

  /** What aborts a parse: a row too short for a fixed column index
      (IndexOutOfRangeException) or a non-empty numeric field that does not
      parse (FormatException / OverflowException). */
  datatype ParseError =
    | MissingField(index: nat)
    | BadInteger(text: string)
    | BadNumber(text: string)

  /** The status code of a green-flag lap. */
  const GreenFlag: int := 1

  /** `double.MaxValue`, the "no lap time seen yet" sentinel, as an exact number. */
  const MaxTime: real := 179769313486231570814527423731704356798070567525844996598917476803157260780028538760589558632766878171540458953514382464234321326889464182768467546703537516986049910576551282076245490090389328944075868508455133942304583236903222948165808559332123348274797826204144723168738177180919299881250404026184124858368.0

  /** The telemetry of driver `d` on `lap`. */
  function Of(lap: RaceLap, d: Driver): LapData {
    match d
    case Gasly => lap.gas
    case Colapinto => lap.col
  }

  /** The per-lap telemetry of driver `d`, in lap order. */
  function Column(laps: seq<RaceLap>, d: Driver): (c: seq<LapData>)
    ensures |c| == |laps|
    ensures forall i :: 0 <= i < |laps| ==> c[i] == Of(laps[i], d)
  {
    seq(|laps|, i requires 0 <= i < |laps| => Of(laps[i], d))
  }
}
