/** The program's top level: read the lines, and analyse them when at least one
    lap was loaded. Banners and the report itself are not modelled. */
module Pipeline {
  import opened Wrappers
  import opened RaceData
  import opened Parsing
  import opened Statistics

  datatype Outcome =
    | NoData                                        // "No valid data found to analyze."
    | Aborted(error: ParseError)                    // the parse threw
    | Analyzed(lapsLoaded: nat, summary: RaceSummary)

  /** `Main`, with `None` for a missing file. */
  method Run(file: Option<seq<string>>, fmt: NumberFormat) returns (o: Outcome)
    ensures file.None? ==> o == NoData
    ensures file.Some? && ParseLines(file.value, fmt).Failure? ==> o == Aborted(ParseLines(file.value, fmt).error)
    ensures file.Some? && ParseLines(file.value, fmt) == Success([]) ==> o == NoData
    ensures o.Analyzed? <==> file.Some? && ParseLines(file.value, fmt).Success? && ParseLines(file.value, fmt).value != []
    ensures o.Analyzed? ==> o == Analyzed(|ParseLines(file.value, fmt).value|, SummaryOf(ParseLines(file.value, fmt).value))
  {
    var read := ReadRaceData(file, fmt);
    if read.Failure? {
      return Aborted(read.error);
    }
    var data := read.value;
    if |data| > 0 {
      var summary := AnalyzeRace(data);
      o := Analyzed(|data|, summary);
    } else {
      o := NoData;
    }
  }
}
