/** The short labels of the track status codes carried by the telemetry. */
module StatusCodes {
  import opened Wrappers

  /** `GetShortStatus`: a label for each known code, "" for an unknown or
      missing one. */
  function GetShortStatus(status: Option<int>): (text: string)
    ensures text == "" <==> !(status.Some? && status.value in {1, 2, 4, 5, 6, 7})
  {
    if status == Some(1) then "Green"
    else if status == Some(2) then "Yellow"
    else if status == Some(4) then "SC"
    else if status == Some(5) then "Red"
    else if status == Some(6) then "VSC"
    else if status == Some(7) then "VSC end"
    else ""
  }

  /** The code a label stands for; `None` for any other text. */
  function StatusOfLabel(text: string): Option<int> {
    match text
    case "Green" => Some(1)
    case "Yellow" => Some(2)
    case "SC" => Some(4)
    case "Red" => Some(5)
    case "VSC" => Some(6)
    case "VSC end" => Some(7)
    case _ => None
  }

  /** Every non-empty label names its code back, so distinct known codes get
      distinct labels. */
  lemma LabelRoundTrip(status: Option<int>)
    ensures GetShortStatus(status) != "" ==> StatusOfLabel(GetShortStatus(status)) == status
    ensures StatusOfLabel(GetShortStatus(status)) == None <==> GetShortStatus(status) == ""
  {
  }

  lemma LabelsDistinct(a: Option<int>, b: Option<int>)
    requires GetShortStatus(a) != ""
    requires GetShortStatus(a) == GetShortStatus(b)
    ensures a == b
  {
    LabelRoundTrip(a);
    LabelRoundTrip(b);
  }
}
