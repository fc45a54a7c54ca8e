/** What the detectors of the input-control demo report and what is decided on it. */
module Findings {
  import opened Wrappers

  datatype Decision = ALLOW | MASK | REVIEW | BLOCK

  datatype Severity = LOW | MEDIUM | HIGH | CRITICAL

  /** The decision a finding brings with it; `Neutral` is the text `NONE`. */
  datatype Contribution = Unset | Neutral | Wants(decision: Decision)

  datatype Location = Location(source: string, start: int, end: int)

  datatype Finding = Finding(
    category: string,
    severity: Severity,
    kind: Option<string>,
    location: Location,
    maskedValue: Option<string>,
    maskingRequired: Option<bool>,
    contribution: Contribution)

  datatype CompositeRisk = CompositeRisk(
    ruleId: string,
    matchedTypes: seq<string>,
    risk: Severity,
    decisionContribution: Decision)

  datatype DestinationType = InternalModel | ApprovedExternalLlm | UnapprovedExternalLlm | ExternalApi | Unknown

  datatype Destination = Destination(kind: DestinationType, approved: bool)
}
