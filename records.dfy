/**
 * The already-parsed input records and the result shapes both audit
 * handlers return.
 */
module Records {
  import opened Options

  /** One entry of the uploaded JSON array; both fields may be absent. */
  datatype Log = Log(id: Option<string>, response: Option<string>)

  /** The id of a result: the record's own, or one generated at random
      (the random text is not modelled). */
  datatype ResultId = Given(value: string) | Generated

  datatype Status = Flagged | Clean

  /** One entry of `detailedResults`. */
  datatype AuditResult = AuditResult(id: ResultId, status: Status, reason: string)

  /** The handler's JSON response on success. */
  datatype Report = Report(score: int, totalLogs: nat, issues: nat, detailedResults: seq<AuditResult>)

  /** `log.response || ""`: the response text, empty when it is absent. */
  function ResponseText(log: Log): string {
    match log.response
    case Some(s) => s
    case None => ""
  }

  /** `log.id || <random>`: a truthy (present, non-empty) id is kept as it
      is; otherwise a fresh one is generated. */
  function ResultIdOf(log: Log): (r: ResultId)
    ensures r.Given? <==> log.id.Some? && log.id.value != ""
    ensures r.Given? ==> r.value == log.id.value
  {
    if log.id.Some? && log.id.value != "" then Given(log.id.value) else Generated
  }
}
