/**
 * The simpler audit handler of `app/api/audit/router.ts`: a record is
 * flagged when its lower-cased response contains a risky keyword; there is
 * no truth source.
 */
module AuditRouter {
  import opened Text
  import opened Keywords
  import opened Records
  import opened Batch

  const CompliantReason := "Compliant"

  /** The reason of a flagged record. */
  function HallucinationReason(word: string): string {
    "Potential Hallucination: Found unverified claim involving '" + word + "'"
  }

  /** The result for one record.  The handler lower-cases the response
      inside each `includes` test; lower-casing is deterministic, so doing it
      once gives the same answers. */
  function AuditLog(log: Log): AuditResult {
    var responseText := ResponseText(log);
    var isRisk := AnyMatch(RiskyKeywords, ToLower(responseText));
    AuditResult(
      ResultIdOf(log),
      if isRisk then Flagged else Clean,
      if isRisk then HallucinationReason(Interpolate(FirstMatch(RiskyKeywords, ToLower(responseText))))
      else CompliantReason)
  }

  /** What one record's result says: it is flagged exactly when its
      lower-cased response mentions a keyword; its id is the record's own
      when that is truthy; a clean record is compliant; a flagged one names
      the first keyword, in list order, that it mentions. */
  lemma AuditLogMeaning(log: Log)
    ensures var text, r := ToLower(ResponseText(log)), AuditLog(log);
      && (r.status == Flagged <==> MentionsKeyword(text))
      && r.id == ResultIdOf(log)
      && (r.status == Clean ==> r.reason == CompliantReason)
      && (r.status == Flagged ==>
            exists j :: IsFirstMatch(RiskyKeywords, text, j) && r.reason == HallucinationReason(RiskyKeywords[j]))
  {
    var text := ToLower(ResponseText(log));
    AnyMatchMeaning(RiskyKeywords, text);
    FirstMatchMeaning(RiskyKeywords, text);
  }

  /** The results of `logs.map(...)`, one per record, in order. */
  function Results(logs: seq<Log>): seq<AuditResult> {
    seq(|logs|, i requires 0 <= i < |logs| => AuditLog(logs[i]))
  }

  /** The handler's audit of a parsed batch. */
  method Audit(logs: seq<Log>) returns (report: Report)
    ensures report.detailedResults == Results(logs)
    ensures report.totalLogs == |logs|
    ensures report.issues == CountFlagged(report.detailedResults) <= |logs|
    ensures report.score == Score(report.issues, |logs|)
  {
    report := AuditBatch(logs, log => AuditLog(log));
  }

  /** A record whose response is absent or empty is clean and compliant. */
  lemma EmptyResponseIsClean(log: Log)
    requires log.response.None? || log.response.value == ""
    ensures AuditLog(log) == AuditResult(ResultIdOf(log), Clean, CompliantReason)
  {
    NoKeywordInEmptyText();
    AuditLogMeaning(log);
  }

  /** A batch whose responses mention no keyword has no issues and scores 100. */
  lemma NoMentionsScoresFull(logs: seq<Log>)
    requires forall i :: 0 <= i < |logs| ==> !MentionsKeyword(ToLower(ResponseText(logs[i])))
    ensures CountFlagged(Results(logs)) == 0
    ensures Score(CountFlagged(Results(logs)), |logs|) == 100
  {
    var rs := Results(logs);
    forall i | 0 <= i < |logs|
      ensures rs[i].status == Clean
    {
      AuditLogMeaning(logs[i]);
    }
    CountFlaggedNone(rs);
    ScoreNoneFlagged(|logs|);
  }
}
