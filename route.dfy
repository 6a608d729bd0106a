/**
 * The audit handler of `app/api/audit/route.ts`: the keyword test, the
 * contradiction check against the lower-cased truth source, the result of
 * each record, and the batch loop that counts flagged records and scores
 * the batch.
 */
module AuditRoute {
  import opened Options
  import opened Text
  import opened Keywords
  import opened Records
  import opened Batch

  const ContradictionReason := "Contradicts Truth Source: Claim not found in documentation."
  const CompliantReason := "Compliant with documentation."

  /** The reason of a flagged record without contradiction. */
  function RiskReason(word: string): string {
    "Potential Risk: Unverified mention of '" + word + "'."
  }

  /** The contradiction check on a lower-cased response text, guarded by a
      non-empty truth source and by `hasRiskyKeyword`. */
  function Contradiction(text: string, truthSource: string): bool {
    if |truthSource| > 0 && AnyMatch(RiskyKeywords, text) then
      !AllIncluded(Matching(RiskyKeywords, text), ToLower(truthSource))
    else
      false
  }

  /** A contradiction arises exactly when the truth source is non-empty, a
      keyword occurs in the response, and some keyword that occurs in the
      response does not occur in the lower-cased truth source; so it never
      arises without a keyword. */
  lemma ContradictionMeaning(text: string, truthSource: string)
    ensures Contradiction(text, truthSource) <==>
      |truthSource| > 0 && MentionsKeyword(text) &&
      exists i :: 0 <= i < |RiskyKeywords| && Occurs(RiskyKeywords[i], text) &&
        !Occurs(RiskyKeywords[i], ToLower(truthSource))
    ensures Contradiction(text, truthSource) ==> MentionsKeyword(text)
  {
    AnyMatchMeaning(RiskyKeywords, text);
    FilterEveryMeaning(RiskyKeywords, text, ToLower(truthSource));
  }

  /** The result for one record: `hasRiskyKeyword`, `contradiction`,
      `isRisk`, then the id, status and reason. */
  function AuditLog(log: Log, truthSource: string): AuditResult {
    var responseText := ToLower(ResponseText(log));
    var hasRiskyKeyword := AnyMatch(RiskyKeywords, responseText);
    var contradiction := Contradiction(responseText, truthSource);
    var isRisk := hasRiskyKeyword || contradiction;
    AuditResult(
      ResultIdOf(log),
      if isRisk then Flagged else Clean,
      if isRisk then
        if contradiction then ContradictionReason
        else RiskReason(Interpolate(FirstMatch(RiskyKeywords, responseText)))
      else CompliantReason)
  }

  /** What one record's result says: it is flagged exactly when its
      lower-cased response mentions a keyword, whatever the truth source; its
      id is the record's own when that is truthy; a clean record is
      compliant; a flagged one either contradicts the truth source or names
      the first keyword, in list order, that it mentions. */
  lemma AuditLogMeaning(log: Log, truthSource: string)
    ensures var text, r := ToLower(ResponseText(log)), AuditLog(log, truthSource);
      && (r.status == Flagged <==> MentionsKeyword(text))
      && r.id == ResultIdOf(log)
      && (r.status == Clean ==> r.reason == CompliantReason)
      && (r.status == Flagged && Contradiction(text, truthSource) ==> r.reason == ContradictionReason)
      && (r.status == Flagged && !Contradiction(text, truthSource) ==>
            exists j :: IsFirstMatch(RiskyKeywords, text, j) && r.reason == RiskReason(RiskyKeywords[j]))
  {
    var text := ToLower(ResponseText(log));
    AnyMatchMeaning(RiskyKeywords, text);
    ContradictionMeaning(text, truthSource);
    FirstMatchMeaning(RiskyKeywords, text);
  }

  /** The results of `logs.map(...)`, one per record, in order. */
  function Results(logs: seq<Log>, truthSource: string): seq<AuditResult> {
    seq(|logs|, i requires 0 <= i < |logs| => AuditLog(logs[i], truthSource))
  }

  /** The handler's audit of a parsed batch against a truth source. */
  method Audit(logs: seq<Log>, truthSource: string) returns (report: Report)
    ensures report.detailedResults == Results(logs, truthSource)
    ensures report.totalLogs == |logs|
    ensures report.issues == CountFlagged(report.detailedResults) <= |logs|
    ensures report.score == Score(report.issues, |logs|)
  {
    report := AuditBatch(logs, log => AuditLog(log, truthSource));
  }

  /** The truth source never changes a record's status, only its reason. */
  lemma StatusIgnoresTruthSource(log: Log, source1: string, source2: string)
    ensures AuditLog(log, source1).status == AuditLog(log, source2).status
  {
    AuditLogMeaning(log, source1);
    AuditLogMeaning(log, source2);
  }

  /** With an empty truth source no record contradicts it: a flagged
      record's reason always names the first keyword it mentions. */
  lemma EmptyTruthSourceNamesKeyword(log: Log)
    requires AuditLog(log, "").status == Flagged
    ensures exists j ::
      IsFirstMatch(RiskyKeywords, ToLower(ResponseText(log)), j) &&
      AuditLog(log, "").reason == RiskReason(RiskyKeywords[j])
  {
    AuditLogMeaning(log, "");
  }

  /** A record whose response is absent or empty is clean and compliant. */
  lemma EmptyResponseIsClean(log: Log, truthSource: string)
    requires log.response.None? || log.response.value == ""
    ensures AuditLog(log, truthSource) == AuditResult(ResultIdOf(log), Clean, CompliantReason)
  {
    NoKeywordInEmptyText();
    AuditLogMeaning(log, truthSource);
  }

  /** A keyword written in any mix of cases in the response flags the record:
      the keywords are already lower case, so lower-casing the response alone
      makes the test case-insensitive. */
  lemma MentionInAnyCaseFlags(log: Log, truthSource: string, word: string, k: nat)
    requires k < |RiskyKeywords| && ToLower(word) == ToLower(RiskyKeywords[k])
    requires Occurs(word, ResponseText(log))
    ensures AuditLog(log, truthSource).status == Flagged
  {
    KeywordsAreLowerCase();
    OccursLowered(word, ResponseText(log));
    AuditLogMeaning(log, truthSource);
  }

  /** The flagged records are exactly those whose lower-cased response
      mentions a keyword, and the score is 0 when every record is flagged. */
  lemma AllFlaggedScoresZero(logs: seq<Log>, truthSource: string)
    requires |logs| > 0
    requires forall i :: 0 <= i < |logs| ==> MentionsKeyword(ToLower(ResponseText(logs[i])))
    ensures Score(CountFlagged(Results(logs, truthSource)), |logs|) == 0
  {
    var rs := Results(logs, truthSource);
    forall i | 0 <= i < |logs|
      ensures rs[i].status == Flagged
    {
      AuditLogMeaning(logs[i], truthSource);
    }
    CountFlaggedAll(rs);
    ScoreAllFlagged(|logs|);
  }
}
