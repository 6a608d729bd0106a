/**
 * The two audit handlers agree: for every record and every truth source
 * they assign the same status, so they count the same issues and report the
 * same score; where the route handler finds no contradiction the two
 * reasons name the same keyword.
 */
module HandlerAgreement {
  import opened Text
  import opened Keywords
  import opened Records
  import opened Batch
  import AuditRoute
  import AuditRouter

  /** Both handlers give a record the same status. Both keep a truthy id;
      `Generated` on both sides stands for two separate random ids. */
  lemma SameRecordStatus(log: Log, truthSource: string)
    ensures AuditRoute.AuditLog(log, truthSource).status == AuditRouter.AuditLog(log).status
    ensures AuditRoute.AuditLog(log, truthSource).id == AuditRouter.AuditLog(log).id
  {
    AuditRoute.AuditLogMeaning(log, truthSource);
    AuditRouter.AuditLogMeaning(log);
  }

  /** Without a contradiction, a flagged record's two reasons name the same keyword. */
  lemma SameKeywordNamed(log: Log, truthSource: string)
    requires AuditRoute.AuditLog(log, truthSource).status == Flagged
    requires !AuditRoute.Contradiction(ToLower(ResponseText(log)), truthSource)
    ensures exists j ::
      0 <= j < |RiskyKeywords| &&
      AuditRoute.AuditLog(log, truthSource).reason == AuditRoute.RiskReason(RiskyKeywords[j]) &&
      AuditRouter.AuditLog(log).reason == AuditRouter.HallucinationReason(RiskyKeywords[j])
  {
    var text := ToLower(ResponseText(log));
    AuditRoute.AuditLogMeaning(log, truthSource);
    AuditRouter.AuditLogMeaning(log);
    var j :| IsFirstMatch(RiskyKeywords, text, j) &&
      AuditRoute.AuditLog(log, truthSource).reason == AuditRoute.RiskReason(RiskyKeywords[j]);
    var k :| IsFirstMatch(RiskyKeywords, text, k) &&
      AuditRouter.AuditLog(log).reason == AuditRouter.HallucinationReason(RiskyKeywords[k]);
    FirstMatchUnique(RiskyKeywords, text, j, k);
  }

  /** Over a whole batch: the same statuses, the same issue count, the same score. */
  lemma SameBatchMetrics(logs: seq<Log>, truthSource: string)
    ensures |AuditRoute.Results(logs, truthSource)| == |AuditRouter.Results(logs)| == |logs|
    ensures forall i :: 0 <= i < |logs| ==>
      AuditRoute.Results(logs, truthSource)[i].status == AuditRouter.Results(logs)[i].status
    ensures CountFlagged(AuditRoute.Results(logs, truthSource)) == CountFlagged(AuditRouter.Results(logs))
    ensures Score(CountFlagged(AuditRoute.Results(logs, truthSource)), |logs|) ==
      Score(CountFlagged(AuditRouter.Results(logs)), |logs|)
  {
    var a, b := AuditRoute.Results(logs, truthSource), AuditRouter.Results(logs);
    forall i | 0 <= i < |logs|
      ensures a[i].status == b[i].status
    {
      SameRecordStatus(logs[i], truthSource);
    }
    CountFlaggedByStatus(a, b);
  }
}
