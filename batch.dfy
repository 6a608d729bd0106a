/**
 * The batch work both handlers share: `logs.map` over the records while a
 * counter of flagged results is bumped, then the integrity score
 * `max(0, 100 - round(100 * issues / total))`, or 100 for an empty batch.
 */
module Batch {
  import opened Records

  /** The number of results whose status is `Flagged`. */
  function CountFlagged(rs: seq<AuditResult>): (n: nat)
    ensures n <= |rs|
  {
    if rs == [] then 0
    else CountFlagged(rs[..|rs| - 1]) + (if rs[|rs| - 1].status == Flagged then 1 else 0)
  }

  /** Appending one result adds one to the count exactly when it is flagged. */
  lemma CountFlaggedAppend(rs: seq<AuditResult>, r: AuditResult)
    ensures CountFlagged(rs + [r]) == CountFlagged(rs) + (if r.status == Flagged then 1 else 0)
  {
    assert (rs + [r])[..|rs|] == rs;
  }

  /** The count reaches the number of results exactly when every one is flagged. */
  lemma {:induction false} CountFlaggedAll(rs: seq<AuditResult>)
    ensures CountFlagged(rs) == |rs| <==> forall i :: 0 <= i < |rs| ==> rs[i].status == Flagged
  {
    if rs != [] {
      var init := rs[..|rs| - 1];
      CountFlaggedAll(init);
      assert forall i :: 0 <= i < |init| ==> init[i] == rs[i];
    }
  }

  /** The count is zero exactly when no result is flagged. */
  lemma {:induction false} CountFlaggedNone(rs: seq<AuditResult>)
    ensures CountFlagged(rs) == 0 <==> forall i :: 0 <= i < |rs| ==> rs[i].status == Clean
  {
    if rs != [] {
      var init := rs[..|rs| - 1];
      CountFlaggedNone(init);
      assert forall i :: 0 <= i < |init| ==> init[i] == rs[i];
    }
  }

  /** The count depends on the statuses alone, not on ids or reasons. */
  lemma {:induction false} CountFlaggedByStatus(a: seq<AuditResult>, b: seq<AuditResult>)
    requires |a| == |b|
    requires forall i :: 0 <= i < |a| ==> a[i].status == b[i].status
    ensures CountFlagged(a) == CountFlagged(b)
  {
    if a != [] {
      var ia, ib := a[..|a| - 1], b[..|b| - 1];
      assert forall i :: 0 <= i < |ia| ==> ia[i] == a[i] && ib[i] == b[i];
      CountFlaggedByStatus(ia, ib);
    }
  }

  /** `Math.round(issues / total * 100)` on exact rationals: the nearest
      integer to `100 * issues / total`, halves rounded up. */
  function RoundedPercent(issues: nat, total: nat): (p: nat)
    requires total > 0
    ensures 2 * total * p <= 200 * issues + total < 2 * total * (p + 1)
  {
    (200 * issues + total) / (2 * total)
  }

  function Max(a: int, b: int): (m: int)
    ensures m >= a && m >= b && (m == a || m == b)
  {
    if a >= b then a else b
  }

  /** The integrity score. */
  function Score(issues: nat, total: nat): (s: int)
    ensures 0 <= s <= 100
    ensures total == 0 ==> s == 100
  {
    if total > 0 then Max(0, 100 - RoundedPercent(issues, total)) else 100
  }

  /** Dividing both sides of `f * a < f * (b + 1)` by a positive `f`.
      The score lemmas below name the products and cancel the factor via this
      lemma: the solver can find these non-linear steps alone, but not
      reliably within the resource limit on every random seed. */
  lemma FactorBound(f: nat, a: nat, b: nat)
    requires f > 0 && f * a < f * (b + 1)
    ensures a <= b
  {
  }

  /** With no more issues than records the rounded percentage is at most
      100, so the `max(0, ...)` clamp never changes the score. */
  lemma ClampInactive(issues: nat, total: nat)
    requires 0 < total && issues <= total
    ensures RoundedPercent(issues, total) <= 100
    ensures Score(issues, total) == 100 - RoundedPercent(issues, total)
  {
    var f, p := 2 * total, RoundedPercent(issues, total);
    assert f * p <= 200 * issues + total <= 201 * total < f * 101;
    FactorBound(f, p, 100);
  }

  /** A batch in which every record is flagged scores 0. */
  lemma ScoreAllFlagged(total: nat)
    requires total > 0
    ensures Score(total, total) == 0
  {
    var f, p := 2 * total, RoundedPercent(total, total);
    assert f * 100 < 201 * total < f * (p + 1);
    FactorBound(f, 100, p);
    ClampInactive(total, total);
  }

  /** A batch without flagged records scores 100. */
  lemma ScoreNoneFlagged(total: nat)
    ensures Score(0, total) == 100
  {
  }

  /** For a fixed number of records, more issues never raise the score. */
  lemma ScoreAntitone(fewer: nat, more: nat, total: nat)
    requires fewer <= more
    ensures Score(more, total) <= Score(fewer, total)
  {
    if total > 0 {
      var f, p, q := 2 * total, RoundedPercent(fewer, total), RoundedPercent(more, total);
      assert f * p <= 200 * fewer + total <= 200 * more + total < f * (q + 1);
      FactorBound(f, p, q);
    }
  }

  /** The shared batch loop: maps every record through `audit`, bumping
      `issuesFound` for each flagged result, then scores the batch. */
  method AuditBatch(logs: seq<Log>, audit: Log -> AuditResult) returns (report: Report)
    ensures |report.detailedResults| == |logs|
    ensures forall i :: 0 <= i < |logs| ==> report.detailedResults[i] == audit(logs[i])
    ensures report.totalLogs == |logs|
    ensures report.issues == CountFlagged(report.detailedResults) <= |logs|
    ensures report.score == Score(report.issues, |logs|)
    ensures |logs| > 0 ==> report.score == 100 - RoundedPercent(report.issues, |logs|)
  {
    var issuesFound := 0;
    var detailedResults := [];
    var i := 0;
    while i < |logs|
      invariant 0 <= i <= |logs|
      invariant |detailedResults| == i
      invariant forall k :: 0 <= k < i ==> detailedResults[k] == audit(logs[k])
      invariant issuesFound == CountFlagged(detailedResults)
    {
      var result := audit(logs[i]);
      if result.status == Flagged {
        issuesFound := issuesFound + 1;
      }
      CountFlaggedAppend(detailedResults, result);
      detailedResults := detailedResults + [result];
      i := i + 1;
    }
    var totalLogs := |logs|;
    var score := if totalLogs > 0 then Max(0, 100 - RoundedPercent(issuesFound, totalLogs)) else 100;
    if totalLogs > 0 {
      ClampInactive(issuesFound, totalLogs);
    }
    report := Report(score, totalLogs, issuesFound, detailedResults);
  }
}
