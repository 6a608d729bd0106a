# Truthifier audit rule and integrity score

Truthifier audits uploaded logs of an automated agent's answers. The audit handlers receive a JSON array of records. Each record may have an `id` and a `response`. A handler tests each response against six risky keywords (`refund`, `discount`, `free`, `guarantee`, `cancel`, `promise`) and marks the record `FLAGGED` or `CLEAN`, with an explanatory reason. It counts the flagged records and gives the batch an integrity score of `max(0, 100 - round(100 * issues / total))`, or 100 for an empty batch.

There are two handlers:

- `app/api/audit/route.ts` also receives a "truth source" text. When the truth source is non-empty, it adds a contradiction check: does the response mention a keyword that the lower-cased truth source does not contain?
- `app/api/audit/router.ts` has no truth source and uses different reason texts.

The model works on already-parsed records (`Records.Log`, with optional `id` and `response`). Its modules follow the code:

- `Text`: ASCII `toLowerCase` and `includes`. `includes` is proved equal to a reference definition, "occurs as a contiguous slice".
- `Keywords`: the keyword list and the array operations `some`, `find`, `filter` and `every`. Each operation is a plain definition with a lemma stating what it computes.
- `Records`: input records and result shapes, plus the `|| ""` and `|| <random id>` defaults.
- `Batch`: the loop both handlers run (`logs.map` while `issuesFound` is bumped), as one imperative method shared by both. It also holds the flagged count and the score.
- `AuditRoute` and `AuditRouter`: the per-record work of each handler, and its `Audit` entry point.
- `HandlerAgreement`: the two handlers give every record the same status, the same issue count and the same score.

Facts the model establishes:

- A contradiction can only arise when a keyword is already present. So in `route.ts` the truth source changes only a record's reason, never its status.
- The two handlers therefore agree on every status.
- The `max(0, …)` clamp in the score is never active, because there are never more issues than records.

## Model

| member | source | states |
|---|---|---|
| Text.ToLower | app/api/audit/route.ts:38 | the lowered text has the same length, no upper-case ASCII letter, and each character lowered in place |
| Text.Includes | app/api/audit/route.ts:41 | `text.includes(word)` holds exactly when `word` occurs in `text` as a contiguous slice |
| Text.OccursLowered | app/api/audit/route.ts:38-41 | an occurrence survives lower-casing both strings, so matching on lowered text is case-insensitive |
| Records.ResponseText | app/api/audit/route.ts:38 | the `response` field with its `""` default: the response, or the empty text when it is absent; its use is stated by `AuditRoute.EmptyResponseIsClean` and `AuditRouter.EmptyResponseIsClean` |
| Keywords.AnyMatch | app/api/audit/route.ts:41 | `riskyKeywords.some(word => text.includes(word))`; its meaning is `Keywords.AnyMatchMeaning` |
| Keywords.FirstMatch | app/api/audit/route.ts:61 | `riskyKeywords.find(w => text.includes(w))`; its meaning is `Keywords.FirstMatchMeaning` |
| Keywords.Matching | app/api/audit/route.ts:47 | `riskyKeywords.filter(word => text.includes(word))`; its meaning is `Keywords.MatchingMeaning` |
| Keywords.AllIncluded | app/api/audit/route.ts:48 | `.every(word => source.includes(word))`; its meaning is `Keywords.AllIncludedMeaning` |
| Keywords.Interpolate | app/api/audit/route.ts:61 | the text `${...}` renders for the result of `find`, `undefined` when nothing was found; `AuditRoute.AuditLogMeaning` shows the `undefined` case never reaches a reason |
| Keywords.FilterEveryMeaning | app/api/audit/route.ts:47-48 | `filter` followed by `every` holds exactly when every listed word that occurs in the text also occurs in the source |
| Keywords.AnyMatchMeaning | app/api/audit/route.ts:41 | `some` over the keywords is true exactly when some listed word occurs in the text |
| Keywords.FirstMatchMeaning | app/api/audit/route.ts:61 | `find` yields nothing exactly when no word occurs; otherwise it yields the first occurring word in list order |
| Keywords.FirstMatchUnique | app/api/audit/route.ts:61 | the first matching position is unique |
| Keywords.MatchingMeaning | app/api/audit/route.ts:47 | `filter` keeps exactly the listed words that occur in the text, and no more words than the list has |
| Keywords.AllIncludedMeaning | app/api/audit/route.ts:48 | `every` holds exactly when every word of the list occurs in the source text |
| Keywords.NoKeywordInEmptyText | app/api/audit/route.ts:34 | no keyword occurs in the empty text |
| Keywords.KeywordsAreLowerCase | app/api/audit/route.ts:34 | every keyword is its own lower-case form |
| Records.ResultIdOf | app/api/audit/route.ts:56 | the record's id is kept exactly when it is present and non-empty (truthy); otherwise one is generated |
| Batch.CountFlagged | app/api/audit/route.ts:53 | the number of flagged results never exceeds the number of results |
| Batch.CountFlaggedAppend | app/api/audit/route.ts:53 | one more result raises the count by one exactly when it is flagged |
| Batch.CountFlaggedAll | app/api/audit/route.ts:53 | the count equals the number of results exactly when all are flagged |
| Batch.CountFlaggedNone | app/api/audit/route.ts:53 | the count is zero exactly when all results are clean |
| Batch.CountFlaggedByStatus | app/api/audit/route.ts:53 | two result lists with the same statuses have the same count |
| Batch.RoundedPercent | app/api/audit/route.ts:68 | the value is the nearest integer to `100 * issues / total`, halves rounded up |
| Batch.Score | app/api/audit/route.ts:68 | the score lies in 0..100 and is 100 for an empty batch |
| Batch.ClampInactive | app/api/audit/route.ts:68 | with no more issues than records the rounded percentage is at most 100, so `max(0, …)` changes nothing |
| Batch.ScoreAllFlagged | app/api/audit/route.ts:68 | a non-empty batch with every record flagged scores 0 |
| Batch.ScoreNoneFlagged | app/api/audit/route.ts:68 | a batch with no issues scores 100 |
| Batch.ScoreAntitone | app/api/audit/route.ts:68 | for a fixed total, more issues never raise the score |
| Batch.AuditBatch | app/api/audit/route.ts:35-68 | result i is the audit of record i, in order and of the same length; `issuesFound` equals the flagged count and is at most the total; the score is the formula, with the clamp inactive |
| AuditRoute.Contradiction | app/api/audit/route.ts:45-50 | the `contradiction` flag: false unless the truth source is non-empty and a keyword occurs, then true when `filter(...).every(...)` fails; its meaning is `AuditRoute.ContradictionMeaning` |
| AuditRoute.AuditLog | app/api/audit/route.ts:37-63 | the result of one record: `hasRiskyKeyword`, `contradiction`, `isRisk`, then id, status and reason; its meaning is `AuditRoute.AuditLogMeaning` |
| AuditRoute.Results | app/api/audit/route.ts:37 | `logs.map(...)`: one result per record, in order; `AuditRoute.Audit` is proved to return it |
| AuditRoute.ContradictionMeaning | app/api/audit/route.ts:45-50 | contradiction holds exactly when the truth source is non-empty, a keyword occurs, and some occurring keyword is missing from the lowered truth source; it implies a keyword occurs |
| AuditRoute.AuditLogMeaning | app/api/audit/route.ts:37-63 | a record is flagged exactly when its lowered response mentions a keyword; a truthy id is kept; clean means "Compliant with documentation."; a flagged record's reason is the contradiction text, or else names the first keyword it mentions |
| AuditRoute.Audit | app/api/audit/route.ts:34-68 | the report holds the per-record results in input order, `totalLogs`, `issues` equal to the flagged count (at most `totalLogs`), and the score formula |
| AuditRoute.StatusIgnoresTruthSource | app/api/audit/route.ts:45-57 | the truth source never changes a record's status |
| AuditRoute.EmptyTruthSourceNamesKeyword | app/api/audit/route.ts:46-61 | with an empty truth source, a flagged record's reason names the first keyword it mentions |
| AuditRoute.EmptyResponseIsClean | app/api/audit/route.ts:38-62 | a missing or empty response gives a clean result with reason "Compliant with documentation." |
| AuditRoute.MentionInAnyCaseFlags | app/api/audit/route.ts:38-41 | a keyword written in any mix of letter cases flags the record |
| AuditRoute.AllFlaggedScoresZero | app/api/audit/route.ts:53-68 | when every response mentions a keyword, the batch scores 0 |
| AuditRouter.AuditLog | app/api/audit/router.ts:28-40 | the result of one record: `isRisk`, then id, status and reason; its meaning is `AuditRouter.AuditLogMeaning` |
| AuditRouter.Results | app/api/audit/router.ts:28 | `logs.map(...)`: one result per record, in order; `AuditRouter.Audit` is proved to return it |
| AuditRouter.AuditLogMeaning | app/api/audit/router.ts:28-40 | a record is flagged exactly when its lowered response mentions a keyword; a truthy id is kept; clean means "Compliant"; a flagged reason names the first keyword mentioned |
| AuditRouter.Audit | app/api/audit/router.ts:24-45 | the report holds the per-record results in input order, `totalLogs`, `issues` equal to the flagged count (at most `totalLogs`), and the score formula |
| AuditRouter.EmptyResponseIsClean | app/api/audit/router.ts:29-39 | a missing or empty response gives a clean result with reason "Compliant" |
| AuditRouter.NoMentionsScoresFull | app/api/audit/router.ts:30-45 | when no response mentions a keyword, the batch has no issues and scores 100 |
| HandlerAgreement.SameRecordStatus | app/api/audit/router.ts:30-36 | for any truth source, both handlers give a record the same status (route.ts line 52); both keep a truthy id unchanged, and otherwise each generates its own |
| HandlerAgreement.SameKeywordNamed | app/api/audit/router.ts:37-38 | when route.ts finds no contradiction, both handlers' reasons name the same keyword |
| HandlerAgreement.SameBatchMetrics | app/api/audit/router.ts:44-45 | for any batch and truth source, both handlers give the same statuses, the same issue count and the same score |

## Left out

- Request handling is not modelled: `req.formData()`, `file.text()`, `JSON.parse`, `Array.isArray`, `NextResponse.json`, and the 400/500 error responses (route.ts lines 9-31 and 77-80; router.ts lines 6-21 and 54-57). The model starts from an already-parsed sequence of records. The truth source's `|| ""` default (route.ts line 13) is the caller's job: it passes a string.
- Records.ResultIdOf: the random fallback id `Math.random().toString(36).substr(2, 5)` is nondeterministic. It is modelled as the abstract value `Generated`, so its text, and the chance of it colliding with other ids, are not captured. Two `Generated` values stand for two independent random ids, not for equal ones: for a record without a truthy id, the two handlers produce different ids.
- Records.Log: a field whose value is truthy but not a string is not modelled. In the source, such a `response` makes `toLowerCase` throw, which ends in the 500 response. Such an `id` (a number) is kept as it is. A `null` element of the array makes `log.response` throw (route.ts line 38, router.ts line 29), which aborts the whole batch with the 500 response; the model has no such element. Fields are modelled as optional strings.
- Batch.RoundedPercent: the source computes `Math.round((issues / total) * 100)` in IEEE floating point. The model uses exact rational round-half-up, `(200 * issues + total) / (2 * total)`. It does not capture rounding error in the floating-point product. At some exact halves the two differ by one: for 23 issues in 40 records the double product is `57.49999999999999`, so the source rounds to 57 and scores 43, while `Score(23, 40)` is 42. The 0..100 bounds, the inactive clamp, the score of 0 when all are flagged and the monotonicity in the issue count hold either way.
- Text.ToLower: lower-cases ASCII letters only. Full Unicode case mapping, including mappings that change a string's length, is not modelled.
- AuditRouter.AuditLog: router.ts lower-cases the response again inside every `includes` test. The model lower-cases once, which gives the same answers.
- The user interface (`app/page.tsx`), the leads endpoint (`app/api/leads/route.ts`) and the report page (`app/report/[id]/page.tsx`) are not part of this model. They are UI, external persistence and rendering. `app/page.tsx` reads `riskLevel` and `violationList`, but neither handler produces them.
