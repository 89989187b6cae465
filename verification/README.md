# FitQuest core in Dafny

FitQuest is a gamified habit tracker. Students complete quests, submit proof,
and an administrator approves or rejects each submission. An approval credits
the quest's XP to the student, and cumulative XP maps onto a level. This project
models the two pieces of logic the application owns, both from `fitquest.js`.

- **Level engine** (`levels.dfy`, module `Levels`). `XP_CURVE` is the five-tier
  table Frango 0 / Iniciante 100 / Praticante 400 / Fitness 900 / Elite 1700.
  `calculateLevel` scans that table.
  - The engine is stated for any non-empty curve (`LevelFor`) and instantiated
    with the shipped one (`CalculateLevel`).
  - The loop with its `break` is modelled as a method (`ScanCurve`). It is proved
    to stop exactly where the recursive `MetPrefix` says it does.
  - On an ascending curve its result is proved to be the *last* tier whose
    threshold is met (`IsLastMet`), an independent declarative definition.
  - The progress percentage is a `real`.
- **Submission lifecycle** (`submissions.dfy`, `lifecycle.dfy`; modules
  `Submissions`, `Lifecycle`). One student's data in the store is an `Account`.
  It holds an optional profile document, whose `XP` field may itself be missing,
  and the submission documents in query order. The handlers are modelled as pure
  functions on an account:
  - `handleProofSubmission` is `Submit`;
  - `handleApproveSubmission` is `Approve`;
  - `handleRejectSubmission` is `Reject`;
  - the status table and button choice of `renderQuests` are `StatusView`,
    `DisplayStatus` and `ActionFor`.

  `Lifecycle` composes the handlers into runs of events. It proves:
  - the invariants the handlers keep (unique ids, one record per quest);
  - what the quest list shows after each handler;
  - how XP moves.
- **Dashboard** (`dashboard.dfy`, module `Dashboard`). The student dashboard
  feeds `XP || 0` to `calculateLevel`. It shows nothing when there is no profile
  document.

Behaviour the model keeps from the code, on purpose:

- **Negative XP.** XP below the first threshold makes the scan break at the first
  tier with no next tier recorded. The maximum-tier branch then fires: level 1 at
  100% with 0 XP to go (`CalculateLevelNegative`).
- **No status guards.** Approval and rejection do not check the prior status.
  Approving the same submission twice credits the reward twice
  (`ApproveTwiceCreditsTwice`). A status guard would credit only a submission
  that is still `pendente_admin`, making a repeated or retried approval a no-op.
  The code has no such guard, and the model follows the code.
- **Submit gating is UI only.** The submit handler itself accepts any status.
  Only the quest list's button gating keeps students from resubmitting an approved
  or pending quest. Even that holds only while the student has at most one record
  per quest (`OfferedSubmitOnlyReplacesRejected`). With two records for a quest,
  the list shows the later one, while a submission overwrites the earlier one. The
  handler does not reject an empty proof either.
- **Partial approval.** A missing submission document makes the status update
  throw before the XP transaction, so nothing changes. The handler then ends with
  an unhandled rejection and shows no message; the model names this outcome
  `NoSuchSubmission`. A missing profile document
  leaves the submission `aprovado` but credits no XP. This is the "approved, but
  the XP could not be granted" outcome (`Failure.NoSuchStudent`).

## Model

| member | source | states |
|---|---|---|
| Levels.XpCurveShape | fitquest.js:35-42 | the shipped curve has five tiers, levels 1..5 in order, thresholds ascending from 0 to 1700 |
| Levels.MetPrefix | fitquest.js:53-60 | the scan's stopping point: every tier before it is met, and the tier at it (if any) is not |
| Levels.ScanCurve | fitquest.js:49-60 | the for/break loop leaves `currentLevel` at the tier just before the first tier whose threshold is unmet (the first tier when that is the first one) and `nextLevel` at that unmet tier, or null when it is the first tier or every threshold is met; on an ascending curve this is the last tier met |
| Levels.LevelFor | fitquest.js:62-86 | for any curve: xpToNext is never negative; progress is at most 100; xpToNext is 0 exactly when progress is 100 and exactly when xpCurrentLevel is absent; otherwise progress is at least 0 and xpToNext equals xpRequired minus XP |
| Levels.ScanStopsAtLastMet | fitquest.js:53-60 | on an ascending curve with XP at or above the first threshold, the tier the scan keeps is the last tier whose threshold is met |
| Levels.LevelForLastMet | fitquest.js:62-86 | for the last tier met: the top tier reports 100%, 0 to go and its own threshold; a lower tier reports the next threshold, a positive remainder, the XP earned in the tier and earned/span x 100 in [0, 100) |
| Levels.BelowFirstThreshold | fitquest.js:50-70 | XP below the first threshold reports the first tier as complete: 100%, 0 to go, no xpCurrentLevel |
| Levels.MetPrefixMonotone | fitquest.js:53-60 | more XP never makes the scan stop earlier, on any curve |
| Levels.LevelMonotone | fitquest.js:53-65 | with levels ascending along the curve, the reported level is non-decreasing in XP |
| Levels.ProgressMonotoneWithinTier | fitquest.js:73-83 | within one tier, more XP gives at least as much progress and no more XP to go |
| Levels.CalculateLevel | fitquest.js:49-87 | on the shipped curve the level is in 1..5, progress is at most 100, and at least 0 for non-negative XP |
| Levels.CalculateLevelMaxTier | fitquest.js:62-70 | XP of 1700 or more gives level 5 "Elite", 100%, 0 to go, xpRequired 1700 |
| Levels.CalculateLevelNegative | fitquest.js:50-70 | negative XP gives level 1 "Frango" at 100% with 0 to go and xpRequired 0 |
| Levels.CalculateLevelBelowMax | fitquest.js:73-86 | XP in [0, 1700) lies in the reported tier's span; xpRequired is the next threshold; xpToNext is positive and equals it minus XP; xpCurrentLevel is XP minus the tier's threshold; progress is in [0, 100) |
| Levels.CalculateLevelMonotone | fitquest.js:35-60 | on the shipped curve, more XP never lowers the level |
| Levels.CalculateLevelExamples | fitquest.js:35-87 | 0 gives Frango at 0% with 100 to go; 150 gives Iniciante at 50/3 % with 250 to go and 400 required; 1700 and 5000 give Elite at 100% |
| Submissions.FirstFor | fitquest.js:435-439 | the record the questId query returns first: it is for the quest and no earlier record is; none exactly when the student has no record for the quest |
| Submissions.LastFor | fitquest.js:314-319 | the last record for a quest: it is for the quest and no later record is; none exactly when there is no record |
| Submissions.FreshId | fitquest.js:443 | a newly added submission document gets an id no existing record has |
| Submissions.Submit | fitquest.js:415-452 | the profile is untouched; the first record for the quest is overwritten in place with the new proof and `pendente_admin`, keeping its id, and every other record is unchanged; when there is none, exactly one record is appended for the quest, `pendente_admin`, with an id no existing record has; the set of positions holding the quest's records is unchanged, or becomes the one new position |
| Submissions.Approve | fitquest.js:618-642 | without the submission nothing changes and the handler ends with the NoSuchSubmission outcome (an unhandled rejection in the source, with no message); otherwise that submission becomes `aprovado` whatever its prior status and the others are unchanged; with a profile, XP becomes (XP or 0) + reward; without one, no XP and a NoSuchStudent failure |
| Submissions.Reject | fitquest.js:649-662 | without the submission nothing changes and the NoSuchSubmission failure is reported (the source catches it and shows an error message); otherwise that submission becomes `rejeitado`, the others and the profile (so XP) are unchanged |
| Submissions.StatusView | fitquest.js:314-319 | the quest-to-status table has a key exactly for the quests with a record, and each maps to the status of the LAST record for that quest |
| Submissions.ActionFor | fitquest.js:337-353 | the proof form is offered exactly for `rejeitado` and `pendente_aluno`; `aprovado` gets the disabled "Concluída" button and `pendente_admin` the disabled "Em Revisão" one |
| Submissions.DisplayStatusOfLastRecord | fitquest.js:314-331 | the quest list shows the status of the last record for the quest |
| Submissions.DisplayStatusWithoutRecord | fitquest.js:331 | a quest without a record shows as `pendente_aluno` |
| Lifecycle.SubmitPreservesValid | fitquest.js:431-444 | submitting keeps ids unique, one record per quest, and no stored `pendente_aluno` |
| Lifecycle.ApprovePreservesValid | fitquest.js:620-624 | approving keeps the account's invariants |
| Lifecycle.RejectPreservesValid | fitquest.js:650-656 | rejecting keeps the account's invariants |
| Lifecycle.RunPreservesValid | fitquest.js:415-452 | any sequence of submissions, approvals and rejections keeps the invariants, so a student never gains a second record for one quest |
| Lifecycle.SubmitShowsAwaitingAdmin | fitquest.js:422-444 | with one record per quest, the quest shows `pendente_admin` right after a submission |
| Lifecycle.SubmitMaskedByLaterDuplicate | fitquest.js:435-439 | with two records for one quest, a submission overwrites the first while the list keeps showing the later `aprovado` one |
| Lifecycle.OfferedSubmitOnlyReplacesRejected | fitquest.js:331-353 | with at most one record per quest, when the list offers the proof form, a submission changes no record other than a `rejeitado` (or `pendente_aluno`) one |
| Lifecycle.ApproveTwiceCreditsTwice | fitquest.js:618-636 | approving the same submission twice adds twice the reward |
| Lifecycle.ApproveShowsApproved | fitquest.js:621-624 | for an account with at most one record per quest, after approval of any of its submissions that submission's quest shows as `aprovado` |
| Lifecycle.RejectThenResubmit | fitquest.js:649-662 | for an account with at most one record per quest, rejecting a pending submission and resubmitting leaves the profile unchanged and adds no record; the same record (same id) is back to `pendente_admin` with the new proof |
| Lifecycle.RunNeverLowersXp | fitquest.js:629-636 | with non-negative rewards, XP never falls over any run, and a present profile stays present |
| Lifecycle.RunWithoutApprovalKeepsProfile | fitquest.js:629-636 | a run with no approvals leaves the profile, and so XP, unchanged |
| Dashboard.ShownLevel | fitquest.js:279-284 | a level is shown exactly when the profile exists; for non-negative XP progress is in [0, 100]; from 1700 XP it is level 5 with 0 to go |
| Dashboard.AdjudicationNeverLowersLevel | fitquest.js:629-636 | for a student with a profile, approving with a non-negative reward never lowers the shown level, including when the submission id is unknown; rejecting leaves it unchanged |
| Dashboard.ApproveFromZeroExample | fitquest.js:634 | a profile without an XP field approved for 150 XP shows Iniciante at 50/3 % with 250 to go |

## Left out

- Firebase initialisation, authentication, role-based redirects and profile
  creation (`setupUserProfile`). These are calls into an external service.
- DOM rendering, the proof modal, HTML building and `showMessage`. These are UI.
  Only the status-to-button choice is modelled.
- `onSnapshot` listeners and the admin's pending-submission count. This is
  asynchronous re-rendering.
- The concurrency of `db.runTransaction`. The XP credit is one atomic step, so
  lost updates between concurrent approvals are outside the model.
- Lifecycle.RunPreservesValid, Lifecycle.OfferedSubmitOnlyReplacesRejected,
  Lifecycle.ApproveShowsApproved, Lifecycle.RejectThenResubmit: each handler is one atomic step, including the
  query and then the write of `handleProofSubmission`. Two overlapping submissions
  for one quest can both find no record and both add one. The proof modal stays
  open until `closeProofModal`, so this is reachable. That interleaving gives a
  student two records for a quest and is not covered. `SubmitMaskedByLaterDuplicate`
  shows what the list then displays.
- Timestamps: `submittedAt`, `approvedAt`, `rejectedAt`, `createdAt`. A
  resubmission in the code leaves an earlier `approvedAt`/`rejectedAt` in place.
  This is not represented.
- Quest creation and deletion, `parseInt` of the reward and `confirm()`. The
  reward reaches `Approve` as an integer parameter. For a deleted quest the admin
  list would embed `??` as the reward. That case is not modelled.
- The early return of `handleProofSubmission` when no user or quest is selected,
  and network failures caught by the handlers' `catch` blocks. These are session
  state and I/O.
- The `alunoId` field of a submission. The model holds one student's account,
  and the admin's `(alunoId, submissionId)` pair selects the account and then the
  record.
- Document ids. Firestore's random id for `add` is modelled as one more than the
  largest id in use. Its query order is the order of the sequence.
- IEEE doubles. XP is an `int` and progress is an exact `real`.
