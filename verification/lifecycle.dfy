/**
  Facts about sequences of submission handlers: the shape of an account they
  keep, what the quest list shows after each of them, and how XP moves.
 */
module Lifecycle {
  import opened Wrappers
  import opened Submissions

  /** One handler invocation. */
  datatype Event =
    | SubmitProof(questId: QuestId, proofValue: string, proofType: string)
    | ApproveSubmission(sid: SubmissionId, reward: int)
    | RejectSubmission(sid: SubmissionId)

  /** The account after one event; a failed handler still leaves whatever it wrote. */
  function Step(a: Account, e: Event): Account {
    match e
    case SubmitProof(q, v, t) => Submit(a, q, v, t)
    case ApproveSubmission(sid, reward) => Approve(a, sid, reward).account
    case RejectSubmission(sid) => Reject(a, sid).account
  }

  /** The account after a run of events, in order. */
  function Run(a: Account, events: seq<Event>): Account
    decreases |events|
  {
    if |events| == 0 then a else Run(Step(a, events[0]), events[1..])
  }

  /** Submitting keeps ids unique and one record per quest. */
  lemma SubmitPreservesValid(a: Account, q: QuestId, v: string, t: string)
    requires Valid(a)
    ensures Valid(Submit(a, q, v, t))
  {
    var r := Submit(a, q, v, t);
    var subs, subs' := a.submissions, r.submissions;
    if HasRecord(subs, q) {
      var i :| 0 <= i < |subs| && subs[i].questId == q;
      assert i in RecordsFor(subs', q);
      forall j | 0 <= j < |subs| && j != i
        ensures subs'[j] == subs[j]
      {
        assert subs[j].questId != q;
      }
    } else {
      assert |subs| in RecordsFor(subs', q);
      assert !HasId(subs, subs'[|subs|].id);
    }
  }

  /** Approval changes a status only, so the account keeps its shape. */
  lemma ApprovePreservesValid(a: Account, sid: SubmissionId, reward: int)
    requires Valid(a)
    ensures Valid(Approve(a, sid, reward).account)
  {
  }

  /** Rejection changes a status only, so the account keeps its shape. */
  lemma RejectPreservesValid(a: Account, sid: SubmissionId)
    requires Valid(a)
    ensures Valid(Reject(a, sid).account)
  {
  }

  /** Every run of handlers keeps an account valid; in particular a student
      never ends up with two records for one quest. */
  lemma {:induction false} RunPreservesValid(a: Account, events: seq<Event>)
    requires Valid(a)
    ensures Valid(Run(a, events))
    decreases |events|
  {
    if |events| > 0 {
      var s := Step(a, events[0]);
      match events[0] {
        case SubmitProof(q, v, t) => SubmitPreservesValid(a, q, v, t);
        case ApproveSubmission(sid, reward) => ApprovePreservesValid(a, sid, reward);
        case RejectSubmission(sid) => RejectPreservesValid(a, sid);
      }
      RunPreservesValid(s, events[1..]);
    }
  }

  /** With one record per quest, the quest list shows `pendente_admin` for the
      quest right after a submission. */
  lemma SubmitShowsAwaitingAdmin(a: Account, q: QuestId, v: string, t: string)
    requires OnePerQuest(a.submissions)
    ensures DisplayStatus(Submit(a, q, v, t).submissions, q) == AwaitingAdmin
  {
    var subs, subs' := a.submissions, Submit(a, q, v, t).submissions;
    var i :| 0 <= i < |subs'| && subs'[i] == Submission(subs'[i].id, q, v, t, AwaitingAdmin);
    forall j | i < j < |subs'|
      ensures subs'[j].questId != q
    {
      assert i in RecordsFor(subs', q) && j !in RecordsFor(subs', q);
    }
    DisplayStatusOfLastRecord(subs', q, i);
  }

  /** Submitting overwrites the FIRST record for the quest while the quest list
      shows the LAST one: were a student to hold two records for one quest, a
      fresh submission could stay hidden behind an approved one. */
  lemma SubmitMaskedByLaterDuplicate()
    ensures var a := Account(Some(Profile(Some(0))),
                             [Submission(0, "q", "", "", Rejected), Submission(1, "q", "", "", Approved)]);
      DisplayStatus(Submit(a, "q", "proof", "Foto").submissions, "q") == Approved
  {
    var a := Account(Some(Profile(Some(0))),
                     [Submission(0, "q", "", "", Rejected), Submission(1, "q", "", "", Approved)]);
    DisplayStatusOfLastRecord(Submit(a, "q", "proof", "Foto").submissions, "q", 1);
  }

  /** The quest list offers the proof form only where a submission can overwrite
      nothing but a rejected record: an approved or pending record is never
      touched by a submission the list lets the student make. */
  lemma OfferedSubmitOnlyReplacesRejected(a: Account, q: QuestId, v: string, t: string)
    requires OnePerQuest(a.submissions)
    requires ActionFor(DisplayStatus(a.submissions, q)).OffersProof()
    ensures forall j :: 0 <= j < |a.submissions| && Submit(a, q, v, t).submissions[j] != a.submissions[j] ==>
      a.submissions[j].status == Rejected || a.submissions[j].status == AwaitingStudent
  {
    var subs := a.submissions;
    forall j | 0 <= j < |subs| && subs[j].questId == q
      ensures subs[j].status == Rejected || subs[j].status == AwaitingStudent
    {
      DisplayStatusOfLastRecord(subs, q, j);
    }
  }

  /** Approval credits the reward every time it runs: two approvals of the same
      submission add the reward twice. */
  lemma ApproveTwiceCreditsTwice(a: Account, sid: SubmissionId, reward: int)
    requires HasId(a.submissions, sid) && a.profile.Some?
    ensures var once := Approve(a, sid, reward).account;
      var twice := Approve(once, sid, reward).account;
      && twice.profile.Some?
      && Xp(twice.profile.value) == Xp(a.profile.value) + 2 * reward
  {
    var once := Approve(a, sid, reward).account;
    var j :| 0 <= j < |a.submissions| && a.submissions[j].id == sid;
    assert once.submissions[j].id == sid;
  }

  /** With one record per quest, after approval the quest list shows the quest as complete. */
  lemma ApproveShowsApproved(a: Account, i: int, reward: int)
    requires OnePerQuest(a.submissions) && 0 <= i < |a.submissions|
    ensures var r := Approve(a, a.submissions[i].id, reward).account;
      DisplayStatus(r.submissions, a.submissions[i].questId) == Approved
  {
    var r := Approve(a, a.submissions[i].id, reward).account;
    DisplayStatusOfLastRecord(r.submissions, a.submissions[i].questId, i);
  }

  /** With one record per quest: reject, then resubmit, and the same record
      (same id, same position) is back to `pendente_admin` carrying the new
      proof, nothing is added, and XP never moves. */
  lemma RejectThenResubmit(a: Account, i: int, v: string, t: string)
    requires OnePerQuest(a.submissions) && 0 <= i < |a.submissions|
    requires a.submissions[i].status == AwaitingAdmin
    ensures var s := a.submissions[i];
      var r := Submit(Reject(a, s.id).account, s.questId, v, t);
      && r.profile == a.profile
      && |r.submissions| == |a.submissions|
      && r.submissions[i] == Submission(s.id, s.questId, v, t, AwaitingAdmin)
      && DisplayStatus(r.submissions, s.questId) == AwaitingAdmin
  {
    var s := a.submissions[i];
    var rejected := Reject(a, s.id).account;
    assert rejected.submissions[i].questId == s.questId;
    var r := Submit(rejected, s.questId, v, t);
    SubmitShowsAwaitingAdmin(rejected, s.questId, v, t);
    assert FirstFor(rejected.submissions, s.questId) == Some(i);
  }

  /** XP never falls while every reward approved is non-negative, and a present
      profile stays present. */
  lemma {:induction false} RunNeverLowersXp(a: Account, events: seq<Event>)
    requires a.profile.Some?
    requires forall k :: 0 <= k < |events| && events[k].ApproveSubmission? ==> events[k].reward >= 0
    ensures Run(a, events).profile.Some?
    ensures Xp(a.profile.value) <= Xp(Run(a, events).profile.value)
    decreases |events|
  {
    if |events| > 0 {
      var s := Step(a, events[0]);
      assert Xp(a.profile.value) <= Xp(s.profile.value);
      assert forall k :: 0 <= k < |events[1..]| ==> events[1..][k] == events[k + 1];
      RunNeverLowersXp(s, events[1..]);
    }
  }

  /** A run without approvals leaves the profile, and so the XP, as it was. */
  lemma {:induction false} RunWithoutApprovalKeepsProfile(a: Account, events: seq<Event>)
    requires forall k :: 0 <= k < |events| ==> !events[k].ApproveSubmission?
    ensures Run(a, events).profile == a.profile
    decreases |events|
  {
    if |events| > 0 {
      assert forall k :: 0 <= k < |events[1..]| ==> events[1..][k] == events[k + 1];
      RunWithoutApprovalKeepsProfile(Step(a, events[0]), events[1..]);
    }
  }
}
