/**
  The submission lifecycle of FitQuest, abstracted from the document-store
  handlers: a student's account holds an optional profile (with an optional `XP`
  field) and the student's submission records in the order the store returns
  them. A student submits proof for a quest (`handleProofSubmission`), an
  administrator approves (`handleApproveSubmission`) or rejects
  (`handleRejectSubmission`) a submission, and the student's quest list shows a
  status and a button for every quest (`renderQuests`).
 */
module Submissions {
  import opened Wrappers

  type QuestId = string
  type SubmissionId = nat

  /** The status strings of a submission: `pendente_aluno` (never stored; what the
      quest list shows for a quest without a record), `pendente_admin`, `aprovado`
      and `rejeitado`. */
  datatype Status = AwaitingStudent | AwaitingAdmin | Approved | Rejected

  /** One document of a student's `submissoes` collection; `id` is its document id. */
  datatype Submission = Submission(
    id: SubmissionId,
    questId: QuestId,
    proofValue: string,
    proofType: string,
    status: Status)

  /** The student's profile document; its `XP` field may be missing. */
  datatype Profile = Profile(xp: Option<int>)

  /** Everything the store holds for one student. */
  datatype Account = Account(profile: Option<Profile>, submissions: seq<Submission>)

  /** Why a handler did not fully apply. */
  datatype Failure =
    | NoSuchSubmission  // the status update hit a missing submission document
    | NoSuchStudent     // the XP transaction found no profile document

  /** The account after a handler, and whether something failed. */
  datatype Reply = Reply(account: Account, failure: Option<Failure>)

  /** The XP a profile counts for: a missing `XP` field reads as 0. */
  function Xp(p: Profile): int {
    p.xp.GetOr(0)
  }

  ghost predicate HasRecord(subs: seq<Submission>, q: QuestId) {
    exists j :: 0 <= j < |subs| && subs[j].questId == q
  }

  ghost predicate HasId(subs: seq<Submission>, sid: SubmissionId) {
    exists j :: 0 <= j < |subs| && subs[j].id == sid
  }

  /** The positions of the records for quest `q`. */
  ghost function RecordsFor(subs: seq<Submission>, q: QuestId): set<nat> {
    set j: nat | j < |subs| && subs[j].questId == q
  }

  /** No two records share a document id. */
  ghost predicate UniqueIds(subs: seq<Submission>) {
    forall i, j :: 0 <= i < j < |subs| ==> subs[i].id != subs[j].id
  }

  /** No two records are for the same quest. */
  ghost predicate OnePerQuest(subs: seq<Submission>) {
    forall i, j :: 0 <= i < j < |subs| ==> subs[i].questId != subs[j].questId
  }

  /** The shape every account the handlers produce keeps. */
  ghost predicate Valid(a: Account) {
    && UniqueIds(a.submissions)
    && OnePerQuest(a.submissions)
    && forall j :: 0 <= j < |a.submissions| ==> a.submissions[j].status != AwaitingStudent
  }

  /** The first record for quest `q`: what the `where('questId', '==', q)` query
      returns as `docs[0]`. */
  function FirstFor(subs: seq<Submission>, q: QuestId): (r: Option<nat>)
    ensures r.Some? ==> r.value < |subs| && subs[r.value].questId == q
    ensures r.Some? ==> forall j :: 0 <= j < r.value ==> subs[j].questId != q
    ensures r.None? <==> !HasRecord(subs, q)
  {
    if |subs| == 0 then None
    else if subs[0].questId == q then Some(0)
    else match FirstFor(subs[1..], q)
      case None => None
      case Some(i) => Some(i + 1)
  }

  /** The last record for quest `q`. */
  function LastFor(subs: seq<Submission>, q: QuestId): (r: Option<nat>)
    ensures r.Some? ==> r.value < |subs| && subs[r.value].questId == q
    ensures r.Some? ==> forall j :: r.value < j < |subs| ==> subs[j].questId != q
    ensures r.None? <==> !HasRecord(subs, q)
  {
    if |subs| == 0 then None
    else if subs[|subs| - 1].questId == q then Some(|subs| - 1)
    else LastFor(subs[..|subs| - 1], q)
  }

  /** The largest document id in use (0 when there is none). */
  function MaxId(subs: seq<Submission>): (m: nat)
    ensures forall j :: 0 <= j < |subs| ==> subs[j].id <= m
  {
    if |subs| == 0 then 0
    else
      var rest := MaxId(subs[1..]);
      if subs[0].id <= rest then rest else subs[0].id
  }

  /** The id the store gives a newly added document: one no record uses. */
  function FreshId(subs: seq<Submission>): (id: SubmissionId)
    ensures !HasId(subs, id)
  {
    MaxId(subs) + 1
  }

  /** Every record with document id `sid` takes status `s`; nothing else changes. */
  function SetStatus(subs: seq<Submission>, sid: SubmissionId, s: Status): seq<Submission> {
    seq(|subs|, j requires 0 <= j < |subs| =>
      if subs[j].id == sid then subs[j].(status := s) else subs[j])
  }

  /** `handleProofSubmission`: the record for the quest becomes `pendente_admin` with
      the new proof. The first existing record for the quest is overwritten in
      place; without one, a single new record is added. */
  function Submit(a: Account, q: QuestId, proofValue: string, proofType: string): (r: Account)
    ensures r.profile == a.profile
    ensures |r.submissions| == |a.submissions| + (if HasRecord(a.submissions, q) then 0 else 1)
    ensures forall j :: 0 <= j < |a.submissions| && a.submissions[j].questId != q ==>
      r.submissions[j] == a.submissions[j]
    ensures forall j :: 0 <= j < |a.submissions| ==> r.submissions[j].id == a.submissions[j].id
    ensures RecordsFor(r.submissions, q)
      == if RecordsFor(a.submissions, q) == {} then {|a.submissions|} else RecordsFor(a.submissions, q)
    ensures exists i ::
      && 0 <= i < |r.submissions|
      && r.submissions[i] == Submission(r.submissions[i].id, q, proofValue, proofType, AwaitingAdmin)
    ensures FirstFor(a.submissions, q).Some? ==>
      var i := FirstFor(a.submissions, q).value;
      && r.submissions[i] == Submission(a.submissions[i].id, q, proofValue, proofType, AwaitingAdmin)
      && forall j :: 0 <= j < |a.submissions| && j != i ==> r.submissions[j] == a.submissions[j]
    ensures !HasRecord(a.submissions, q) ==>
      && r.submissions[..|a.submissions|] == a.submissions
      && r.submissions[|a.submissions|].questId == q
      && r.submissions[|a.submissions|].status == AwaitingAdmin
      && !HasId(a.submissions, r.submissions[|a.submissions|].id)
  {
    var subs := a.submissions;
    match FirstFor(subs, q)
    case Some(i) =>
      var updated := Submission(subs[i].id, q, proofValue, proofType, AwaitingAdmin);
      var subs' := subs[i := updated];
      assert i in RecordsFor(subs, q);
      assert RecordsFor(subs', q) == RecordsFor(subs, q);
      a.(submissions := subs')
    case None =>
      var added := Submission(FreshId(subs), q, proofValue, proofType, AwaitingAdmin);
      var subs' := subs + [added];
      assert RecordsFor(subs, q) == {};
      assert RecordsFor(subs', q) == {|subs|};
      a.(submissions := subs')
  }

  /** `handleApproveSubmission`: the submission becomes `aprovado` and the student's
      XP (a missing field counting as 0) grows by exactly `reward`. There is no
      guard on the submission's prior status. A missing submission document makes
      the status update throw before the XP transaction, so nothing changes; a
      missing profile leaves the submission approved without any XP credit. */
  function Approve(a: Account, sid: SubmissionId, reward: int): (r: Reply)
    ensures !HasId(a.submissions, sid) ==> r == Reply(a, Some(NoSuchSubmission))
    ensures HasId(a.submissions, sid) ==>
      && |r.account.submissions| == |a.submissions|
      && (forall j :: 0 <= j < |a.submissions| && a.submissions[j].id == sid ==>
            r.account.submissions[j] == a.submissions[j].(status := Approved))
      && (forall j :: 0 <= j < |a.submissions| && a.submissions[j].id != sid ==>
            r.account.submissions[j] == a.submissions[j])
    ensures HasId(a.submissions, sid) && a.profile.Some? ==>
      r.failure == None && r.account.profile == Some(Profile(Some(Xp(a.profile.value) + reward)))
    ensures HasId(a.submissions, sid) && a.profile.None? ==>
      r.failure == Some(NoSuchStudent) && r.account.profile == None
  {
    if !HasIdExec(a.submissions, sid) then
      Reply(a, Some(NoSuchSubmission))
    else
      var marked := a.(submissions := SetStatus(a.submissions, sid, Approved));
      match a.profile
      case None => Reply(marked, Some(NoSuchStudent))
      case Some(p) => Reply(marked.(profile := Some(Profile(Some(Xp(p) + reward)))), None)
  }

  /** `handleRejectSubmission`: the submission becomes `rejeitado`; XP is untouched.
      A missing submission document makes the update fail and nothing changes. */
  function Reject(a: Account, sid: SubmissionId): (r: Reply)
    ensures !HasId(a.submissions, sid) ==> r == Reply(a, Some(NoSuchSubmission))
    ensures HasId(a.submissions, sid) ==>
      && r.failure == None
      && r.account.profile == a.profile
      && |r.account.submissions| == |a.submissions|
      && (forall j :: 0 <= j < |a.submissions| && a.submissions[j].id == sid ==>
            r.account.submissions[j] == a.submissions[j].(status := Rejected))
      && (forall j :: 0 <= j < |a.submissions| && a.submissions[j].id != sid ==>
            r.account.submissions[j] == a.submissions[j])
  {
    if !HasIdExec(a.submissions, sid) then
      Reply(a, Some(NoSuchSubmission))
    else
      Reply(a.(submissions := SetStatus(a.submissions, sid, Rejected)), None)
  }

  /** Whether some record has document id `sid`. */
  function HasIdExec(subs: seq<Submission>, sid: SubmissionId): (b: bool)
    ensures b <==> HasId(subs, sid)
  {
    if |subs| == 0 then false
    else subs[0].id == sid || HasIdExec(subs[1..], sid)
  }

  /** The quest-to-status table `renderQuests` builds by walking the snapshot in
      order and writing each record's status under its quest id: for every quest
      with a record, the LAST record for it wins. */
  function StatusView(subs: seq<Submission>): (m: map<QuestId, Status>)
    ensures forall q :: q in m <==> LastFor(subs, q).Some?
    ensures forall q :: q in m ==> m[q] == subs[LastFor(subs, q).value].status
  {
    if |subs| == 0 then map[]
    else
      var last := subs[|subs| - 1];
      StatusView(subs[..|subs| - 1])[last.questId := last.status]
  }

  /** The status the quest list shows for quest `q`; no record reads as `pendente_aluno`. */
  function DisplayStatus(subs: seq<Submission>, q: QuestId): Status {
    var view := StatusView(subs);
    if q in view then view[q] else AwaitingStudent
  }

  /** The button shown on a quest card. */
  datatype Action =
    | Completed        // disabled: "Concluída"
    | InReview         // disabled: "Em Revisão"
    | SendAgain        // "Enviar Prova"
    | CompleteAndSend  // "Concluir e Enviar Prova"
  {
    /** The button opens the proof form. */
    predicate OffersProof() {
      this == SendAgain || this == CompleteAndSend
    }
  }

  /** The status-to-button mapping of the quest list. */
  function ActionFor(s: Status): (b: Action)
    ensures b.OffersProof() <==> s == Rejected || s == AwaitingStudent
    ensures s == Approved ==> b == Completed
    ensures s == AwaitingAdmin ==> b == InReview
  {
    match s
    case Approved => Completed
    case AwaitingAdmin => InReview
    case Rejected => SendAgain
    case AwaitingStudent => CompleteAndSend
  }

  /** The quest list shows the status of the last record for the quest. */
  lemma DisplayStatusOfLastRecord(subs: seq<Submission>, q: QuestId, i: int)
    requires 0 <= i < |subs| && subs[i].questId == q
    requires forall j :: i < j < |subs| ==> subs[j].questId != q
    ensures DisplayStatus(subs, q) == subs[i].status
  {
  }

  /** A quest the student has no record for shows as `pendente_aluno`. */
  lemma DisplayStatusWithoutRecord(subs: seq<Submission>, q: QuestId)
    requires !HasRecord(subs, q)
    ensures DisplayStatus(subs, q) == AwaitingStudent
  {
  }
}
