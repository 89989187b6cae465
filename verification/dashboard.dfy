/**
  The student dashboard's use of the level engine: the profile's XP, a missing
  field read as 0, is fed to `calculateLevel`; without a profile document
  nothing is shown.
 */
module Dashboard {
  import opened Wrappers
  import opened Levels
  import opened Submissions

  /** The level report the dashboard shows for an account, if any. */
  function ShownLevel(a: Account): (r: Option<LevelInfo>)
    ensures r.Some? <==> a.profile.Some?
    ensures r.Some? && Xp(a.profile.value) >= 0 ==> 0.0 <= r.value.progress <= 100.0
    ensures r.Some? && Xp(a.profile.value) >= 1700 ==> r.value.level == 5 && r.value.xpToNext == 0
  {
    match a.profile
    case None => None
    case Some(p) =>
      assert Xp(p) >= 1700 ==> CalculateLevel(Xp(p)) == LevelInfo(5, "Elite", 100.0, 0, 1700, None) by {
        if Xp(p) >= 1700 { CalculateLevelMaxTier(Xp(p)); }
      }
      Some(CalculateLevel(Xp(p)))
  }

  /** Approving a submission with a non-negative reward never lowers the level
      the student's dashboard shows; a rejection leaves it as it was. */
  lemma AdjudicationNeverLowersLevel(a: Account, sid: SubmissionId, reward: int)
    requires a.profile.Some? && reward >= 0
    ensures ShownLevel(Approve(a, sid, reward).account).Some?
    ensures ShownLevel(a).value.level <= ShownLevel(Approve(a, sid, reward).account).value.level
    ensures ShownLevel(Reject(a, sid).account) == ShownLevel(a)
  {
    CalculateLevelMonotone(Xp(a.profile.value), Xp(a.profile.value) + reward);
  }

  /** A fresh student approved for a 150-XP quest sees level 2 with 250 XP to go. */
  lemma ApproveFromZeroExample()
    ensures var a := Account(Some(Profile(None)), [Submission(7, "q", "ok", "Manual", AwaitingAdmin)]);
      var r := Approve(a, 7, 150);
      && r.failure == None
      && ShownLevel(r.account) == Some(LevelInfo(2, "Iniciante", 50.0 / 3.0, 250, 400, Some(50)))
  {
    var a := Account(Some(Profile(None)), [Submission(7, "q", "ok", "Manual", AwaitingAdmin)]);
    assert HasId(a.submissions, 7) by { assert a.submissions[0].id == 7; }
    CalculateLevelExamples();
  }
}
