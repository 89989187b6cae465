/**
  The level engine of FitQuest: a fixed, ascending table of tiers (`XP_CURVE`) and
  `calculateLevel`, which maps a student's cumulative XP onto the table and reports
  the current tier, the progress percentage toward the next tier, the XP still
  missing and the next threshold.

  The engine is stated for any non-empty curve and then instantiated with the
  five-tier curve the application ships (`XpCurve`).
 */
module Levels {
  import opened Wrappers

  /** One row of the level table. */
  datatype Tier = Tier(level: int, name: string, requiredXP: int)

  /** The application's curve: thresholds 0 / 100 / 400 / 900 / 1700. */
  const XpCurve: seq<Tier> := [
    Tier(1, "Frango", 0),
    Tier(2, "Iniciante", 100),
    Tier(3, "Praticante", 400),
    Tier(4, "Fitness", 900),
    Tier(5, "Elite", 1700)
  ]

  /** What `calculateLevel` returns. `progress` is a percentage; `xpCurrentLevel`
      is only present when a next tier exists. */
  datatype LevelInfo = LevelInfo(
    level: int,
    name: string,
    progress: real,
    xpToNext: int,
    xpRequired: int,
    xpCurrentLevel: Option<int>)

  /** Thresholds never decrease along the curve. */
  ghost predicate Ascending(curve: seq<Tier>) {
    forall i, j :: 0 <= i < j < |curve| ==> curve[i].requiredXP <= curve[j].requiredXP
  }

  /** Tier `i` is the last one whose threshold `xp` meets. */
  ghost predicate IsLastMet(curve: seq<Tier>, xp: int, i: int) {
    && 0 <= i < |curve|
    && curve[i].requiredXP <= xp
    && forall j :: i < j < |curve| ==> xp < curve[j].requiredXP
  }

  function Min(a: real, b: real): real {
    if a <= b then a else b
  }

  /** How far the scan of the curve gets: the number of leading tiers whose
      threshold `xp` meets before the first one it does not. */
  function MetPrefix(curve: seq<Tier>, xp: int): (k: nat)
    ensures k <= |curve|
    ensures forall j :: 0 <= j < k ==> curve[j].requiredXP <= xp
    ensures k < |curve| ==> xp < curve[k].requiredXP
  {
    if |curve| == 0 || xp < curve[0].requiredXP then 0
    else 1 + MetPrefix(curve[1..], xp)
  }

  /** The loop of `calculateLevel`: walk the curve, remembering the tier just met
      and the entry after it, and stop at the first threshold not met. `next` is
      `None` both when the scan ran off the end of the curve and when it stopped
      at the very first tier. */
  method ScanCurve(curve: seq<Tier>, xp: int) returns (current: Tier, next: Option<Tier>)
    requires |curve| > 0
    ensures var k := MetPrefix(curve, xp);
      && current == (if k == 0 then curve[0] else curve[k - 1])
      && next == (if 0 < k < |curve| then Some(curve[k]) else None)
  {
    current := curve[0];
    next := None;
    var i := 0;
    while i < |curve|
      invariant 0 <= i <= |curve|
      invariant forall j :: 0 <= j < i ==> curve[j].requiredXP <= xp
      invariant i == 0 ==> current == curve[0] && next == None
      invariant i > 0 ==> current == curve[i - 1]
      invariant i > 0 ==> next == (if i < |curve| then Some(curve[i]) else None)
    {
      if xp >= curve[i].requiredXP {
        current := curve[i];
        next := if i + 1 < |curve| then Some(curve[i + 1]) else None;
      } else {
        break;
      }
      i := i + 1;
    }
  }

  /** `calculateLevel` over an arbitrary non-empty curve. */
  function LevelFor(curve: seq<Tier>, xp: int): (r: LevelInfo)
    requires |curve| > 0
    ensures 0 <= r.xpToNext
    ensures r.progress <= 100.0
    ensures r.xpToNext == 0 <==> r.progress == 100.0
    ensures r.xpToNext == 0 <==> r.xpCurrentLevel == None
    ensures r.xpToNext > 0 ==> 0.0 <= r.progress && r.xpToNext == r.xpRequired - xp
  {
    var k := MetPrefix(curve, xp);
    if k == 0 || k == |curve| then
      // maximum tier reached (or, for XP below the first threshold, no tier met)
      var current := if k == 0 then curve[0] else curve[k - 1];
      LevelInfo(current.level, current.name, 100.0, 0, current.requiredXP, None)
    else
      var current := curve[k - 1];
      var next := curve[k];
      var needed := next.requiredXP - current.requiredXP;
      var earned := xp - current.requiredXP;
      LevelInfo(
        current.level,
        current.name,
        Min(100.0, (earned as real / needed as real) * 100.0),
        next.requiredXP - xp,
        next.requiredXP,
        Some(earned))
  }

  /** The scan stops exactly after the last tier met: on an ascending curve,
      the tier `calculateLevel` reports is the highest one whose threshold is met. */
  lemma ScanStopsAtLastMet(curve: seq<Tier>, xp: int)
    requires Ascending(curve)
    requires |curve| > 0 && curve[0].requiredXP <= xp
    ensures 0 < MetPrefix(curve, xp)
    ensures IsLastMet(curve, xp, MetPrefix(curve, xp) - 1)
  {
    var k := MetPrefix(curve, xp);
    forall j | k - 1 < j < |curve|
      ensures xp < curve[j].requiredXP
    {
      assert curve[k].requiredXP <= curve[j].requiredXP;
    }
  }

  /** The level report for the last tier met, stated against `IsLastMet` rather
      than against the scan: the top tier reports 100% and nothing left to earn;
      any other tier reports the next tier's threshold, the positive XP still
      missing, the XP earned inside the tier and the percentage of the tier's span. */
  lemma LevelForLastMet(curve: seq<Tier>, xp: int, i: int)
    requires Ascending(curve)
    requires IsLastMet(curve, xp, i)
    ensures var r := LevelFor(curve, xp);
      && r.level == curve[i].level
      && r.name == curve[i].name
      && (i == |curve| - 1 ==>
            r.progress == 100.0 && r.xpToNext == 0 && r.xpRequired == curve[i].requiredXP)
      && (i < |curve| - 1 ==>
            && r.xpRequired == curve[i + 1].requiredXP
            && r.xpToNext == curve[i + 1].requiredXP - xp > 0
            && r.xpCurrentLevel == Some(xp - curve[i].requiredXP)
            && r.progress == ((xp - curve[i].requiredXP) as real
                              / (curve[i + 1].requiredXP - curve[i].requiredXP) as real) * 100.0
            && 0.0 <= r.progress < 100.0)
  {
    ScanStopsAtLastMet(curve, xp);
  }

  /** XP below the first threshold (only negative XP on the shipped curve): the
      scan breaks at the first tier with no next tier recorded, so the maximum-tier
      branch fires and reports the first tier at 100%. */
  lemma BelowFirstThreshold(curve: seq<Tier>, xp: int)
    requires |curve| > 0 && xp < curve[0].requiredXP
    ensures LevelFor(curve, xp)
      == LevelInfo(curve[0].level, curve[0].name, 100.0, 0, curve[0].requiredXP, None)
  {
  }

  /** The scan gets at least as far for more XP, whatever the curve. */
  lemma MetPrefixMonotone(curve: seq<Tier>, xp1: int, xp2: int)
    requires xp1 <= xp2
    ensures MetPrefix(curve, xp1) <= MetPrefix(curve, xp2)
  {
  }

  /** Levels increase along the curve. */
  ghost predicate LevelsAscending(curve: seq<Tier>) {
    forall i, j :: 0 <= i < j < |curve| ==> curve[i].level <= curve[j].level
  }

  /** The reported level never drops when XP grows. */
  lemma LevelMonotone(curve: seq<Tier>, xp1: int, xp2: int)
    requires |curve| > 0 && LevelsAscending(curve)
    requires xp1 <= xp2
    ensures LevelFor(curve, xp1).level <= LevelFor(curve, xp2).level
  {
    MetPrefixMonotone(curve, xp1, xp2);
  }

  /** Dividing by a positive amount keeps the order. */
  lemma DivMonotone(e1: real, e2: real, d: real)
    requires 0.0 < d && e1 <= e2
    ensures e1 / d <= e2 / d
  {
    assert e2 / d - e1 / d == (e2 - e1) / d;
  }

  /** Inside one tier, more XP means at least as much progress and no more XP to go. */
  lemma ProgressMonotoneWithinTier(curve: seq<Tier>, xp1: int, xp2: int, i: int)
    requires Ascending(curve)
    requires IsLastMet(curve, xp1, i) && IsLastMet(curve, xp2, i)
    requires xp1 <= xp2
    ensures LevelFor(curve, xp1).progress <= LevelFor(curve, xp2).progress
    ensures LevelFor(curve, xp2).xpToNext <= LevelFor(curve, xp1).xpToNext
  {
    LevelForLastMet(curve, xp1, i);
    LevelForLastMet(curve, xp2, i);
    if i < |curve| - 1 {
      var span := (curve[i + 1].requiredXP - curve[i].requiredXP) as real;
      var e1 := (xp1 - curve[i].requiredXP) as real;
      var e2 := (xp2 - curve[i].requiredXP) as real;
      DivMonotone(e1, e2, span);
      assert (e1 / span) * 100.0 <= (e2 / span) * 100.0;
    }
  }

  /** The shipped curve is ascending in thresholds and levels, starts at 0 and
      tops out at 1700. */
  lemma XpCurveShape()
    ensures |XpCurve| == 5
    ensures Ascending(XpCurve) && LevelsAscending(XpCurve)
    ensures XpCurve[0].requiredXP == 0 && XpCurve[4].requiredXP == 1700
    ensures forall i :: 0 <= i < |XpCurve| ==> XpCurve[i].level == i + 1
  {
  }

  /** `calculateLevel` itself, on the shipped curve. */
  function CalculateLevel(xp: int): (r: LevelInfo)
    ensures 1 <= r.level <= 5
    ensures r.progress <= 100.0
    ensures 0 <= xp ==> 0.0 <= r.progress
  {
    XpCurveShape();
    LevelFor(XpCurve, xp)
  }

  /** At or above the top threshold the report is the top tier, complete. */
  lemma CalculateLevelMaxTier(xp: int)
    requires xp >= 1700
    ensures CalculateLevel(xp) == LevelInfo(5, "Elite", 100.0, 0, 1700, None)
  {
    XpCurveShape();
    ScanStopsAtLastMet(XpCurve, xp);
    LevelForLastMet(XpCurve, xp, 4);
  }

  /** Negative XP reproduces the scan's quirk: level 1 reported as complete. */
  lemma CalculateLevelNegative(xp: int)
    requires xp < 0
    ensures CalculateLevel(xp) == LevelInfo(1, "Frango", 100.0, 0, 0, None)
  {
    BelowFirstThreshold(XpCurve, xp);
  }

  /** Below the top threshold the report names the tier whose span holds `xp`,
      the next threshold, a positive remainder and a progress below 100%. */
  lemma CalculateLevelBelowMax(xp: int)
    requires 0 <= xp < 1700
    ensures var r := CalculateLevel(xp);
      && 1 <= r.level < 5
      && XpCurve[r.level - 1].requiredXP <= xp < XpCurve[r.level].requiredXP
      && r.xpRequired == XpCurve[r.level].requiredXP
      && r.xpToNext == r.xpRequired - xp > 0
      && r.xpCurrentLevel == Some(xp - XpCurve[r.level - 1].requiredXP)
      && 0.0 <= r.progress < 100.0
  {
    XpCurveShape();
    ScanStopsAtLastMet(XpCurve, xp);
    var i := MetPrefix(XpCurve, xp) - 1;
    LevelForLastMet(XpCurve, xp, i);
  }

  /** On the shipped curve, more XP never means a lower level. */
  lemma CalculateLevelMonotone(xp1: int, xp2: int)
    requires xp1 <= xp2
    ensures CalculateLevel(xp1).level <= CalculateLevel(xp2).level
  {
    XpCurveShape();
    LevelMonotone(XpCurve, xp1, xp2);
  }

  /** The documented sample points of the curve. */
  lemma CalculateLevelExamples()
    ensures CalculateLevel(0) == LevelInfo(1, "Frango", 0.0, 100, 100, Some(0))
    ensures CalculateLevel(150) == LevelInfo(2, "Iniciante", 50.0 / 3.0, 250, 400, Some(50))
    ensures CalculateLevel(1700) == LevelInfo(5, "Elite", 100.0, 0, 1700, None)
    ensures CalculateLevel(5000) == LevelInfo(5, "Elite", 100.0, 0, 1700, None)
  {
  }
}
