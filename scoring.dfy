/**
 * Which terms of the assignment score apply to a (nurse, patient) pair
 * (BMTOptimizer.calculate_score): continuity with the patient's last nurse,
 * the same pod, and one of three skill-matching tiers. The configured
 * floating-point weights that scale these terms are not part of this model;
 * the integer multipliers of the terms are.
 */
module Scoring {
  import opened Records
  import opened Constraints

  /** The skill-matching branch of the score. */
  datatype SkillTier =
    | SeniorForHighAcuity     // skill 3, acuity 7 or more
    | MidLevelForMidAcuity    // skill 2, acuity 4 to 7
    | JuniorForLowAcuity      // skill 1, acuity 4 or less
    | NoSkillMatch

  /** The if/elif/elif chain over skill level and acuity. */
  function Tier(skill: int, acuity: int): (t: SkillTier)
    ensures t == SeniorForHighAcuity <==> skill == 3 && acuity >= 7
    ensures t == MidLevelForMidAcuity <==> skill == 2 && 4 <= acuity <= 7
    ensures t == JuniorForLowAcuity <==> skill == 1 && acuity <= 4
    ensures t == NoSkillMatch <==>
      !(skill == 3 && acuity >= 7) && !(skill == 2 && 4 <= acuity <= 7) && !(skill == 1 && acuity <= 4)
  {
    if skill == 3 && acuity >= 7 then SeniorForHighAcuity
    else if skill == 2 && 4 <= acuity <= 7 then MidLevelForMidAcuity
    else if skill == 1 && acuity <= 4 then JuniorForLowAcuity
    else NoSkillMatch
  }

  /** The integer multiplier of the skill weight in each tier. */
  function TierPoints(t: SkillTier): (points: nat)
    ensures points == 0 <==> t == NoSkillMatch
    ensures points <= 10
  {
    match t
    case SeniorForHighAcuity => 10
    case MidLevelForMidAcuity => 8
    case JuniorForLowAcuity => 6
    case NoSkillMatch => 0
  }

  /** The terms of the score that apply to one pair. */
  datatype ScoreTerms = ScoreTerms(continuity: bool, geography: bool, tier: SkillTier)

  /** Continuity: same nurse as last time. */
  predicate Continuity(n: Nurse, p: Patient) {
    n.id == LastNurseText(p)
  }

  /** Geography: the nurse's preferred pod equals the patient's pod (both may be absent). */
  predicate SamePod(n: Nurse, p: Patient) {
    n.podPref == p.pod
  }

  function Terms(n: Nurse, p: Patient): ScoreTerms {
    ScoreTerms(Continuity(n, p), SamePod(n, p), Tier(n.skillLevel, p.acuity))
  }

  /** The three tier conditions exclude each other, so the order of the elif chain is immaterial. */
  lemma TierOrderImmaterial(skill: int, acuity: int)
    ensures Tier(skill, acuity) ==
      if skill == 1 && acuity <= 4 then JuniorForLowAcuity
      else if skill == 2 && 4 <= acuity <= 7 then MidLevelForMidAcuity
      else if skill == 3 && acuity >= 7 then SeniorForHighAcuity
      else NoSkillMatch
  {
  }

  /** A pair in the senior or mid-level tier can be refused only for the IV rule. */
  lemma MatchedExperiencedTierOnlyIv(n: Nurse, p: Patient)
    requires Tier(n.skillLevel, p.acuity) in {SeniorForHighAcuity, MidLevelForMidAcuity}
    ensures Violations(n, p) == if IsIv(p) && !Certified(n) then [IvNeedsCertification] else []
  {
    ExperiencedNurseOnlyIv(n, p);
  }

  /** A junior nurse in the low-acuity tier is never refused for acuity. */
  lemma JuniorTierNoAcuityViolation(n: Nurse, p: Patient)
    requires Tier(n.skillLevel, p.acuity) == JuniorForLowAcuity
    ensures HighAcuityNeedsExperience !in Violations(n, p)
  {
  }

  /**
   * The continuity term applies exactly when Last_Nurse is this nurse's ID,
   * or when Last_Nurse is absent and the ID is empty (both read as "").
   */
  lemma ContinuityIff(n: Nurse, p: Patient)
    ensures Terms(n, p).continuity <==> p.lastNurse == Some(n.id) || (p.lastNurse.None? && n.id == "")
  {
  }

  /** The geography term applies exactly when both pods are absent, or both are present and equal. */
  lemma SamePodIff(n: Nurse, p: Patient)
    ensures Terms(n, p).geography <==>
      (n.podPref.None? && p.pod.None?) || (n.podPref.Some? && p.pod.Some? && n.podPref.value == p.pod.value)
  {
  }

  /**
   * The skill multiplier of a pair is 0 when no tier matches and otherwise
   * grows with the nurse's skill level: 6, 8 and 10 for skill 1, 2 and 3.
   */
  lemma SkillPointsFollowSkill(n: Nurse, p: Patient)
    ensures var points := TierPoints(Terms(n, p).tier);
      && (points == 0 <==> Terms(n, p).tier == NoSkillMatch)
      && (points != 0 ==> points == 2 * n.skillLevel + 4)
  {
  }
}
