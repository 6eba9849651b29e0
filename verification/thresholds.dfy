/**
 The integer threshold classifiers of conditionals.py: each is a cascade of
 comparisons tried top to bottom, the first that holds choosing the verdict.
 Every classifier's contract states, verdict by verdict, the exact band of inputs
 that produces it, so boundary inclusivity is pinned down in both directions.
 A rank on each multi-band verdict set gives the partner property: the
 verdict moves monotonically with the input (for the user status, with the
 inactive days once the login count is fixed). The two-verdict compact forms,
 warm/cool and pass/fail, are instead related to the five-band classifiers
 they coarsen.
 */
module Thresholds {

  // ---------------------------------------------------------------------------
  // Temperature (the decision after the input loop of check_temperature, and
  // check_temperature_compact)
  // ---------------------------------------------------------------------------

  const VeryHot := "It's very hot today!"
  const Hot := "It's hot today!"
  const Warm := "It's warm today"
  const Cool := "It's cool today!"
  const Freezing := "It's freezing today!"

  /** The verdict `check_temperature` returns once it has read the integer `temp`. */
  function CheckTemperature(temp: int): (r: string)
    ensures r == VeryHot <==> temp > 30
    ensures r == Hot <==> 25 < temp <= 30
    ensures r == Warm <==> 20 < temp <= 25
    ensures r == Cool <==> 10 < temp <= 20
    ensures r == Freezing <==> temp <= 10
  {
    if temp > 30 then VeryHot
    else if temp > 25 then Hot
    else if temp > 20 then Warm
    else if temp > 10 then Cool
    else Freezing
  }

  const CompactWarm := "It's warm today!"
  const CompactCool := "It's cool today!"

  /** The two-way ternary; its "warm" verdict carries an exclamation mark the verbose one lacks. */
  function CheckTemperatureCompact(temp: int): (r: string)
    ensures r == CompactWarm <==> temp > 25
    ensures r == CompactCool <==> temp <= 25
  {
    if temp > 25 then CompactWarm else CompactCool
  }

  /** How hot a verbose temperature verdict says it is, coldest first. */
  function TemperatureRank(verdict: string): nat {
    if verdict == VeryHot then 4
    else if verdict == Hot then 3
    else if verdict == Warm then 2
    else if verdict == Cool then 1
    else 0
  }

  /** A warmer reading never gets a colder verdict. */
  lemma TemperatureMonotone(t1: int, t2: int)
    requires t1 <= t2
    ensures TemperatureRank(CheckTemperature(t1)) <= TemperatureRank(CheckTemperature(t2))
  {
  }

  /**
   The compact form coarsens the verbose one: it says "warm" exactly when the
   verbose form says "very hot" or "hot", and it never returns the verbose
   "warm" verdict (which has no exclamation mark).
   */
  lemma CompactCoarsensVerbose(temp: int)
    ensures CheckTemperatureCompact(temp) == CompactWarm
        <==> CheckTemperature(temp) in {VeryHot, Hot}
    ensures CheckTemperatureCompact(temp) != Warm
    ensures CheckTemperatureCompact(temp) == CompactCool <==> TemperatureRank(CheckTemperature(temp)) <= 2
  {
  }

  // ---------------------------------------------------------------------------
  // grade_assignment, get_pass_fail, process_grade_compact
  // ---------------------------------------------------------------------------

  const APlus := "Exquisite work! A+"
  const A := "Excellent work! A"
  const B := "Good job! B"
  const C := "You passed! C"
  const F := "Please try again. F "

  function GradeAssignment(score: int): (r: string)
    ensures r == APlus <==> score >= 97
    ensures r == A <==> 90 <= score < 97
    ensures r == B <==> 70 <= score < 90
    ensures r == C <==> 50 <= score < 70
    ensures r == F <==> score < 50
  {
    if score >= 97 then APlus
    else if score >= 90 then A
    else if score >= 70 then B
    else if score >= 50 then C
    else F
  }

  function GradeRank(verdict: string): nat {
    if verdict == APlus then 4
    else if verdict == A then 3
    else if verdict == B then 2
    else if verdict == C then 1
    else 0
  }

  /** A higher score never gets a lower grade. */
  lemma GradeAssignmentMonotone(s1: int, s2: int)
    requires s1 <= s2
    ensures GradeRank(GradeAssignment(s1)) <= GradeRank(GradeAssignment(s2))
  {
  }

  function GetPassFail(score: int): (r: string)
    ensures r == "Pass" <==> score >= 50
    ensures r == "Fail" <==> score < 50
  {
    if score >= 50 then "Pass" else "Fail"
  }

  /** The ternary pass mark and the lowest passing band of grade_assignment share the boundary 50. */
  lemma PassFailAgreesWithGrade(score: int)
    ensures GetPassFail(score) == "Pass" <==> GradeAssignment(score) != F
  {
  }

  /** The letter for an already capped score. */
  function Letter(finalScore: int): string {
    if finalScore >= 90 then "A"
    else if finalScore >= 80 then "B"
    else if finalScore >= 70 then "C"
    else if finalScore >= 60 then "D"
    else "F"
  }

  /**
   process_grade_compact: the score plus extra credit, capped at 100, then
   graded in bands of ten. The default extra credit in conditionals.py is 0, so
   `ProcessGradeCompact(score, 0)` is the one-argument call.
   */
  function ProcessGradeCompact(score: int, extraCredit: int): (r: string)
    ensures r == "A" <==> score + extraCredit >= 90
    ensures r == "B" <==> 80 <= score + extraCredit < 90
    ensures r == "C" <==> 70 <= score + extraCredit < 80
    ensures r == "D" <==> 60 <= score + extraCredit < 70
    ensures r == "F" <==> score + extraCredit < 60
  {
    var finalScore := if score + extraCredit < 100 then score + extraCredit else 100;
    Letter(finalScore)
  }

  function LetterRank(verdict: string): nat {
    if verdict == "A" then 4
    else if verdict == "B" then 3
    else if verdict == "C" then 2
    else if verdict == "D" then 1
    else 0
  }

  /** Extra credit never lowers the letter, and the cap at 100 never changes it. */
  lemma ExtraCreditNeverHurts(score: int, e1: int, e2: int)
    requires e1 <= e2
    ensures LetterRank(ProcessGradeCompact(score, e1)) <= LetterRank(ProcessGradeCompact(score, e2))
    ensures ProcessGradeCompact(score, e1) == Letter(score + e1)
  {
  }

  // ---------------------------------------------------------------------------
  // categorise_age
  // ---------------------------------------------------------------------------

  function CategoriseAge(age: int): (r: string)
    ensures r == "Invalid age" <==> age < 0
    ensures r == "Child" <==> 0 <= age < 13
    ensures r == "Teenager" <==> 13 <= age < 20
    ensures r == "Adult" <==> 20 <= age < 65
    ensures r == "Senior" <==> age >= 65
  {
    if age < 0 then "Invalid age"
    else if age < 13 then "Child"
    else if age < 20 then "Teenager"
    else if age < 65 then "Adult"
    else "Senior"
  }

  function AgeRank(verdict: string): nat {
    if verdict == "Child" then 1
    else if verdict == "Teenager" then 2
    else if verdict == "Adult" then 3
    else if verdict == "Senior" then 4
    else 0
  }

  /** Among valid ages, an older person is never put in a younger band; the boundaries 13, 20 and 65 belong to the upper band. */
  lemma CategoriseAgeMonotone(a1: int, a2: int)
    requires a1 <= a2
    ensures AgeRank(CategoriseAge(a1)) <= AgeRank(CategoriseAge(a2))
    ensures CategoriseAge(13) == "Teenager" && CategoriseAge(20) == "Adult" && CategoriseAge(65) == "Senior"
  {
  }

  // ---------------------------------------------------------------------------
  // get_user_status_compact
  // ---------------------------------------------------------------------------

  /** Few logins win over inactivity: a new user is never reported inactive. */
  function GetUserStatusCompact(loginCount: int, lastActiveDays: int): (r: string)
    ensures r == "New User" <==> loginCount < 5
    ensures r == "Inactive" <==> loginCount >= 5 && lastActiveDays > 30
    ensures r == "Active" <==> loginCount >= 5 && lastActiveDays <= 30
  {
    if loginCount < 5 then "New User"
    else if lastActiveDays > 30 then "Inactive"
    else "Active"
  }

  /** How engaged a user status says the user is. */
  function StatusRank(verdict: string): nat {
    if verdict == "Active" then 1 else 0
  }

  /**
   A user with five or more logins is never "New User", and with the login
   count fixed, more days of inactivity never turn "Inactive" back into
   "Active"; below five logins the inactivity is ignored.
   */
  lemma UserStatusMonotone(loginCount: int, d1: int, d2: int)
    requires d1 <= d2
    ensures loginCount >= 5 ==> GetUserStatusCompact(loginCount, d1) != "New User"
    ensures loginCount >= 5 ==>
              StatusRank(GetUserStatusCompact(loginCount, d1)) >= StatusRank(GetUserStatusCompact(loginCount, d2))
    ensures loginCount < 5 ==> GetUserStatusCompact(loginCount, d1) == GetUserStatusCompact(loginCount, d2)
  {
  }

  // ---------------------------------------------------------------------------
  // get_priority_level_compact
  // ---------------------------------------------------------------------------

  function GetPriorityLevelCompact(userType: string, isPremium: bool, daysUntilDeadline: int): (r: string)
    ensures r == "Critical" <==> daysUntilDeadline <= 1
    ensures r == "High" <==> (userType == "admin" || isPremium) && 2 <= daysUntilDeadline <= 3
    ensures r == "Medium" <==> 2 <= daysUntilDeadline <= 7
                               && !((userType == "admin" || isPremium) && daysUntilDeadline <= 3)
    ensures r == "Low" <==> daysUntilDeadline > 7
  {
    if daysUntilDeadline <= 1 then "Critical"
    else if (userType == "admin" || isPremium) && daysUntilDeadline <= 3 then "High"
    else if daysUntilDeadline <= 7 then "Medium"
    else "Low"
  }

  function PriorityRank(verdict: string): nat {
    if verdict == "Critical" then 3
    else if verdict == "High" then 2
    else if verdict == "Medium" then 1
    else 0
  }

  /** With the user fixed, a nearer deadline never lowers the priority. */
  lemma PriorityMonotone(userType: string, isPremium: bool, d1: int, d2: int)
    requires d1 <= d2
    ensures PriorityRank(GetPriorityLevelCompact(userType, isPremium, d1))
         >= PriorityRank(GetPriorityLevelCompact(userType, isPremium, d2))
  {
  }

  /** An ordinary user's priority skips "High": from "Critical" straight to "Medium". */
  lemma OrdinaryUserNeverHigh(userType: string, daysUntilDeadline: int)
    requires userType != "admin"
    ensures GetPriorityLevelCompact(userType, false, daysUntilDeadline) != "High"
    ensures 2 <= daysUntilDeadline <= 7 ==> GetPriorityLevelCompact(userType, false, daysUntilDeadline) == "Medium"
  {
  }

  // ---------------------------------------------------------------------------
  // classify_text_length_compact
  // ---------------------------------------------------------------------------

  function ClassifyTextLengthCompact(text: string): (r: string)
    ensures r == "Empty" <==> |text| == 0
    ensures r == "Short" <==> 1 <= |text| <= 10
    ensures r == "Medium" <==> 11 <= |text| <= 50
    ensures r == "Long" <==> |text| > 50
  {
    if |text| == 0 then "Empty"
    else if |text| <= 10 then "Short"
    else if |text| <= 50 then "Medium"
    else "Long"
  }

  function LengthRank(verdict: string): nat {
    if verdict == "Short" then 1
    else if verdict == "Medium" then 2
    else if verdict == "Long" then 3
    else 0
  }

  /** Only the length matters, and a longer text never gets a shorter verdict. */
  lemma TextLengthDependsOnlyOnLength(a: string, b: string)
    ensures |a| == |b| ==> ClassifyTextLengthCompact(a) == ClassifyTextLengthCompact(b)
    ensures |a| <= |b| ==> LengthRank(ClassifyTextLengthCompact(a)) <= LengthRank(ClassifyTextLengthCompact(b))
  {
  }
}
