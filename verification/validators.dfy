/**
 The two validators of conditionals.py. The password validator reports the
 first requirement a password misses, in a fixed order; the compact e-mail
 validator only says valid or invalid. Their contracts are stated against
 independent definitions: an ordered requirement list for the password, and
 a quantified description of the address for the e-mail.
 */
module Validators {
  import opened Text

  // ---------------------------------------------------------------------------
  // validate_password_strength
  // ---------------------------------------------------------------------------

  const Specials := "!@#$%^&*"
  const MinLength := 8

  datatype CharClass = Uppercase | Lowercase | Digit | Special

  predicate InClass(c: char, k: CharClass) {
    match k
    case Uppercase => IsUpper(c)
    case Lowercase => IsLower(c)
    case Digit => IsDigit(c)
    case Special => c in Specials
  }

  /** Some character of `s` is in class `k`. */
  ghost predicate Has(s: string, k: CharClass) {
    exists i :: 0 <= i < |s| && InClass(s[i], k)
  }

  /** Python's `any(<test> for c in s)`, scanning from the front. */
  function AnyInClass(s: string, k: CharClass): (b: bool)
    ensures b <==> Has(s, k)
    decreases |s|
  {
    if |s| == 0 then false
    else if InClass(s[0], k) then true
    else
      var rest := AnyInClass(s[1..], k);
      assert forall i :: 0 < i < |s| ==> s[i] == s[1..][i - 1];
      rest
  }

  const TooShort := "Password too short (minimum 8 characters)"
  const NeedUpper := "Password must contain uppercase letter"
  const NeedLower := "Password must contain lowercase letter"
  const NeedDigit := "Password must contain a number"
  const NeedSpecial := "Password must contain special character"
  const Strong := "Strong password!"

  function ValidatePasswordStrength(password: string): (r: string)
    ensures |password| < MinLength ==> r == TooShort
    ensures |password| >= MinLength && !Has(password, Uppercase) ==> r == NeedUpper
    ensures |password| >= MinLength && Has(password, Uppercase) && !Has(password, Lowercase)
            ==> r == NeedLower
    ensures (|password| >= MinLength && Has(password, Uppercase) && Has(password, Lowercase)
             && !Has(password, Digit)) ==> r == NeedDigit
    ensures (|password| >= MinLength && Has(password, Uppercase) && Has(password, Lowercase)
             && Has(password, Digit) && !Has(password, Special)) ==> r == NeedSpecial
    ensures r == Strong <==>
              && |password| >= MinLength
              && Has(password, Uppercase) && Has(password, Lowercase)
              && Has(password, Digit) && Has(password, Special)
  {
    if |password| < MinLength then TooShort
    else
      var hasUpper := AnyInClass(password, Uppercase);
      var hasLower := AnyInClass(password, Lowercase);
      var hasDigit := AnyInClass(password, Digit);
      var hasSpecial := AnyInClass(password, Special);
      if !hasUpper then NeedUpper
      else if !hasLower then NeedLower
      else if !hasDigit then NeedDigit
      else if !hasSpecial then NeedSpecial
      else Strong
  }

  /** One requirement of the password policy. */
  datatype Requirement = Length | Contains(k: CharClass)

  /** The order in which the requirements are checked. */
  const Policy := [Length, Contains(Uppercase), Contains(Lowercase), Contains(Digit), Contains(Special)]

  ghost predicate Meets(password: string, q: Requirement) {
    match q
    case Length => |password| >= MinLength
    case Contains(k) => Has(password, k)
  }

  /** The message for a missed requirement, or the success message when none is missed. */
  function Message(missed: Option<Requirement>): string {
    match missed
    case None => Strong
    case Some(Length) => TooShort
    case Some(Contains(Uppercase)) => NeedUpper
    case Some(Contains(Lowercase)) => NeedLower
    case Some(Contains(Digit)) => NeedDigit
    case Some(Contains(Special)) => NeedSpecial
  }

  /** The first requirement of `reqs`, in order, that `password` does not meet. */
  ghost function FirstUnmet(reqs: seq<Requirement>, password: string): (r: Option<Requirement>)
    ensures r.None? <==> forall j :: 0 <= j < |reqs| ==> Meets(password, reqs[j])
    ensures r.Some? ==> exists i :: 0 <= i < |reqs| && reqs[i] == r.value
                           && !Meets(password, reqs[i])
                           && forall j :: 0 <= j < i ==> Meets(password, reqs[j])
  {
    if |reqs| == 0 then None
    else if !Meets(password, reqs[0]) then Some(reqs[0])
    else
      var r := FirstUnmet(reqs[1..], password);
      if r.Some? then
        var i :| 0 <= i < |reqs[1..]| && reqs[1..][i] == r.value
                 && !Meets(password, reqs[1..][i])
                 && forall j :: 0 <= j < i ==> Meets(password, reqs[1..][j]);
        assert reqs[i + 1] == r.value;
        r
      else r
  }

  /**
   The validator's answer is the message for the first requirement of the
   policy the password misses: a short password is reported as short whatever
   its contents, and success is reported only when nothing is missed.
   */
  lemma {:induction false} PasswordReportsFirstUnmet(password: string)
    ensures ValidatePasswordStrength(password) == Message(FirstUnmet(Policy, password))
  {
    var r := FirstUnmet(Policy, password);
    if r.Some? {
      var i :| 0 <= i < |Policy| && Policy[i] == r.value && !Meets(password, Policy[i])
               && forall j :: 0 <= j < i ==> Meets(password, Policy[j]);
      if i >= 1 { assert Meets(password, Policy[0]); }
      if i >= 2 { assert Meets(password, Policy[1]); }
      if i >= 3 { assert Meets(password, Policy[2]); }
      if i >= 4 { assert Meets(password, Policy[3]); }
    } else {
      assert Meets(password, Policy[0]) && Meets(password, Policy[1]) && Meets(password, Policy[2])
          && Meets(password, Policy[3]) && Meets(password, Policy[4]);
    }
  }

  /** A strong password stays strong when more characters are appended. */
  lemma StrongIsPreservedByExtension(password: string, more: string)
    requires ValidatePasswordStrength(password) == Strong
    ensures ValidatePasswordStrength(password + more) == Strong
  {
    var s := password + more;
    forall k: CharClass ensures Has(password, k) ==> Has(s, k) {
      if Has(password, k) {
        var i :| 0 <= i < |password| && InClass(password[i], k);
        assert s[i] == password[i];
      }
    }
  }

  // ---------------------------------------------------------------------------
  // validate_email_compact
  // ---------------------------------------------------------------------------

  const ValidEmail := "Valid email"
  const InvalidEmail := "Invalid email"

  /**
   The address shape the compact validator accepts, in terms of positions:
   more than five characters, not starting with '@', and some '@' that is the
   last one in the string and is followed, somewhere, by a '.'.
   */
  ghost predicate AcceptableAddress(email: string) {
    && |email| > 5
    && email[0] != '@'
    && exists at :: 0 <= at < |email| && email[at] == '@'
         && (forall j :: at < j < |email| ==> email[j] != '@')
         && (exists k :: at < k < |email| && email[k] == '.')
  }

  /**
   `validate_email_compact`: a single verdict from a conjunction of tests;
   which test failed is never reported.
   */
  function ValidateEmailCompact(email: string): (r: string)
    ensures r == ValidEmail <==> AcceptableAddress(email)
    ensures r == InvalidEmail <==> !AcceptableAddress(email)
  {
    var domain := LastPart(email, '@');
    var ok := '@' in email && '.' in domain && |email| > 5 && !(|email| > 0 && email[0] == '@');
    EmailVerdictMatches(email);
    if ok then ValidEmail else InvalidEmail
  }

  /** The tests conditionals.py strings together agree with the positional description. */
  lemma EmailVerdictMatches(email: string)
    ensures ('@' in email && '.' in LastPart(email, '@') && |email| > 5 && !(|email| > 0 && email[0] == '@'))
            <==> AcceptableAddress(email)
  {
    var domain := LastPart(email, '@');
    SplitLastPart(email, '@');
    var parts := Split(email, '@');
    assert forall i :: 0 <= i < |domain| ==> domain[i] != '@';
    if '@' in email {
      var at := |email| - |domain| - 1;
      assert email[at] == '@';
      assert forall j :: at < j < |email| ==> email[j] == domain[j - at - 1];
      if '.' in domain {
        var k :| 0 <= k < |domain| && domain[k] == '.';
        assert email[at + 1 + k] == '.';
      }
      if AcceptableAddress(email) {
        var at' :| 0 <= at' < |email| && email[at'] == '@'
             && (forall j :: at' < j < |email| ==> email[j] != '@')
             && (exists k :: at' < k < |email| && email[k] == '.');
        assert at' == at;
        var k :| at < k < |email| && email[k] == '.';
        assert domain[k - at - 1] == '.';
      }
    }
  }

  /** The sample address of the demonstration driver is accepted; a bare domain is not. */
  lemma EmailExamples()
    ensures ValidateEmailCompact("user@domain.com") == ValidEmail
    ensures ValidateEmailCompact("@domain.com") == InvalidEmail
    ensures ValidateEmailCompact("a@b.c") == InvalidEmail
  {
    var good := "user@domain.com";
    assert good[4] == '@' && good[11] == '.';
    assert forall j :: 4 < j < |good| ==> good[j] != '@';
    assert AcceptableAddress(good);
    assert !AcceptableAddress("@domain.com");
    assert !AcceptableAddress("a@b.c");
  }
}
