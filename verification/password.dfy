/** The password policy applied at sign-up: a validity predicate and a message naming the first rule a
    password breaks. Both run the same seven checks in the same order. */
module PasswordPolicy {
  import opened Text
  import opened Wrappers

  /** The characters, besides \s whitespace, that count as special. */
  const SpecialChars: string := "^$*.[]{}()?-\"!@#%&/\\,><':;|_~`+="

  const MinLength: nat := 8

  /** String.trim() leaves nothing. */
  predicate IsBlank(p: string)
  {
    Trim(p) == ""
  }

  predicate HasDigit(p: string)
  {
    exists i :: 0 <= i < |p| && '0' <= p[i] <= '9'
  }

  predicate HasUpper(p: string)
  {
    exists i :: 0 <= i < |p| && 'A' <= p[i] <= 'Z'
  }

  predicate HasLower(p: string)
  {
    exists i :: 0 <= i < |p| && 'a' <= p[i] <= 'z'
  }

  /** A member of the character class built from the quoted special characters and \s. */
  predicate IsSpecial(c: char)
  {
    c in SpecialChars || IsRegexSpace(c)
  }

  predicate HasSpecial(p: string)
  {
    exists i :: 0 <= i < |p| && IsSpecial(p[i])
  }

  predicate SpaceAtEdge(p: string)
  {
    |p| > 0 && (p[0] == ' ' || p[|p| - 1] == ' ')
  }

  /** isValid. */
  predicate IsValid(p: string)
  {
    if IsBlank(p) then false
    else if |p| < MinLength then false
    else if !HasDigit(p) then false
    else if !HasUpper(p) then false
    else if !HasLower(p) then false
    else if !HasSpecial(p) then false
    else if SpaceAtEdge(p) then false
    else true
  }

  const ValidMessage: string := "Password is valid."

  /** getValidationMessage. */
  function ValidationMessage(p: string): string
  {
    if IsBlank(p) then "Password cannot be empty or null."
    else if |p| < MinLength then "Password must be at least 8 characters long."
    else if !HasDigit(p) then "Password must contain at least one number."
    else if !HasUpper(p) then "Password must contain at least one uppercase letter."
    else if !HasLower(p) then "Password must contain at least one lowercase letter."
    else if !HasSpecial(p) then "Password must contain at least one special character."
    else if SpaceAtEdge(p) then "Password cannot start or end with a space."
    else ValidMessage
  }

  /** The seven rules, each with the message that reports it. */
  datatype Rule = NotBlank | LongEnough | Digit | Upper | Lower | Special | NoEdgeSpace

  const Rules: seq<Rule> := [NotBlank, LongEnough, Digit, Upper, Lower, Special, NoEdgeSpace]

  predicate Passes(r: Rule, p: string)
  {
    match r
    case NotBlank => !IsBlank(p)
    case LongEnough => |p| >= MinLength
    case Digit => HasDigit(p)
    case Upper => HasUpper(p)
    case Lower => HasLower(p)
    case Special => HasSpecial(p)
    case NoEdgeSpace => !SpaceAtEdge(p)
  }

  function Message(r: Rule): string
  {
    match r
    case NotBlank => "Password cannot be empty or null."
    case LongEnough => "Password must be at least 8 characters long."
    case Digit => "Password must contain at least one number."
    case Upper => "Password must contain at least one uppercase letter."
    case Lower => "Password must contain at least one lowercase letter."
    case Special => "Password must contain at least one special character."
    case NoEdgeSpace => "Password cannot start or end with a space."
  }

  /** The first rule of `rules` that `p` breaks. */
  function FirstBroken(rules: seq<Rule>, p: string): (r: Option<Rule>)
    ensures r.Some? ==> r.value in rules && !Passes(r.value, p)
    ensures r.None? <==> forall i :: 0 <= i < |rules| ==> Passes(rules[i], p)
  {
    if rules == [] then None
    else if !Passes(rules[0], p) then Some(rules[0])
    else
      var r := FirstBroken(rules[1..], p);
      assert forall i :: 1 <= i < |rules| ==> rules[i] == rules[1..][i - 1];
      r
  }

  /** A password is valid exactly when it passes every rule. */
  lemma ValidIffAllRules(p: string)
    ensures IsValid(p) <==> forall r :: r in Rules ==> Passes(r, p)
  {
    assert forall r :: r in Rules <==> r in {NotBlank, LongEnough, Digit, Upper, Lower, Special, NoEdgeSpace};
    assert IsValid(p) <==> Passes(NotBlank, p) && Passes(LongEnough, p) && Passes(Digit, p) && Passes(Upper, p)
                           && Passes(Lower, p) && Passes(Special, p) && Passes(NoEdgeSpace, p);
  }

  /** The message names the first broken rule, in the fixed order, or reports the password valid. */
  lemma MessageNamesFirstBroken(p: string)
    ensures ValidationMessage(p) == match FirstBroken(Rules, p)
                                    case None => ValidMessage
                                    case Some(r) => Message(r)
  {
    var r6 := [NoEdgeSpace];
    var r5 := [Special] + r6;
    var r4 := [Lower] + r5;
    var r3 := [Upper] + r4;
    var r2 := [Digit] + r3;
    var r1 := [LongEnough] + r2;
    assert Rules == [NotBlank] + r1;
    FirstBrokenCons(NotBlank, r1, p);
    FirstBrokenCons(LongEnough, r2, p);
    FirstBrokenCons(Digit, r3, p);
    FirstBrokenCons(Upper, r4, p);
    FirstBrokenCons(Lower, r5, p);
    FirstBrokenCons(Special, r6, p);
    FirstBrokenCons(NoEdgeSpace, [], p);
    assert r6 == [NoEdgeSpace] + [];
  }

  lemma FirstBrokenCons(r: Rule, rest: seq<Rule>, p: string)
    ensures FirstBroken([r] + rest, p) == if !Passes(r, p) then Some(r) else FirstBroken(rest, p)
  {
    assert ([r] + rest)[1..] == rest;
  }

  /** isValid holds exactly when getValidationMessage reports the password valid. */
  lemma ValidIffValidMessage(p: string)
    ensures IsValid(p) <==> ValidationMessage(p) == ValidMessage
  {
    MessageNamesFirstBroken(p);
    ValidIffAllRules(p);
    var b := FirstBroken(Rules, p);
    if b.Some? {
      MessageIsNotValid(b.value);
    }
  }

  /** No rule's message reads as the valid one: each is longer. */
  lemma MessageIsNotValid(r: Rule)
    ensures Message(r) != ValidMessage
  {
    assert |ValidMessage| == 18;
    assert |Message(r)| > 18;
  }

  /** What a valid password has: at least eight characters, not all of them at most U+0020, a digit,
      an upper-case and a lower-case ASCII letter, a special or whitespace character, and no space at
      either end. */
  lemma ValidMeans(p: string)
    requires IsValid(p)
    ensures |p| >= MinLength && HasDigit(p) && HasUpper(p) && HasLower(p) && HasSpecial(p)
    ensures exists i :: 0 <= i < |p| && !IsTrimmed(p[i])
    ensures p[0] != ' ' && p[|p| - 1] != ' '
  {
    if forall i :: 0 <= i < |p| ==> IsTrimmed(p[i]) {
      TrimOfTrimmed(p);
    }
  }

  /** A string of characters at most U+0020 trims to nothing. */
  lemma {:induction false} TrimOfTrimmed(s: string)
    requires forall i :: 0 <= i < |s| ==> IsTrimmed(s[i])
    ensures Trim(s) == ""
    decreases |s|
  {
    if s != [] {
      TrimOfTrimmed(s[1..]);
    }
  }
}
