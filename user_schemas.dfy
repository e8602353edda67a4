/**
 * The request bodies of the user endpoints and their field constraints.
 * `EmailStr` syntax is a library validator and is not modelled: emails are
 * plain strings here.
 */
module UserSchemas {
  import opened Wrappers
  import AuthModels

  /** A member of the character class [a-zA-Z0-9_]. */
  predicate WordChar(c: char) {
    ('a' <= c <= 'z') || ('A' <= c <= 'Z') || ('0' <= c <= '9') || c == '_'
  }

  /** Every character is in [a-zA-Z0-9_]: what the pattern `^[a-zA-Z0-9_]*$` is meant to accept. */
  predicate WordString(s: string) {
    forall i :: 0 <= i < |s| ==> WordChar(s[i])
  }

  /**
   * What Python's `re.match('^[a-zA-Z0-9_]*$', s)` accepts, as the validator
   * runs it: a run of word characters followed by a position where `$`
   * matches, which is the end of the string or the position just before a
   * final newline.
   */
  predicate PatternAsWritten(s: string) {
    exists k :: 0 <= k <= |s| && WordString(s[..k]) && (k == |s| || (k == |s| - 1 && s[k] == '\n'))
  }

  /**
   * `username` as validated: 3 to 20 characters that the pattern, applied as
   * written, accepts.
   */
  predicate UsernameValid(s: string) {
    3 <= |s| <= 20 && PatternAsWritten(s)
  }

  /** `password` as validated: 8 to 20 characters that the pattern, applied as written, accepts. */
  predicate PasswordValid(s: string) {
    8 <= |s| <= 20 && PatternAsWritten(s)
  }

  /** The corrected username rule: 3 to 20 characters, every one from [a-zA-Z0-9_]. */
  predicate CorrectedUsernameValid(s: string) {
    3 <= |s| <= 20 && WordString(s)
  }

  /** The corrected password rule: 8 to 20 characters, every one from [a-zA-Z0-9_]. */
  predicate CorrectedPasswordValid(s: string) {
    8 <= |s| <= 20 && WordString(s)
  }

  /** `UserCreateRequest`; `role` defaults to 'customer' when omitted. */
  datatype UserCreateRequest = UserCreateRequest(
    username: string, email: string, password: string, role: string := "customer")

  predicate UserCreateRequestValid(r: UserCreateRequest) {
    UsernameValid(r.username) && PasswordValid(r.password)
  }

  /**
   * `UserUpdateRequest`: `username` and `email` are still required (inherited
   * from `UserBase`); `password` and `role` are optional and default to None.
   */
  datatype UserUpdateRequest = UserUpdateRequest(
    username: string, email: string, password: Option<string> := None, role: Option<string> := None)

  predicate UserUpdateRequestValid(r: UserUpdateRequest) {
    UsernameValid(r.username) && (r.password.Some? ==> PasswordValid(r.password.value))
  }

  /**
   * `UserCreateResponse` and `UserUpdateResponse`, which have the same shape:
   * a fixed message and the row as stored. The timestamps are not modelled.
   */
  datatype UserMessage = UserMessage(message: string, user: AuthModels.User)

  /**
   * The pattern as written accepts exactly the word strings, and the word
   * strings followed by one newline.
   */
  lemma PatternAsWrittenMeaning(s: string)
    ensures PatternAsWritten(s) <==>
      (WordString(s) || (|s| >= 1 && s[|s| - 1] == '\n' && WordString(s[..|s| - 1])))
  {
    if WordString(s) {
      assert s[..|s|] == s;
    } else if |s| >= 1 && s[|s| - 1] == '\n' && WordString(s[..|s| - 1]) {
      assert 0 <= |s| - 1 <= |s| && s[|s| - 1] == '\n';
    }
    if PatternAsWritten(s) {
      var k :| 0 <= k <= |s| && WordString(s[..k]) && (k == |s| || (k == |s| - 1 && s[k] == '\n'));
      if k == |s| {
        assert s[..k] == s;
      }
    }
  }

  /** The validators as written accept more than the corrected rules, and nothing less. */
  lemma CorrectedRulesAreStricter(s: string)
    ensures CorrectedUsernameValid(s) ==> UsernameValid(s)
    ensures CorrectedPasswordValid(s) ==> PasswordValid(s)
    ensures UsernameValid(s) && (forall i :: 0 <= i < |s| ==> s[i] != '\n') ==> CorrectedUsernameValid(s)
    ensures PasswordValid(s) && (forall i :: 0 <= i < |s| ==> s[i] != '\n') ==> CorrectedPasswordValid(s)
  {
    PatternAsWrittenMeaning(s);
    if forall i :: 0 <= i < |s| ==> s[i] != '\n' {
      PatternAsWrittenAgreesWithoutNewline(s);
    }
  }

  /**
   * A username and a password with a trailing newline pass the validators as
   * written, though the corrected rules refuse them.
   */
  lemma TrailingNewlinePassesPattern()
    ensures PatternAsWritten("alice\n") && !WordString("alice\n")
    ensures UsernameValid("alice\n") && !CorrectedUsernameValid("alice\n")
    ensures PasswordValid("password\n") && !CorrectedPasswordValid("password\n")
  {
    var s := "alice\n";
    assert s[..5] == "alice";
    assert !WordChar(s[5]);
    var p := "password\n";
    assert p[..8] == "password";
    assert !WordChar(p[8]);
  }

  /** On strings without a newline the pattern as written and the corrected rule agree. */
  lemma PatternAsWrittenAgreesWithoutNewline(s: string)
    requires forall i :: 0 <= i < |s| ==> s[i] != '\n'
    ensures PatternAsWritten(s) <==> WordString(s)
  {
    if WordString(s) {
      assert s[..|s|] == s;
    }
    if PatternAsWritten(s) {
      var k :| 0 <= k <= |s| && WordString(s[..k]) && (k == |s| || (k == |s| - 1 && s[k] == '\n'));
      assert k == |s|;
      assert s[..k] == s;
    }
  }

  /** The corrected rules: an accepted username or password contains no line break. */
  lemma ValidCredentialsHaveNoNewline(s: string)
    requires CorrectedUsernameValid(s) || CorrectedPasswordValid(s)
    ensures forall i :: 0 <= i < |s| ==> s[i] != '\n'
  {
    forall i | 0 <= i < |s| ensures s[i] != '\n' {
      assert WordChar(s[i]);
    }
  }

}
