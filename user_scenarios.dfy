/** Sequences of calls on a `User`, and what callers can conclude from the entity's
    contracts alone. */
module UserScenarios {

  import opened Wrappers
  import opened JavaText
  import EmailPattern
  import opened Users

  /** Confirmation is not idempotent: the first call sets the flag, the second is an
      invalid state and changes nothing. */
  method ConfirmEmailTwice(u: User, first: int, second: int) returns (r1: Outcome<Error>, r2: Outcome<Error>)
    requires !u.emailIsConfirmed
    modifies u
    ensures r1 == Pass
    ensures r2 == Fail(InvalidState(EmailAlreadyConfirmed))
    ensures u.State() == old(u.State()).(emailIsConfirmed := true, updatedAt := Some(first))
  {
    r1 := u.ConfirmEmail(first);
    r2 := u.ConfirmEmail(second);
  }

  /** Changing the address revokes a confirmation, after which the new address can be
      confirmed again. */
  method ChangeEmailThenConfirm(u: User, newEmail: string, changed: int, confirmed: int)
    returns (r1: Outcome<Error>, r2: Outcome<Error>)
    requires EmailPattern.Matches(newEmail)
    modifies u
    ensures r1 == Pass && r2 == Pass
    ensures u.email == newEmail && u.emailIsConfirmed && u.updatedAt == Some(confirmed)
  {
    EmailPattern.MatchedAddressIsNotBlank(newEmail);
    r1 := u.ChangeEmail(Some(newEmail), changed);
    assert !u.emailIsConfirmed;
    r2 := u.ConfirmEmail(confirmed);
  }

  /** Marking as deleted and restoring brings `deletedAt` back to absent and leaves the
      other fields as they were, apart from `updatedAt`; restoring a second time is an
      invalid state. */
  method DeleteThenRestore(u: User, deletedNow: int, updatedNow: int, restoredNow: int, againNow: int)
    returns (r1: Outcome<Error>, r2: Outcome<Error>, r3: Outcome<Error>)
    requires u.deletedAt.None?
    modifies u
    ensures r1 == Pass && r2 == Pass
    ensures r3 == Fail(InvalidState(NotDeleted))
    ensures u.State() == old(u.State()).(updatedAt := Some(restoredNow))
  {
    r1 := u.MarkAsDeleted(deletedNow, updatedNow);
    assert u.deletedAt == Some(deletedNow) && u.updatedAt == Some(updatedNow);
    r2 := u.Restore(restoredNow);
    r3 := u.Restore(againNow);
  }

  /** The `changeUsername` defect: on a user with a valid username a blank one is
      accepted and stored, and from then on every change of username is rejected. */
  method BlankUsernameLocksUsername(u: User, first: int, second: int)
    returns (r1: Outcome<Error>, r2: Outcome<Error>)
    requires Present(u.username)
    modifies u
    ensures r1 == Pass
    ensures r2 == Fail(InvalidArgument(UsernameBlank))
    ensures u.username == Some("") && u.updatedAt == Some(first)
  {
    r1 := u.ChangeUsername(Some(""), first);
    r2 := u.ChangeUsername(Some("x"), second);
  }

  /** With the intended guard a blank username is rejected and the stored one is kept. */
  method BlankUsernameRejectedWhenIntended(u: User, now: int) returns (r: Outcome<Error>)
    modifies u
    ensures r == Fail(InvalidArgument(UsernameBlank))
    ensures u.State() == old(u.State())
  {
    r := u.ChangeUsernameIntended(Some(""), now);
  }

  /** The address of the valid example below matches the pattern. */
  lemma ExampleAddressMatches()
    ensures EmailPattern.Matches("ana@example.com")
  {
    var s := "ana@example.com";
    assert s[..3] == "ana";
    assert s[4..11] == "example";
    assert s[12..] == "com";
    assert EmailPattern.IsLocalPart("ana");
    assert EmailPattern.IsDomainPart("example");
    assert EmailPattern.IsTopLevelPart("com");
    EmailPattern.LanguageSplitIsFound(s, 3, 11);
  }

  /** The address of the invalid example below has no '@', so it does not match. */
  lemma ExampleAddressDoesNotMatch()
    ensures !EmailPattern.Matches("not-an-email")
  {
    var s := "not-an-email";
    assert forall j :: 0 <= j < |s| ==> s[j] != '@';
    assert EmailPattern.IndexOf(s, '@').None?;
    assert !EmailPattern.MatchesBySplit(s);
  }

  /** `create` on valid data succeeds, with the given permission level, an unconfirmed
      address and both timestamps equal. */
  method CreateValidExample(newUuid: string, now: int) returns (r: Result<User, Error>)
    requires !IsBlank(newUuid)
    ensures r.Success?
    ensures r.value.permissionLevel == Viewer && r.value.email == "ana@example.com"
    ensures !r.value.emailIsConfirmed && r.value.updatedAt == Some(r.value.createdAt)
  {
    var name, username, email, hash := "Ana Silva", "ana.silva", "ana@example.com", "hash";
    NotBlankAt(name, 0);
    NotBlankAt(username, 0);
    NotBlankAt(hash, 0);
    ExampleAddressMatches();
    EmailPattern.MatchedAddressIsNotBlank(email);
    r := User.Create(newUuid, Some(name), Some(username), Some(email), Some(hash), Some(Viewer), now);
  }

  /** `create` with a malformed address reports the email format. */
  method CreateInvalidExample(newUuid: string, now: int) returns (r: Result<User, Error>)
    requires !IsBlank(newUuid)
    ensures r == Failure(InvalidArgument(EmailFormat))
  {
    var name, username, email, hash := "Ana", "ana", "not-an-email", "hash";
    NotBlankAt(name, 0);
    NotBlankAt(username, 0);
    NotBlankAt(email, 0);
    NotBlankAt(hash, 0);
    ExampleAddressDoesNotMatch();
    r := User.Create(newUuid, Some(name), Some(username), Some(email), Some(hash), Some(Viewer), now);
  }

  /** A persistence round trip: reading every field of a valid user with a present
      username through the getters and passing them back to the reconstruction constructor
      yields an equal user in the same state. A user whose username `changeUsername` has
      blanked is still valid, but reconstructing it fails with the username message. */
  method Reload(u: User) returns (r: Result<User, Error>)
    requires u.Valid() && Present(u.username)
    ensures r.Success?
    ensures r.value.Equals(u) && r.value.State() == u.State() && r.value.createdAt == u.createdAt
  {
    r := User.Reconstruct(Some(u.uuid), Some(u.name), u.username, Some(u.email), Some(u.passwordHash),
                          u.emailIsConfirmed, Some(u.permissionLevel), Some(u.createdAt),
                          u.updatedAt, u.deletedAt);
  }
}
