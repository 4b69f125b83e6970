/** The `User` domain entity: a registered account with identity, contact, credential,
    permission and soft-deletion state.

    Java's exceptions become values: a method that can throw returns an `Outcome<Error>`
    (or a `Result`), where `InvalidArgument` is `IllegalArgumentException` and
    `InvalidState` is `IllegalStateException`, each with the source's message. A Java
    null is `None`. `Instant` is an `int`, and every read of the clock is a parameter. */
module Users {

  import opened Wrappers
  import opened JavaText
  import EmailPattern

  /** The entity's permission tiers. The entity's code and its test name only `VIEWER`;
      every other constant of the enumeration is an `OtherLevel`. */
  datatype PermissionLevel = Viewer | OtherLevel(constant: string)

  datatype Error = InvalidArgument(message: string) | InvalidState(message: string)

  const UuidBlank := "UUID cannot be null or blank."
  const NameBlank := "Name cannot be null or blank."
  const UsernameBlank := "Username cannot be null or blank."
  const EmailBlank := "Email cannot be null or blank."
  const EmailFormat := "Invalid email format."
  const PasswordHashBlank := "Password hash cannot be null or blank."
  const PasswordBlank := "Password cannot be null or blank."
  const PermissionLevelNull := "Permission level cannot be null."
  const InitialPermissionLevelNull := "Initial permission level cannot be null."
  const CreatedAtNull := "Created at cannot be null."
  const EmailAlreadyConfirmed := "Email is already confirmed."
  const AlreadyDeleted := "User is already marked as deleted."
  const NotDeleted := "User is not marked as deleted."

  /** The negation of the guard `s == null || s.isBlank()`. */
  predicate Present(s: Option<string>) {
    !NullOrBlank(s)
  }

  predicate MatchesEmail(s: Option<string>) {
    s.Some? && EmailPattern.Matches(s.value)
  }

  /** What every `User` keeps from construction on: non-blank id, name, email and
      password hash, and an email of the right form. The username is not included:
      `changeUsername` can store a blank or null one. */
  predicate FieldsValid(uuid: string, name: string, email: string, passwordHash: string) {
    && !IsBlank(uuid)
    && !IsBlank(name)
    && !IsBlank(email)
    && EmailPattern.Matches(email)
    && !IsBlank(passwordHash)
  }

  /** The outcome of the reconstruction constructor's validation: it passes exactly when
      every required argument is present and valid, and otherwise reports the first
      violated rule in the order uuid, name, username, email, email format, password hash,
      permission level, creation time. `updatedAt`, `deletedAt` and the confirmation flag
      are not checked. */
  function CheckReconstruction(
    uuid: Option<string>, name: Option<string>, username: Option<string>, email: Option<string>,
    passwordHash: Option<string>, permissionLevel: Option<PermissionLevel>, createdAt: Option<int>
  ): (r: Outcome<Error>)
    ensures r.Pass? <==>
      && uuid.Some? && name.Some? && username.Some? && email.Some? && passwordHash.Some?
      && permissionLevel.Some? && createdAt.Some?
      && FieldsValid(uuid.value, name.value, email.value, passwordHash.value)
      && !IsBlank(username.value)
    ensures r.Fail? ==> r.error.InvalidArgument?
    ensures !Present(uuid) ==> r == Fail(InvalidArgument(UuidBlank))
    ensures Present(uuid) && !Present(name) ==> r == Fail(InvalidArgument(NameBlank))
    ensures Present(uuid) && Present(name) && !Present(username)
            ==> r == Fail(InvalidArgument(UsernameBlank))
    ensures Present(uuid) && Present(name) && Present(username) && !Present(email)
            ==> r == Fail(InvalidArgument(EmailBlank))
    ensures Present(uuid) && Present(name) && Present(username) && Present(email)
            && !MatchesEmail(email)
            ==> r == Fail(InvalidArgument(EmailFormat))
    ensures Present(uuid) && Present(name) && Present(username) && Present(email) && MatchesEmail(email)
            && !Present(passwordHash)
            ==> r == Fail(InvalidArgument(PasswordHashBlank))
    ensures Present(uuid) && Present(name) && Present(username) && Present(email) && MatchesEmail(email)
            && Present(passwordHash) && permissionLevel.None?
            ==> r == Fail(InvalidArgument(PermissionLevelNull))
    ensures Present(uuid) && Present(name) && Present(username) && Present(email) && MatchesEmail(email)
            && Present(passwordHash) && permissionLevel.Some? && createdAt.None?
            ==> r == Fail(InvalidArgument(CreatedAtNull))
  {
    if !Present(uuid) then Fail(InvalidArgument(UuidBlank))
    else if !Present(name) then Fail(InvalidArgument(NameBlank))
    else if !Present(username) then Fail(InvalidArgument(UsernameBlank))
    else if !Present(email) then Fail(InvalidArgument(EmailBlank))
    else if !EmailPattern.Matches(email.value) then Fail(InvalidArgument(EmailFormat))
    else if !Present(passwordHash) then Fail(InvalidArgument(PasswordHashBlank))
    else if permissionLevel.None? then Fail(InvalidArgument(PermissionLevelNull))
    else if createdAt.None? then Fail(InvalidArgument(CreatedAtNull))
    else Pass
  }

  /** The outcome of the `create` factory's validation: it passes exactly when every
      argument is present and valid, and otherwise reports the first violated rule in the
      order name, username, email, email format, password hash, permission level. */
  function CheckCreation(
    name: Option<string>, username: Option<string>, email: Option<string>,
    passwordHash: Option<string>, initialPermissionLevel: Option<PermissionLevel>
  ): (r: Outcome<Error>)
    ensures r.Pass? <==>
      && name.Some? && username.Some? && email.Some? && passwordHash.Some?
      && initialPermissionLevel.Some?
      && !IsBlank(name.value) && !IsBlank(username.value)
      && !IsBlank(email.value) && EmailPattern.Matches(email.value)
      && !IsBlank(passwordHash.value)
    ensures r.Fail? ==> r.error.InvalidArgument?
    ensures !Present(name) ==> r == Fail(InvalidArgument(NameBlank))
    ensures Present(name) && !Present(username) ==> r == Fail(InvalidArgument(UsernameBlank))
    ensures Present(name) && Present(username) && !Present(email)
            ==> r == Fail(InvalidArgument(EmailBlank))
    ensures Present(name) && Present(username) && Present(email) && !MatchesEmail(email)
            ==> r == Fail(InvalidArgument(EmailFormat))
    ensures Present(name) && Present(username) && Present(email) && MatchesEmail(email) && !Present(passwordHash)
            ==> r == Fail(InvalidArgument(PasswordBlank))
    ensures Present(name) && Present(username) && Present(email) && MatchesEmail(email) && Present(passwordHash)
            && initialPermissionLevel.None?
            ==> r == Fail(InvalidArgument(InitialPermissionLevelNull))
  {
    if !Present(name) then Fail(InvalidArgument(NameBlank))
    else if !Present(username) then Fail(InvalidArgument(UsernameBlank))
    else if !Present(email) then Fail(InvalidArgument(EmailBlank))
    else if !EmailPattern.Matches(email.value) then Fail(InvalidArgument(EmailFormat))
    else if !Present(passwordHash) then Fail(InvalidArgument(PasswordBlank))
    else if initialPermissionLevel.None? then Fail(InvalidArgument(InitialPermissionLevelNull))
    else Pass
  }

  /** Inside `create` the call to the reconstruction constructor never throws: with a
      non-blank new id, the factory's own checks imply the constructor's. */
  lemma CreationChecksImplyReconstructionChecks(
    newUuid: string, name: Option<string>, username: Option<string>, email: Option<string>,
    passwordHash: Option<string>, initialPermissionLevel: Option<PermissionLevel>, now: int
  )
    requires !IsBlank(newUuid)
    ensures CheckCreation(name, username, email, passwordHash, initialPermissionLevel).Pass?
            <==> CheckReconstruction(Some(newUuid), name, username, email, passwordHash,
                                     initialPermissionLevel, Some(now)).Pass?
  {
  }

  /** The mutable fields of a `User`, read together. */
  datatype Snapshot = Snapshot(
    name: string,
    username: Option<string>,
    email: string,
    passwordHash: string,
    emailIsConfirmed: bool,
    permissionLevel: PermissionLevel,
    updatedAt: Option<int>,
    deletedAt: Option<int>)

  class User {
    const uuid: string
    var name: string
    var username: Option<string>
    var email: string
    var passwordHash: string
    var emailIsConfirmed: bool
    var permissionLevel: PermissionLevel
    const createdAt: int
    var updatedAt: Option<int>
    var deletedAt: Option<int>

    /** The values the getters return, apart from the immutable `uuid` and `createdAt`. */
    function State(): Snapshot
      reads this
    {
      Snapshot(name, username, email, passwordHash, emailIsConfirmed, permissionLevel, updatedAt, deletedAt)
    }

    predicate Valid()
      reads this
    {
      FieldsValid(uuid, name, email, passwordHash)
    }

    /** The field assignments of the reconstruction constructor, reached once its checks
        have passed (see `Reconstruct`). */
    constructor (
      uuid: string, name: string, username: string, email: string, passwordHash: string,
      emailIsConfirmed: bool, permissionLevel: PermissionLevel, createdAt: int,
      updatedAt: Option<int>, deletedAt: Option<int>)
      requires FieldsValid(uuid, name, email, passwordHash) && !IsBlank(username)
      ensures Valid()
      ensures this.uuid == uuid && this.createdAt == createdAt
      ensures State() == Snapshot(name, Some(username), email, passwordHash, emailIsConfirmed,
                                  permissionLevel, updatedAt, deletedAt)
    {
      this.uuid := uuid;
      this.name := name;
      this.username := Some(username);
      this.email := email;
      this.passwordHash := passwordHash;
      this.emailIsConfirmed := emailIsConfirmed;
      this.permissionLevel := permissionLevel;
      this.createdAt := createdAt;
      this.updatedAt := updatedAt;
      this.deletedAt := deletedAt;
    }

    /** The ten-argument constructor: throws on the first violated check, and otherwise
        stores every argument as given. */
    static method Reconstruct(
      uuid: Option<string>, name: Option<string>, username: Option<string>, email: Option<string>,
      passwordHash: Option<string>, emailIsConfirmed: bool, permissionLevel: Option<PermissionLevel>,
      createdAt: Option<int>, updatedAt: Option<int>, deletedAt: Option<int>
    ) returns (r: Result<User, Error>)
      ensures r.Failure? <==>
        CheckReconstruction(uuid, name, username, email, passwordHash, permissionLevel, createdAt).Fail?
      ensures r.Failure? ==>
        CheckReconstruction(uuid, name, username, email, passwordHash, permissionLevel, createdAt)
          == Fail(r.error)
      ensures r.Success? ==>
        && fresh(r.value)
        && r.value.Valid()
        && r.value.uuid == uuid.value
        && r.value.createdAt == createdAt.value
        && r.value.State() == Snapshot(name.value, username, email.value, passwordHash.value,
                                       emailIsConfirmed, permissionLevel.value, updatedAt, deletedAt)
    {
      var check := CheckReconstruction(uuid, name, username, email, passwordHash, permissionLevel, createdAt);
      if check.Fail? {
        return Failure(check.error);
      }
      var u := new User(uuid.value, name.value, username.value, email.value, passwordHash.value,
                        emailIsConfirmed, permissionLevel.value, createdAt.value, updatedAt, deletedAt);
      return Success(u);
    }

    /** The `create` factory. `newUuid` is the generated identifier and `now` the single
        clock reading used for both timestamps. */
    static method Create(
      newUuid: string, name: Option<string>, username: Option<string>, email: Option<string>,
      passwordHash: Option<string>, initialPermissionLevel: Option<PermissionLevel>, now: int
    ) returns (r: Result<User, Error>)
      requires !IsBlank(newUuid)
      ensures r.Failure? <==> CheckCreation(name, username, email, passwordHash, initialPermissionLevel).Fail?
      ensures r.Failure? ==>
        CheckCreation(name, username, email, passwordHash, initialPermissionLevel) == Fail(r.error)
      ensures r.Success? ==>
        && fresh(r.value)
        && r.value.Valid()
        && r.value.uuid == newUuid
        && r.value.createdAt == now
        && r.value.State() == Snapshot(name.value, username, email.value, passwordHash.value,
                                       false, initialPermissionLevel.value, Some(now), None)
    {
      var check := CheckCreation(name, username, email, passwordHash, initialPermissionLevel);
      if check.Fail? {
        return Failure(check.error);
      }
      CreationChecksImplyReconstructionChecks(newUuid, name, username, email, passwordHash,
                                              initialPermissionLevel, now);
      r := Reconstruct(Some(newUuid), name, username, email, passwordHash, false,
                       initialPermissionLevel, Some(now), Some(now), None);
    }

    /** `changeName`: rejects a null or blank name; otherwise replaces the name and
        refreshes `updatedAt`. */
    method ChangeName(newName: Option<string>, now: int) returns (r: Outcome<Error>)
      modifies this
      ensures r == if Present(newName) then Pass else Fail(InvalidArgument(NameBlank))
      ensures r.Fail? ==> State() == old(State())
      ensures r.Pass? ==> State() == old(State()).(name := newName.value, updatedAt := Some(now))
      ensures old(Valid()) ==> Valid()
    {
      if !Present(newName) {
        return Fail(InvalidArgument(NameBlank));
      }
      name := newName.value;
      updatedAt := Some(now);
      return Pass;
    }

    /** `changeUsername` as written: the guard tests the CURRENT username, and the new one,
        blank or null, is stored unchecked. */
    method ChangeUsername(newUserName: Option<string>, now: int) returns (r: Outcome<Error>)
      modifies this
      ensures r == if old(Present(username)) then Pass else Fail(InvalidArgument(UsernameBlank))
      ensures r.Fail? ==> State() == old(State())
      ensures r.Pass? ==> State() == old(State()).(username := newUserName, updatedAt := Some(now))
      ensures old(Valid()) ==> Valid()
    {
      if !Present(username) {
        return Fail(InvalidArgument(UsernameBlank));
      }
      username := newUserName;
      updatedAt := Some(now);
      return Pass;
    }

    /** `changeUsername` as evidently intended: the guard tests the incoming username, so
        a stored username is never blank or null afterwards. */
    method ChangeUsernameIntended(newUserName: Option<string>, now: int) returns (r: Outcome<Error>)
      modifies this
      ensures r == if Present(newUserName) then Pass else Fail(InvalidArgument(UsernameBlank))
      ensures r.Fail? ==> State() == old(State())
      ensures r.Pass? ==> State() == old(State()).(username := newUserName, updatedAt := Some(now))
      ensures r.Pass? ==> Present(username)
      ensures old(Valid() && Present(username)) ==> Valid() && Present(username)
    {
      if !Present(newUserName) {
        return Fail(InvalidArgument(UsernameBlank));
      }
      username := newUserName;
      updatedAt := Some(now);
      return Pass;
    }

    /** `changeEmail`: rejects a null or blank address, then one outside the email pattern;
        otherwise stores it, revokes any confirmation and refreshes `updatedAt`. */
    method ChangeEmail(newEmail: Option<string>, now: int) returns (r: Outcome<Error>)
      modifies this
      ensures r == if !Present(newEmail) then Fail(InvalidArgument(EmailBlank))
                   else if !EmailPattern.Matches(newEmail.value) then Fail(InvalidArgument(EmailFormat))
                   else Pass
      ensures r.Fail? ==> State() == old(State())
      ensures r.Pass? ==>
        State() == old(State()).(email := newEmail.value, emailIsConfirmed := false, updatedAt := Some(now))
      ensures old(Valid()) ==> Valid()
    {
      if !Present(newEmail) {
        return Fail(InvalidArgument(EmailBlank));
      }
      if !EmailPattern.Matches(newEmail.value) {
        return Fail(InvalidArgument(EmailFormat));
      }
      email := newEmail.value;
      emailIsConfirmed := false;
      updatedAt := Some(now);
      return Pass;
    }

    /** `updatePassword`: rejects a null or blank hash; otherwise replaces the stored hash
        and refreshes `updatedAt`. */
    method UpdatePassword(newPassword: Option<string>, now: int) returns (r: Outcome<Error>)
      modifies this
      ensures r == if Present(newPassword) then Pass else Fail(InvalidArgument(PasswordBlank))
      ensures r.Fail? ==> State() == old(State())
      ensures r.Pass? ==> State() == old(State()).(passwordHash := newPassword.value, updatedAt := Some(now))
      ensures old(Valid()) ==> Valid()
    {
      if !Present(newPassword) {
        return Fail(InvalidArgument(PasswordBlank));
      }
      passwordHash := newPassword.value;
      updatedAt := Some(now);
      return Pass;
    }

    /** `confirmEmail`: an already confirmed address is an invalid state; otherwise the
        flag is set and `updatedAt` refreshed. */
    method ConfirmEmail(now: int) returns (r: Outcome<Error>)
      modifies this
      ensures r == if old(emailIsConfirmed) then Fail(InvalidState(EmailAlreadyConfirmed)) else Pass
      ensures r.Fail? ==> State() == old(State())
      ensures r.Pass? ==> State() == old(State()).(emailIsConfirmed := true, updatedAt := Some(now))
      ensures emailIsConfirmed
      ensures old(Valid()) ==> Valid()
    {
      if emailIsConfirmed {
        return Fail(InvalidState(EmailAlreadyConfirmed));
      }
      emailIsConfirmed := true;
      updatedAt := Some(now);
      return Pass;
    }

    /** `changePermissionLevel`: rejects null; any level may replace any other. */
    method ChangePermissionLevel(newPermissionLevel: Option<PermissionLevel>, now: int)
      returns (r: Outcome<Error>)
      modifies this
      ensures r == if newPermissionLevel.Some? then Pass else Fail(InvalidArgument(PermissionLevelNull))
      ensures r.Fail? ==> State() == old(State())
      ensures r.Pass? ==>
        State() == old(State()).(permissionLevel := newPermissionLevel.value, updatedAt := Some(now))
      ensures old(Valid()) ==> Valid()
    {
      if newPermissionLevel.None? {
        return Fail(InvalidArgument(PermissionLevelNull));
      }
      permissionLevel := newPermissionLevel.value;
      updatedAt := Some(now);
      return Pass;
    }

    /** `markAsDeleted`: a user already marked is an invalid state; otherwise `deletedAt`
        and `updatedAt` are set from two separate clock readings. */
    method MarkAsDeleted(deletedNow: int, updatedNow: int) returns (r: Outcome<Error>)
      modifies this
      ensures r == if old(deletedAt).Some? then Fail(InvalidState(AlreadyDeleted)) else Pass
      ensures r.Fail? ==> State() == old(State())
      ensures r.Pass? ==> State() == old(State()).(deletedAt := Some(deletedNow), updatedAt := Some(updatedNow))
      ensures deletedAt.Some?
      ensures old(Valid()) ==> Valid()
    {
      if deletedAt.Some? {
        return Fail(InvalidState(AlreadyDeleted));
      }
      deletedAt := Some(deletedNow);
      updatedAt := Some(updatedNow);
      return Pass;
    }

    /** `restore`: a user not marked as deleted is an invalid state; otherwise the mark is
        cleared and `updatedAt` refreshed. */
    method Restore(now: int) returns (r: Outcome<Error>)
      modifies this
      ensures r == if old(deletedAt).None? then Fail(InvalidState(NotDeleted)) else Pass
      ensures r.Fail? ==> State() == old(State())
      ensures r.Pass? ==> State() == old(State()).(deletedAt := None, updatedAt := Some(now))
      ensures deletedAt.None?
      ensures old(Valid()) ==> Valid()
    {
      if deletedAt.None? {
        return Fail(InvalidState(NotDeleted));
      }
      deletedAt := None;
      updatedAt := Some(now);
      return Pass;
    }

    /** `equals`: the same object, or another user with the same id; null is never equal. */
    function Equals(o: User?): (equal: bool)
      ensures equal <==> o != null && o.uuid == uuid
    {
      if this == o then true
      else if o == null then false
      else uuid == o.uuid
    }

    /** `hashCode`, that is `Objects.hash(uuid)`, which is `31 * 1 + uuid.hashCode()` in
        32-bit arithmetic. */
    function HashCode(): (h: int)
      ensures -0x8000_0000 <= h < 0x8000_0000
      ensures (h - (31 + StringHashCode(uuid))) % TwoToThe32 == 0
    {
      ToInt32(31 + StringHashCode(uuid))
    }
  }

  /** `equals` is reflexive. */
  lemma EqualsReflexive(a: User)
    ensures a.Equals(a)
  {
  }

  /** `equals` is symmetric. */
  lemma EqualsSymmetric(a: User, b: User)
    ensures a.Equals(b) <==> b.Equals(a)
  {
  }

  /** `equals` is transitive. */
  lemma EqualsTransitive(a: User, b: User, c: User)
    requires a.Equals(b) && b.Equals(c)
    ensures a.Equals(c)
  {
  }

  /** Equal users have equal hash codes. */
  lemma EqualUsersHaveEqualHashCodes(a: User, b: User)
    requires a.Equals(b)
    ensures a.HashCode() == b.HashCode()
  {
  }
}
