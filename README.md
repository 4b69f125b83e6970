# User entity of the CMS API, modelled in Dafny

This project models the `User` domain entity of the CMS API backend
(`src/main/java/br/com/thiagoodev/cmsapi/domain/models/User.java`). A user is a registered
account. It has an immutable id and creation time, a name, a username, an email address
with a confirmation flag, a password hash, a permission level, an update time and an
optional soft-deletion time. The entity checks its arguments when it is built and before
every change. A failing check raises `IllegalArgumentException` or
`IllegalStateException`.

How the model maps the Java code:

- `wrappers.dfy` (`Wrappers`): `Option` stands for a nullable Java reference. `Result` and
  `Outcome` stand for a call that either returns or throws.
- `java_text.dfy` (`JavaText`): the string primitives the entity relies on.
  `String.isBlank` is defined over the exact `Character.isWhitespace` set.
  `String.hashCode` is computed over UTF-16 code units with 32-bit wrap-around.
- `email_pattern.dfy` (`EmailPattern`): the `EMAIL_PATTERN` regular expression used as a
  full match. `InEmailLanguage` is the expression's language, read literally.
  `MatchesBySplit` decides it by splitting at the first `@` and at the last `.`. A lemma
  proves the two agree on every string, and `Matches` carries that as its contract.
- `user.dfy` (`Users`): the ordered argument checks of the constructor and of `create`,
  written as pure functions. The `User` class has the entity's fields; `uuid` and
  `createdAt` are `const`, as they are `final` in Java. Each mutator is a method with
  `modifies this`. It returns `Fail(InvalidArgument(msg))` or `Fail(InvalidState(msg))`
  with the source's message, or `Pass`. Equality and hash code are functions.
- `user_scenarios.dfy` (`UserScenarios`): sequences of calls and the facts a caller can
  derive from the contracts alone.

Error values: `InvalidArgument` is `IllegalArgumentException` and `InvalidState` is
`IllegalStateException`. Each carries the exact message string of the source.

Time and identity: `Instant` is an `int`. Every `Instant.now()` call becomes a parameter.
`markAsDeleted` reads the clock twice, so it takes two timestamps. `UUID.randomUUID()`
becomes the `newUuid` parameter of `Create`. `Create` requires that parameter to be
non-blank, because a generated UUID string always is.

Three facts about the code that a reader might not expect:

- The code never enforces `updatedAt >= createdAt`. The reconstruction constructor does not
  check `updatedAt` at all, and every mutator stores whatever time it is given.
- The code does not keep the username non-blank. `changeUsername` checks the current
  username rather than the new one (see Findings). The invariant `User.Valid()` therefore
  covers the id, name, email and password hash, but not the username.
- `markAsDeleted` does not use one "now" for both timestamps. It reads the clock twice.

## Model

| member | source | states |
|---|---|---|
| `JavaText.IsBlank` | src/main/java/br/com/thiagoodev/cmsapi/domain/models/User.java:36-41 | a string is blank exactly when every character is Java white space, so the empty string is blank |
| `EmailPattern.Matches` | src/main/java/br/com/thiagoodev/cmsapi/domain/models/User.java:9-11 | `EMAIL_PATTERN.matcher(s).matches()` as used at lines 40, 67 and 113: true exactly when the whole string splits as local part `[a-zA-Z0-9._%+-]+`, "@", domain `[a-zA-Z0-9.-]+`, "." and 2 to 6 ASCII letters ending the string; decided by splitting at the first '@' and the last '.' after it (see `MatchesBySplitIsLanguage`) |
| `EmailPattern.MatchesBySplitIsLanguage` | src/main/java/br/com/thiagoodev/cmsapi/domain/models/User.java:9-11 | the first-'@'/last-'.' split accepts exactly the strings in the regular expression's language, in both directions |
| `EmailPattern.MatchIsInLanguage` | src/main/java/br/com/thiagoodev/cmsapi/domain/models/User.java:9-11 | every string the split accepts is in the regular expression's language |
| `EmailPattern.LanguageSplitIsFound` | src/main/java/br/com/thiagoodev/cmsapi/domain/models/User.java:9-11 | any split the expression allows makes the split accept: the '@' is the first one and the '.' the last one |
| `EmailPattern.MatchedAddressHasOneAt` | src/main/java/br/com/thiagoodev/cmsapi/domain/models/User.java:10 | a matching address contains exactly one '@' |
| `EmailPattern.MatchedAddressIsNotBlank` | src/main/java/br/com/thiagoodev/cmsapi/domain/models/User.java:39-40 | a matching address is never blank, so the blank check before the format check only decides which message is reported |
| `Users.CheckReconstruction` | src/main/java/br/com/thiagoodev/cmsapi/domain/models/User.java:36-43 | validation passes exactly when every required argument is non-null, the strings are non-blank and the email matches; otherwise it fails with `InvalidArgument` and the message of the first violated rule in the order uuid, name, username, email, email format, password hash, permission level, createdAt |
| `Users.CheckCreation` | src/main/java/br/com/thiagoodev/cmsapi/domain/models/User.java:64-69 | validation passes exactly when all five arguments are non-null, non-blank and the email matches; otherwise it fails with `InvalidArgument` and the first violated rule in the order name, username, email, email format, password, permission level |
| `Users.CreationChecksImplyReconstructionChecks` | src/main/java/br/com/thiagoodev/cmsapi/domain/models/User.java:64-85 | with a non-blank new id, the factory's checks pass exactly when the constructor's checks pass on the arguments the factory hands it, so that inner constructor call never throws |
| `Users.User.constructor` | src/main/java/br/com/thiagoodev/cmsapi/domain/models/User.java:45-54 | once the checks have passed, every field equals its argument, including the unchecked confirmation flag, `updatedAt` and `deletedAt`, and the object invariant holds |
| `Users.User.Reconstruct` | src/main/java/br/com/thiagoodev/cmsapi/domain/models/User.java:24-55 | fails exactly when `CheckReconstruction` fails and with its error, creating no object; on success it yields a fresh valid user whose every field equals its argument |
| `Users.User.Create` | src/main/java/br/com/thiagoodev/cmsapi/domain/models/User.java:57-86 | fails exactly when `CheckCreation` fails and with its error, creating no object; on success the user is fresh and valid, has the given id, name, username, email, hash and permission, is unconfirmed and not deleted, and has `createdAt == now` and `updatedAt == Some(now)` |
| `Users.User.ChangeName` | src/main/java/br/com/thiagoodev/cmsapi/domain/models/User.java:99-103 | a null or blank name is rejected with no change; otherwise only the name and `updatedAt` change; the invariant is preserved |
| `Users.User.ChangeUsername` | src/main/java/br/com/thiagoodev/cmsapi/domain/models/User.java:105-109 | fails only when the current username is null or blank, leaving everything unchanged; otherwise the new username is stored as given (even blank or null) and `updatedAt` refreshed |
| `Users.User.ChangeUsernameIntended` | src/main/java/br/com/thiagoodev/cmsapi/domain/models/User.java:105-109 | corrected guard on the incoming username: a blank or null username is rejected, and a valid user with a valid username keeps both after every call |
| `Users.User.ChangeEmail` | src/main/java/br/com/thiagoodev/cmsapi/domain/models/User.java:111-117 | a null or blank address, then one outside the pattern, is rejected with no change; otherwise the email is stored, the confirmation flag becomes false whatever it was, `updatedAt` is refreshed and nothing else changes |
| `Users.User.UpdatePassword` | src/main/java/br/com/thiagoodev/cmsapi/domain/models/User.java:119-123 | a null or blank hash is rejected with no change; otherwise only the hash and `updatedAt` change |
| `Users.User.ConfirmEmail` | src/main/java/br/com/thiagoodev/cmsapi/domain/models/User.java:125-129 | an already confirmed user fails with `InvalidState` and no change; otherwise the flag becomes true and `updatedAt` is refreshed; afterwards the flag is always true |
| `Users.User.ChangePermissionLevel` | src/main/java/br/com/thiagoodev/cmsapi/domain/models/User.java:131-135 | a null level is rejected with no change; otherwise any level replaces any other and `updatedAt` is refreshed |
| `Users.User.MarkAsDeleted` | src/main/java/br/com/thiagoodev/cmsapi/domain/models/User.java:137-141 | a user already marked fails with `InvalidState` and no change; otherwise `deletedAt` and `updatedAt` take the two clock readings and nothing else changes |
| `Users.User.Restore` | src/main/java/br/com/thiagoodev/cmsapi/domain/models/User.java:143-147 | a user not marked fails with `InvalidState` and no change; otherwise `deletedAt` becomes absent and `updatedAt` is refreshed |
| `Users.User.Equals` | src/main/java/br/com/thiagoodev/cmsapi/domain/models/User.java:149-155 | a user equals another exactly when the other is not null and has the same uuid, whatever the other fields |
| `Users.User.HashCode` | src/main/java/br/com/thiagoodev/cmsapi/domain/models/User.java:157-160 | the hash is a 32-bit `int` congruent to `31 + uuid.hashCode()` modulo 2^32, so it depends on the uuid alone |
| `Users.EqualsReflexive` | src/main/java/br/com/thiagoodev/cmsapi/domain/models/User.java:149-155 | every user equals itself |
| `Users.EqualsSymmetric` | src/main/java/br/com/thiagoodev/cmsapi/domain/models/User.java:149-155 | `a.equals(b)` exactly when `b.equals(a)` |
| `Users.EqualsTransitive` | src/main/java/br/com/thiagoodev/cmsapi/domain/models/User.java:149-155 | equality is transitive |
| `Users.EqualUsersHaveEqualHashCodes` | src/main/java/br/com/thiagoodev/cmsapi/domain/models/User.java:149-160 | equal users have equal hash codes |
| `UserScenarios.ConfirmEmailTwice` | src/main/java/br/com/thiagoodev/cmsapi/domain/models/User.java:125-129 | on an unconfirmed user the first confirmation succeeds and the second fails with `InvalidState`; the flag stays true and only the first call's time is stored |
| `UserScenarios.ChangeEmailThenConfirm` | src/main/java/br/com/thiagoodev/cmsapi/domain/models/User.java:111-129 | after a change of address the new address can be confirmed again, whatever the earlier confirmation state |
| `UserScenarios.DeleteThenRestore` | src/main/java/br/com/thiagoodev/cmsapi/domain/models/User.java:137-147 | on an active user, marking and then restoring both succeed and return `deletedAt` to absent, changing nothing but `updatedAt`; a second restore fails with `InvalidState` |
| `UserScenarios.BlankUsernameLocksUsername` | src/main/java/br/com/thiagoodev/cmsapi/domain/models/User.java:105-109 | on a user with a valid username, `changeUsername("")` succeeds and stores the blank username, and a following `changeUsername("x")` fails with `InvalidArgument` |
| `UserScenarios.BlankUsernameRejectedWhenIntended` | src/main/java/br/com/thiagoodev/cmsapi/domain/models/User.java:105-109 | with the corrected guard, `changeUsername("")` is rejected and nothing changes |
| `UserScenarios.ExampleAddressMatches` | src/main/java/br/com/thiagoodev/cmsapi/domain/models/User.java:9-11 | `ana@example.com` matches the email pattern |
| `UserScenarios.ExampleAddressDoesNotMatch` | src/main/java/br/com/thiagoodev/cmsapi/domain/models/User.java:9-11 | `not-an-email` does not match the email pattern |
| `UserScenarios.CreateValidExample` | src/test/java/br/com/thiagoodev/cmsapi/domain/models/UserTests.java:37-57 | creating a user from valid data succeeds, keeps the permission level and email, leaves the address unconfirmed and sets `updatedAt` equal to `createdAt` |
| `UserScenarios.CreateInvalidExample` | src/main/java/br/com/thiagoodev/cmsapi/domain/models/User.java:64-67 | creating a user with a malformed address fails with the email-format `InvalidArgument` |
| `UserScenarios.Reload` | src/main/java/br/com/thiagoodev/cmsapi/domain/models/User.java:24-55 | passing the getter values of a valid user with a present username back to the constructor succeeds and yields an equal user with the same field values; the username condition is needed, since a user whose username `changeUsername` blanked is still valid, yet its reconstruction fails with the username message of line 38, as the contract of `Users.CheckReconstruction` states |

## Left out

- Getters (User.java:88-97): each getter returns a field unchanged. In Dafny the fields are
  read directly, and `User.State()` reads the mutable ones together.
- `toString` (User.java:162-175): it only formats a string and has no logic.
- `UUID.randomUUID()`: a random source. The id is a parameter, and the model does not
  state that generated ids are unique.
- `Instant.now()`: an ambient clock. Every reading is a parameter, and nothing is assumed
  about the order of the readings.
- The Java regular-expression engine: it is replaced by `EmailPattern.Matches`, whose
  contract is the expression's language.
- Strings holding an unpaired UTF-16 surrogate: Java allows them, but a Dafny string is a
  sequence of Unicode scalar values and cannot hold one. No check depends on them, since
  a lone surrogate is neither white space nor in any email character class. `String.hashCode`
  is modelled over the UTF-16 encoding of scalar values only.
- `Users.User.Equals`: Java's `equals(Object)` also accepts objects of other classes and
  compares `getClass()`. The model accepts only `User` or null, and has no subclasses.
  An object of another class is always unequal in Java.
- The declaration of the `PermissionLevel` enumeration is not among the modelled files.
  The model's `PermissionLevel` has `Viewer` and an open `OtherLevel(constant)` for the
  rest, so it admits more levels than Java's closed enum. That is harmless, because every
  contract holds for all levels.
- Password hashing (BCrypt) and test-data generation (Faker) in the test file belong to
  third-party libraries. The entity only stores an opaque hash string.
- Concurrency: the class is not synchronised and has no concurrent behaviour.

## Findings

| source | as written | input that shows it | evidently intended | confidence | as-written member | corrected member |
|---|---|---|---|---|---|---|
| src/main/java/br/com/thiagoodev/cmsapi/domain/models/User.java:106 | `changeUsername` tests the current `username` for null or blank, then stores `newUserName` unchecked | a valid user; `changeUsername("")` succeeds and stores a blank username; then `changeUsername("x")` throws "Username cannot be null or blank." | test `newUserName`, as `changeName` does at line 100, so that the username is never blank or null | high (not executed) | `UserScenarios.BlankUsernameLocksUsername` | `Users.User.ChangeUsernameIntended` |

`Users.User.ChangeUsername` is the source's behaviour and stays the model of the entity.
`Users.User.ChangeUsernameIntended` sits beside it. It proves the username invariant that
the as-written method cannot keep.
