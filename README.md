# Users and posts: validation, password replacement and the owner check

A Dafny model of the application logic in the `models` package of a small Go
blogging back end. The package has two entities, `User` and `Post`. Almost
every operation on them hands its work straight to the GORM object-relational
mapper. The logic that belongs to the package itself is small:

- `User.Validate(action)` lower-cases the action and switches on it.
  - `"update"` requires a name, a password and an email, and the email must
    have a valid format.
  - `"login"` requires a password and an email with a valid format. It never
    looks at the name.
  - Any other action is rejected.
  - Each branch reports the first requirement that fails.
- `User.BeforeSave` replaces the password, in place, by its bcrypt hash.
  `UpdateUser` calls it first and returns an empty user, without touching
  the database, when the hash fails.
- `Post.Validate` checks the title, then the content, then the owner ID, and
  reports the first check that fails.
- `Post.SavePost` looks the owning user up first. When the lookup fails it
  returns an empty post and does not issue the insert.

Files and modules:

- `outcomes.dfy` (`Outcomes`): error kinds, the `Outcome` of a Go `error`
  result, and `Uint` for Go's 64-bit `uint`.
- `casing.dfy` (`Casing`): Go's `strings.ToLower`, as far as the action
  switch needs it.
- `store.dfy` (`Store`): the database handle. It holds the set of existing
  user IDs and the log of write statements sent to the database.
- `user.dfy` (`Users`): the `User` class.
- `post.dfy` (`Posts`): the `Post` class.

External pieces are parameters of the model:

- `checkmail.ValidateFormat` is the predicate `emailFormatOk: string -> bool`.
- `bcrypt.GenerateFromPassword` is `hash: string -> HashResult`, which may
  fail.
- The database's answer to a write statement is an `Outcome` parameter.
- The owner lookup succeeds exactly when the ID is in `Database.userIds`.

`Validate` is a function in both classes, as it is in the source: it reads the
fields and assigns none of them, so Dafny's frame rules guarantee that it
changes nothing. `BeforeSave`, `UpdateUser` and `SavePost` are methods with
`modifies` clauses. Each postcondition states the whole new state: the
receiver's fields, the statements issued and what is returned. "Returns an
empty user/post" means a freshly allocated object whose fields are all zero
values (`&User{}`, `&Post{}`).

Lower-casing follows Go's per-rune simple case mapping. The only runes whose
lower-case form is an ASCII letter are `A`-`Z`, U+0130 (`İ`, which becomes
`i`) and U+212A (the Kelvin sign, which becomes `k`). So `"LOGİN"` selects the
login branch, just as `"Login"` does. `ParseAction` proves that a branch is
selected exactly when the action spells its name in some casing.

Three facts about the code that a reader might not expect:

- `SaveUser` (models/user.go:79-85) never calls `BeforeSave`, and
  `BeforeSave() error` takes no `*gorm.DB`, so GORM v2 does not run it as a
  hook. Only `UpdateUser` calls it, explicitly.
- The update at models/user.go:113 carries no `id` condition: `First(&User{})`
  reads some row into a throwaway value, and `Updates` runs on
  `Model(&User{})`. The model records the statement as `UpdateUsers`, with no
  ID.
- A missing post owner comes back as the lookup's own error, unchanged. The
  model calls it `RecordNotFound`.

## Model

| member | source | states |
|---|---|---|
| Casing.LowerRune | models/user.go:39 | a capital ASCII letter lower-cases to the letter 32 code points above it, U+0130 to `i`, U+212A to `k`; any other rune is left as it is |
| Casing.ToLower | models/user.go:39 | lower-casing keeps the length and maps every rune through `LowerRune` |
| Casing.ToLowerIsWordIff | models/user.go:39-40 | a string lower-cases to a lower-case ASCII word exactly when it spells that word in some casing (both directions) |
| Casing.ToLowerIdempotent | models/user.go:39 | lower-casing an already lower-cased string changes nothing |
| Users.ParseAction | models/user.go:39-66 | the update branch is selected exactly when the action is a casing of "update", the login branch exactly for a casing of "login", and the default branch exactly when it is neither |
| Users.User.Validate | models/user.go:38-68 | the result is the first unmet requirement among `Violations` (unsupported action; name, password, email, email format for update; no name for login), or nil when none fails. Under update it is nil iff name, password and email are non-empty and the format is accepted. Under login it is nil iff password and email are non-empty and the format is accepted. Any other action gives the unsupported-action error |
| Users.UpdateReportsFirstViolation | models/user.go:40-53 | under update, an empty name is reported whatever the other fields hold. Otherwise an empty password comes before any email check, and an empty email before the format check |
| Users.LoginReportsFirstViolation | models/user.go:54-64 | under login, an empty password is reported before the email is looked at, and an empty email before the format check |
| Users.LoginIgnoresName | models/user.go:54-64 | under login, two users with the same password and email validate alike, whatever their names |
| Users.ValidateIgnoresCase | models/user.go:39 | two actions with the same lower-cased form validate alike, and lower-casing the action first changes nothing |
| Users.UnknownActionRejected | models/user.go:65-66 | an action that is a casing of neither name gives the unsupported-action error, whatever the fields hold |
| Users.User.BeforeSave | models/user.go:70-77 | when the hash succeeds, the password becomes the hash of the old password and nil is returned. When it fails, the hash error is returned and the password is kept. ID, name and email never change |
| Users.User.UpdateUser | models/user.go:107-123 | when the hash fails: the hash error, a fresh empty user, the password unchanged and no statement issued. Otherwise the password is the hash of the old one. On an empty users table `First` fails: record-not-found, a fresh empty user, no statement issued. With a user row, one update carrying the name, hashed password and email (and no ID) is issued. The database's error then gives an empty user, and success returns the receiver itself |
| Posts.Post.Validate | models/post.go:20-31 | the result is the first of title-required, content-required, invalid-user-ID that applies, or nil. It is nil iff title and content are non-empty and the owner ID is at least 1. An empty title gives the title error whatever else holds. A non-empty title with empty content gives the content error. The unsigned `UserID < 1` check fails exactly for ID 0, and is reported only when both strings are non-empty |
| Posts.Post.SavePost | models/post.go:33-45 | an owner ID that is not among the existing users gives the lookup's record-not-found error and a fresh empty post, and no statement is issued. An existing owner makes it issue exactly one insert of the post's fields. Then the insert's error gives an empty post, and success returns the receiver itself. The set of users never changes |

## Left out

- `Hash` and `CheckPassword` (models/user.go:30-36): bcrypt is foreign
  cryptography. Hashing is an uninterpreted parameter. Nothing is claimed
  about salting, the digest's form or timing, so nothing is stated about
  whether an update changes the stored hash.
- `checkmail.ValidateFormat` (models/user.go:50, 61): a foreign email
  grammar, modelled as an uninterpreted predicate.
- `SaveUser`, `FindAllUsers`, `FindUserById`, `DeleteUser`, `FindAllPosts`,
  `FindPostByID`, `UpdatePost`, `DeletePost`: thin GORM calls whose behaviour
  belongs to the ORM and the database. This includes the unique and not-null
  constraints that appear only in struct tags.
- Users.User.UpdateUser: only the hash prefix and the issued update statement
  are modelled. The database's answers to the update and to the re-read by ID
  (models/user.go:121-129) are one `Outcome` parameter. The re-read's
  overwrite of the receiver's fields is not modelled, so on success the
  receiver keeps the fields it had after hashing. The `id` argument is used
  only by that re-read, so the model has no `id` parameter. Which rows the
  issued update reaches, or whether the ORM refuses an update with no `WHERE`
  condition, is decided by the ORM and is not modelled.
- Posts.Post.SavePost: the owner lookup is membership in `Database.userIds`. A
  lookup error other than record-not-found, such as a broken connection, is
  not modelled. The ORM's write-back of the generated ID and timestamps into
  the receiver after the insert is not modelled either.
- `CreatedAt`, `UpdatedAt`, `time.Now()` (models/user.go:118), and JSON/GORM
  tags: time and serialisation plumbing.
- Error message text: only the error kind is kept.
- Strings are sequences of Unicode scalar values. A Go string holding invalid
  UTF-8 is not modelled. `ToLower` turns such bytes into U+FFFD, which can
  never lower-case to an action name either.
- Casing.LowerRune: non-ASCII runes other than U+0130 and U+212A are kept
  unchanged, while Go maps some of them (`Ä` to `ä`, say) to other non-ASCII
  runes. This never changes whether a string lower-cases to "update" or
  "login".
