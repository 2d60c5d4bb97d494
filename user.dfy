/** The user entity of models/user.go: input validation for the "update" and
    "login" actions, and the in-place replacement of the password by its hash
    before an update. */
module Users {
  import opened Outcomes
  import Casing
  import Store

  /** The two action names the switch compares against (after lower-casing). */
  const UpdateName: string := "update"
  const LoginName: string := "login"

  datatype Action = UpdateAction | LoginAction

  /** The branch of the switch an action string selects, if any. Matching is
      on the lower-cased action, so any casing of a name selects its branch. */
  function ParseAction(action: string): (r: Option<Action>)
    ensures r == Some(UpdateAction) <==> Casing.IsCasingOf(action, UpdateName)
    ensures r == Some(LoginAction) <==> Casing.IsCasingOf(action, LoginName)
    ensures r == None <==>
              !Casing.IsCasingOf(action, UpdateName) && !Casing.IsCasingOf(action, LoginName)
  {
    Casing.ToLowerIsWordIff(action, UpdateName);
    Casing.ToLowerIsWordIff(action, LoginName);
    var lowered := Casing.ToLower(action);
    if lowered == UpdateName then Some(UpdateAction)
    else if lowered == LoginName then Some(LoginAction)
    else None
  }

  /** Every requirement `Validate` checks that the fields fail, in the order
      in which `Validate` checks them; the first one is what it reports.
      The email format is a requirement only of a non-empty email, because
      the format check is never reached with an empty one. */
  function Violations(action: Option<Action>, name: string, password: string, email: string,
                      emailFormatOk: string -> bool): seq<Error>
  {
    match action
    case None => [UnsupportedAction]
    case Some(a) =>
      (if a == UpdateAction && name == "" then [NameRequired] else [])
      + (if password == "" then [PasswordRequired] else [])
      + (if email == "" then [EmailRequired] else [])
      + (if email != "" && !emailFormatOk(email) then [InvalidEmail] else [])
  }

  /** The result of `bcrypt.GenerateFromPassword`: a digest or an error. */
  datatype HashResult = Hashed(digest: string) | HashError

  /** A row of the users table. `CreatedAt`/`UpdatedAt` are not modelled. */
  class User {
    var id: Uint
    var name: string
    var email: string
    var password: string

    constructor (id: Uint, name: string, email: string, password: string)
      ensures this.id == id && this.name == name && this.email == email && this.password == password
    {
      this.id, this.name, this.email, this.password := id, name, email, password;
    }

    /** `&User{}`: every field at its zero value. */
    constructor Empty()
      ensures IsEmpty()
    {
      id, name, email, password := 0, "", "", "";
    }

    predicate IsEmpty()
      reads this
    {
      id == 0 && name == "" && email == "" && password == ""
    }

    /** `(u *User) Validate(action)`. `emailFormatOk` stands for
        `checkmail.ValidateFormat` succeeding. Being a function, it reads the
        fields and changes none of them. */
    function Validate(action: string, emailFormatOk: string -> bool): (r: Outcome)
      reads this
      // first violation wins
      ensures r == FirstOf(Violations(ParseAction(action), name, password, email, emailFormatOk))
      // acceptance, per branch
      ensures ParseAction(action) == Some(UpdateAction) ==>
                (r == Ok <==> name != "" && password != "" && email != "" && emailFormatOk(email))
      ensures ParseAction(action) == Some(LoginAction) ==>
                (r == Ok <==> password != "" && email != "" && emailFormatOk(email))
      ensures ParseAction(action) == None ==> r == Fail(UnsupportedAction)
    {
      match ParseAction(action)
      case Some(UpdateAction) =>
        if name == "" then Fail(NameRequired)
        else if password == "" then Fail(PasswordRequired)
        else if email == "" then Fail(EmailRequired)
        else if !emailFormatOk(email) then Fail(InvalidEmail)
        else Ok
      case Some(LoginAction) =>
        if password == "" then Fail(PasswordRequired)
        else if email == "" then Fail(EmailRequired)
        else if !emailFormatOk(email) then Fail(InvalidEmail)
        else Ok
      case None =>
        Fail(UnsupportedAction)
    }

    /** `(u *User) BeforeSave()`: replaces the password by its hash in place;
        on a hash error the password is left as it was. */
    method BeforeSave(hash: string -> HashResult) returns (err: Outcome)
      modifies this
      ensures id == old(id) && name == old(name) && email == old(email)
      ensures hash(old(password)).Hashed? ==> err == Ok && password == hash(old(password)).digest
      ensures hash(old(password)).HashError? ==> err == Fail(HashFailed) && password == old(password)
    {
      var h := hash(password);
      match h
      case HashError =>
        err := Fail(HashFailed);
      case Hashed(digest) =>
        password := digest;
        err := Ok;
    }

    /** `(u *User) UpdateUser(db, id)`, as far as this layer decides it:
        hash first, and on a hash error return an empty user before any
        statement reaches the database. Otherwise `First(&User{})` reads a
        row; on an empty users table it reports record-not-found and the
        chained `Updates` is not sent. With a row to read, one update
        statement is issued, and `dbResult` is what the database answers. */
    method UpdateUser(db: Store.Database, hash: string -> HashResult, dbResult: Outcome)
      returns (r: User, err: Outcome)
      modifies this, db
      ensures db.userIds == old(db.userIds)
      ensures id == old(id) && name == old(name) && email == old(email)
      ensures hash(old(password)).HashError? ==>
                err == Fail(HashFailed) && fresh(r) && r.IsEmpty()
                && password == old(password) && db.issued == old(db.issued)
      ensures hash(old(password)).Hashed? ==> password == hash(old(password)).digest
      ensures hash(old(password)).Hashed? && db.userIds == {} ==>
                err == Fail(RecordNotFound) && fresh(r) && r.IsEmpty() && db.issued == old(db.issued)
      ensures hash(old(password)).Hashed? && db.userIds != {} ==>
                db.issued == old(db.issued) + [Store.UpdateUsers(name, password, email)]
                && err == dbResult
                && (dbResult == Ok ==> r == this)
                && (dbResult.Fail? ==> fresh(r) && r.IsEmpty())
    {
      err := BeforeSave(hash);
      if err.Fail? {
        r := new User.Empty();
        return;
      }
      if db.userIds == {} {
        r := new User.Empty();
        err := Fail(RecordNotFound);
        return;
      }
      db.Issue(Store.UpdateUsers(name, password, email));
      if dbResult.Fail? {
        r := new User.Empty();
        err := dbResult;
        return;
      }
      r, err := this, Ok;
    }
  }

  /** Under "login" the name is never consulted. */
  lemma LoginIgnoresName(u: User, v: User, action: string, emailFormatOk: string -> bool)
    requires ParseAction(action) == Some(LoginAction)
    requires u.password == v.password && u.email == v.email
    ensures u.Validate(action, emailFormatOk) == v.Validate(action, emailFormatOk)
  {
  }

  /** Under "update", the first failing check is reported: an empty name
      before anything else, then an empty password before any email check,
      then an empty email before the format check. */
  lemma UpdateReportsFirstViolation(u: User, action: string, emailFormatOk: string -> bool)
    requires ParseAction(action) == Some(UpdateAction)
    ensures u.name == "" ==> u.Validate(action, emailFormatOk) == Fail(NameRequired)
    ensures u.name != "" && u.password == "" ==> u.Validate(action, emailFormatOk) == Fail(PasswordRequired)
    ensures u.name != "" && u.password != "" && u.email == "" ==>
              u.Validate(action, emailFormatOk) == Fail(EmailRequired)
    ensures u.name != "" && u.password != "" && u.email != "" && !emailFormatOk(u.email) ==>
              u.Validate(action, emailFormatOk) == Fail(InvalidEmail)
  {
  }

  /** Under "login", an empty password is reported before the email is
      examined, and an empty email before the format check. */
  lemma LoginReportsFirstViolation(u: User, action: string, emailFormatOk: string -> bool)
    requires ParseAction(action) == Some(LoginAction)
    ensures u.password == "" ==> u.Validate(action, emailFormatOk) == Fail(PasswordRequired)
    ensures u.password != "" && u.email == "" ==> u.Validate(action, emailFormatOk) == Fail(EmailRequired)
    ensures u.password != "" && u.email != "" && !emailFormatOk(u.email) ==>
              u.Validate(action, emailFormatOk) == Fail(InvalidEmail)
  {
  }

  /** The result depends on the action only through its lower-cased form:
      "UPDATE", "Update" and "update" validate alike, and so does the
      action lower-cased beforehand. */
  lemma ValidateIgnoresCase(u: User, a: string, b: string, emailFormatOk: string -> bool)
    ensures Casing.ToLower(a) == Casing.ToLower(b) ==>
              u.Validate(a, emailFormatOk) == u.Validate(b, emailFormatOk)
    ensures u.Validate(Casing.ToLower(a), emailFormatOk) == u.Validate(a, emailFormatOk)
  {
    Casing.ToLowerIdempotent(a);
  }

  /** An action that is a casing of neither name is rejected whatever the
      fields hold. */
  lemma UnknownActionRejected(u: User, action: string, emailFormatOk: string -> bool)
    requires !Casing.IsCasingOf(action, UpdateName) && !Casing.IsCasingOf(action, LoginName)
    ensures u.Validate(action, emailFormatOk) == Fail(UnsupportedAction)
  {
  }
}
