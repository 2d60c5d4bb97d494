/** The database handle both models talk to, reduced to what the modelled
    operations observe: which user IDs exist, and the write statements the
    models have sent. The ORM's own behaviour (constraints, ID assignment,
    timestamps) is not part of this model. */
module Store {
  import opened Outcomes

  /** A write statement sent to the database. */
  datatype Statement =
      /** `INSERT` of a post row (models/post.go:40). */
    | InsertPost(title: string, content: string, userId: Uint)
      /** `Updates` of the users table with a name, password and email
          (models/user.go:113-120). It carries no ID condition; which rows
          it reaches is decided by the ORM. */
    | UpdateUsers(name: string, password: string, email: string)

  class Database {
    /** IDs of the rows in the users table. */
    var userIds: set<Uint>
    /** Write statements issued so far, oldest first. */
    var issued: seq<Statement>

    constructor (userIds: set<Uint>)
      ensures this.userIds == userIds && issued == []
    {
      this.userIds := userIds;
      issued := [];
    }

    /** `Where("id = ?", id).First(&User{})`: succeeds exactly when a user
        row with that ID exists, and reports record-not-found otherwise. */
    function LookupUser(id: Uint): (r: Outcome)
      reads this
    {
      if id in userIds then Ok else Fail(RecordNotFound)
    }

    /** Sends one write statement; its answer is decided by the database and
        is a parameter of the callers. */
    method Issue(s: Statement)
      modifies this`issued
      ensures issued == old(issued) + [s]
    {
      issued := issued + [s];
    }
  }
}
