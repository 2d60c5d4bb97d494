/** The post entity of models/post.go: ordered input validation, and the
    owner check that guards the insert. */
module Posts {
  import opened Outcomes
  import Store

  /** Every requirement `Validate` checks that the fields fail, in the order
      in which it checks them. */
  function Violations(title: string, content: string, userId: Uint): seq<Error>
  {
    (if title == "" then [TitleRequired] else [])
    + (if content == "" then [ContentRequired] else [])
    + (if userId < 1 then [InvalidUserId] else [])
  }

  /** A row of the posts table. `CreatedAt`/`UpdatedAt` are not modelled. */
  class Post {
    var id: Uint
    var title: string
    var content: string
    var userId: Uint

    constructor (id: Uint, title: string, content: string, userId: Uint)
      ensures this.id == id && this.title == title && this.content == content && this.userId == userId
    {
      this.id, this.title, this.content, this.userId := id, title, content, userId;
    }

    /** `&Post{}`: every field at its zero value. */
    constructor Empty()
      ensures IsEmpty()
    {
      id, title, content, userId := 0, "", "", 0;
    }

    predicate IsEmpty()
      reads this
    {
      id == 0 && title == "" && content == "" && userId == 0
    }

    /** `(p *Post) Validate()`. Being a function, it changes no field. */
    function Validate(): (r: Outcome)
      reads this
      // first violation wins
      ensures r == FirstOf(Violations(title, content, userId))
      ensures r == Ok <==> title != "" && content != "" && userId >= 1
      ensures title == "" ==> r == Fail(TitleRequired)
      ensures title != "" && content == "" ==> r == Fail(ContentRequired)
      // the unsigned `UserID < 1` rejects exactly 0, and only after both strings pass
      ensures r == Fail(InvalidUserId) <==> title != "" && content != "" && userId == 0
    {
      if title == "" then Fail(TitleRequired)
      else if content == "" then Fail(ContentRequired)
      else if userId < 1 then Fail(InvalidUserId)
      else Ok
    }

    /** `(p *Post) SavePost(db)`: look the owner up first; if the lookup
        fails, return an empty post and the lookup's error without issuing
        the insert. Otherwise the insert is issued, and `insertResult` is
        what the database answers to it. */
    method SavePost(db: Store.Database, insertResult: Outcome) returns (r: Post, err: Outcome)
      modifies db
      ensures db.userIds == old(db.userIds)
      ensures userId !in db.userIds ==>
                err == Fail(RecordNotFound) && fresh(r) && r.IsEmpty() && db.issued == old(db.issued)
      ensures userId in db.userIds ==>
                db.issued == old(db.issued) + [Store.InsertPost(title, content, userId)]
                && err == insertResult
                && (insertResult == Ok ==> r == this)
                && (insertResult.Fail? ==> fresh(r) && r.IsEmpty())
    {
      var lookup := db.LookupUser(userId);
      if lookup.Fail? {
        r := new Post.Empty();
        err := lookup;
        return;
      }
      db.Issue(Store.InsertPost(title, content, userId));
      if insertResult.Fail? {
        r := new Post.Empty();
        err := insertResult;
        return;
      }
      r, err := this, Ok;
    }
  }
}
