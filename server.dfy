/**
 * The author and blog-post route handlers, as operations of one in-memory
 * store holding the two collections.
 *
 * Each handler is a method of `Store`; it returns the response the client
 * receives (the first one sent) and updates the collections the way the
 * handler's storage calls do. Every storage call of a request may reject;
 * the `fault` argument says which one does, counting the request's calls
 * from 0 in the order the handler issues them.
 *
 * The handlers are modelled as written. Where the code visibly departs from
 * its intent, a second method named `...Intended` models the evident intent.
 */
module Server {
  import opened Wrappers
  import opened Models
  import opened Requests

  /** Which storage call of a request rejects, if any. */
  datatype Fault = NoFault | FailAt(call: nat)

  predicate Fails(fault: Fault, call: nat) {
    fault == FailAt(call)
  }

  /** The author projection `{id, name, userName}` the author routes reply with. */
  datatype AuthorView = AuthorView(id: Id, name: string, userName: string)

  /**
   * A reply: `Text` is `res.status(s).send(text)`, `ErrorJson` is
   * `res.status(s).json({key: text})`; `NoReply` means no reply is ever sent.
   */
  datatype Response =
    | Text(status: int, text: string)
    | ErrorJson(status: int, key: string, text: string)
    | AuthorJson(status: int, author: AuthorView)
    | AuthorList(status: int, authors: map<Id, AuthorView>)
    | PostJson(status: int, post: PostView)
    | PostList(status: int, posts: map<Id, PostView>)
    | CreatedPost(status: int, id: Id, authorName: string, content: string, title: string, comments: seq<Comment>)
    | PostPatch(status: int, title: string, content: string)
    | NoContent(status: int)
    | NoReply

  const AuthorRequired: seq<string> := ["firstName", "lastName", "userName"]
  const AuthorUpdateable: seq<string> := ["firstName", "lastName", "userName"]
  const PostRequired: seq<string> := ["title", "content", "author_id"]
  const PostUpdateable: seq<string> := ["title", "content"]

  function MissingMessage(field: string): string {
    "Missing `" + field + "` in request body"
  }

  const UsernameTaken := "Username already taken"
  const AuthorNotFound := "Author not found"
  const IdMismatch := "Request path id and request body id values must match"
  const TerriblyWrong := "Something went terribly wrong"
  const VeryWrong := "Something went very wrong"
  const VeryWrongLower := "something went very wrong"
  const SomethingWrong := "Something went wrong"
  const InternalError := "Internal server error"

  /** `{id, name: `${firstName} ${lastName}`, userName}`: the name is not trimmed here. */
  function ViewOf(id: Id, a: Author): AuthorView {
    AuthorView(id, a.firstName + " " + a.lastName, a.userName)
  }

  /** Once a reply has been sent, any later reply fails and the client sees the first. */
  function First(sent: Option<Response>, later: Response): Response {
    if sent.Some? then sent.value else later
  }

  /**
   * `Author.findOne({userName})` finds a record. An undefined user name is
   * taken to match no author: every stored author has a string user name.
   */
  predicate UserNameTaken(authors: map<Id, Author>, userName: Option<string>) {
    userName.Some? && exists id :: id in authors && authors[id].userName == userName.value
  }

  /** The same lookup restricted to authors other than `self`. */
  predicate UserNameTakenByOther(authors: map<Id, Author>, userName: Option<string>, self: Id) {
    userName.Some? && exists id :: id in authors && id != self && authors[id].userName == userName.value
  }

  /** `$set: updated` on an author record. */
  function ApplyAuthorUpdate(a: Author, updated: map<string, string>): Author {
    Author(
      if "firstName" in updated then updated["firstName"] else a.firstName,
      if "lastName" in updated then updated["lastName"] else a.lastName,
      if "userName" in updated then updated["userName"] else a.userName)
  }

  /** `$set: updated` on a post record, for an update built from `title` and `content` only. */
  function ApplyPostUpdate(p: BlogPost, updated: map<string, string>): (q: BlogPost)
    ensures q.author == p.author && q.comments == p.comments
  {
    p.(title := if "title" in updated then updated["title"] else p.title,
       content := if "content" in updated then updated["content"] else p.content)
  }

  /** The ids of the posts whose `author` is `authorId`. */
  function PostsBy(posts: map<Id, BlogPost>, authorId: Id): set<Id> {
    set p | p in posts && posts[p].author == Ref(authorId)
  }

  /**
   * `BlogPost.remove({author: authorId})`: exactly the posts referencing the
   * author are gone, every other post is kept as it was.
   */
  function Cascade(posts: map<Id, BlogPost>, authorId: Id): (rest: map<Id, BlogPost>)
    ensures forall p :: p in rest <==> p in posts && posts[p].author != Ref(authorId)
    ensures forall p :: p in rest ==> rest[p] == posts[p]
    ensures |rest| == |posts| - |PostsBy(posts, authorId)|
  {
    var gone := PostsBy(posts, authorId);
    assert posts.Keys - gone == (posts - gone).Keys;
    assert |posts.Keys - gone| == |posts.Keys| - |gone| by {
      assert gone <= posts.Keys;
      assert posts.Keys == (posts.Keys - gone) + gone;
    }
    posts - gone
  }

  function RefOf(id: Option<Id>): AuthorRef {
    if id.Some? then Ref(id.value) else Unset
  }

  /** `populate('author')`: a dangling or unset reference becomes null. */
  function Populate(ref: AuthorRef, authors: map<Id, Author>): AuthorField {
    match ref
    case Unset => Missing
    case Ref(a) => if a in authors then Populated(authors[a]) else Missing
  }

  /** The `author` path of a post loaded without `populate`. */
  function Unpopulated(ref: AuthorRef): AuthorField {
    match ref
    case Unset => Missing
    case Ref(a) => Raw(a)
  }

  function DocOf(id: Id, post: BlogPost, field: AuthorField): PostDoc {
    PostDoc(id, post.title, post.content, field, post.comments)
  }

  function PopulatedDoc(id: Id, post: BlogPost, authors: map<Id, Author>): PostDoc {
    DocOf(id, post, Populate(post.author, authors))
  }

  /** Every post refers to an author that exists. */
  ghost predicate RefsResolve(authors: map<Id, Author>, posts: map<Id, BlogPost>) {
    forall p :: p in posts ==> posts[p].author.Ref? && posts[p].author.id in authors
  }

  /** Storing a post that references an existing author keeps every reference resolving. */
  lemma StoreResolvedPost(authors: map<Id, Author>, posts: map<Id, BlogPost>, id: Id, post: BlogPost)
    requires RefsResolve(authors, posts)
    requires post.author.Ref? && post.author.id in authors
    ensures RefsResolve(authors, posts[id := post])
  {
  }

  /**
   * With every reference resolving, each populated post serializes, and its
   * `author` is the trimmed display name of the author it refers to.
   */
  lemma ResolvedPostsSerialize(authors: map<Id, Author>, posts: map<Id, BlogPost>, p: Id)
    requires RefsResolve(authors, posts) && p in posts
    ensures Serialize(PopulatedDoc(p, posts[p], authors)).Value?
    ensures var a := authors[posts[p].author.id];
      Serialize(PopulatedDoc(p, posts[p], authors)).value.author == Trim(a.firstName + " " + a.lastName)
  {
  }

  /** The same posts, each still with its author reference and its comments. */
  ghost predicate SameOwners(before: map<Id, BlogPost>, after: map<Id, BlogPost>) {
    && before.Keys == after.Keys
    && forall p :: p in after ==> after[p].author == before[p].author && after[p].comments == before[p].comments
  }

  /**
   * Rewriting the title or content of a stored post keeps the set of posts,
   * their owners and comments, and so their references.
   */
  lemma UpdatePostKeepsOwners(authors: map<Id, Author>, posts: map<Id, BlogPost>, id: Id, p: BlogPost)
    requires id in posts && p.author == posts[id].author && p.comments == posts[id].comments
    ensures posts[id := p].Keys == posts.Keys
    ensures SameOwners(posts, posts[id := p])
    ensures RefsResolve(authors, posts) ==> RefsResolve(authors, posts[id := p])
  {
    assert posts[id := p].Keys == posts.Keys;
  }

  /**
   * Applying an update to author `id` keeps user names unique when no OTHER
   * author holds the user name the update carries.
   */
  lemma UpdateKeepsUnique(authors: map<Id, Author>, id: Id, body: Body)
    requires UniqueUserNames(authors) && id in authors
    requires !UserNameTakenByOther(authors, Lookup(body, "userName"), id)
    ensures var a := ApplyAuthorUpdate(authors[id], Pick(body, AuthorUpdateable));
      UniqueUserNames(authors[id := a]) && authors[id := a].Keys == authors.Keys
  {
    var a := ApplyAuthorUpdate(authors[id], Pick(body, AuthorUpdateable));
    assert "userName" in Pick(body, AuthorUpdateable) <==> "userName" in body;
    forall other | other in authors && other != id
      ensures authors[other].userName != a.userName
    {
    }
    WriteKeepsUnique(authors, id, a);
    assert authors[id := a].Keys == authors.Keys;
  }

  /** Every stored id is at most `n` characters long. */
  ghost predicate IdsBelow(keys: set<Id>, n: nat) {
    forall k :: k in keys ==> |k| <= n
  }

  /**
   * Storing a new author under a fresh id of length `serial + 1`, whose user
   * name nobody holds, keeps the store's invariants for `serial + 1`.
   */
  lemma AddAuthorKeeps(authors: map<Id, Author>, posts: map<Id, BlogPost>, serial: nat, id: Id, a: Author)
    requires UniqueUserNames(authors) && IdsBelow(authors.Keys, serial) && IdsBelow(posts.Keys, serial)
    requires |id| == serial + 1 && !UserNameTaken(authors, Some(a.userName))
    ensures id !in authors
    ensures UniqueUserNames(authors[id := a])
    ensures IdsBelow(authors[id := a].Keys, serial + 1) && IdsBelow(posts.Keys, serial + 1)
    ensures RefsResolve(authors, posts) ==> RefsResolve(authors[id := a], posts)
  {
    WriteKeepsUnique(authors, id, a);
  }

  /** The fresh-id supply: the `n`-th minted id is longer than every earlier one. */
  function MintId(n: nat): (id: Id)
    ensures |id| == n + 1
  {
    seq(n + 1, _ => '0')
  }

  /** The two collections, and how many ids have been handed out. */
  class Store {
    var authors: map<Id, Author>
    var blogPosts: map<Id, BlogPost>
    var serial: nat

    /** User names are unique, and every stored id was minted before `serial`. */
    ghost predicate Valid()
      reads this
    {
      UniqueUserNames(authors) && IdsBelow(authors.Keys, serial) && IdsBelow(blogPosts.Keys, serial)
    }

    /** Referential integrity of the posts' `author` paths. */
    ghost predicate ReferencesResolve()
      reads this
    {
      RefsResolve(authors, blogPosts)
    }

    constructor ()
      ensures Valid() && ReferencesResolve()
      ensures authors == map[] && blogPosts == map[] && serial == 0
    {
      authors, blogPosts, serial := map[], map[], 0;
    }

    // -------------------------------------------------------------------------
    // Authors

    /** GET /authors */
    method GetAuthors(fault: Fault) returns (res: Response)
      ensures Fails(fault, 0) ==> res == ErrorJson(500, "error", TerriblyWrong)
      ensures !Fails(fault, 0) ==>
        && res.AuthorList? && res.status == 200 && res.authors.Keys == authors.Keys
        && forall id :: id in authors ==> res.authors[id] == ViewOf(id, authors[id])
    {
      if Fails(fault, 0) {
        return ErrorJson(500, "error", TerriblyWrong);
      }
      return AuthorList(200, map id | id in authors :: ViewOf(id, authors[id]));
    }

    /** POST /authors */
    method PostAuthor(body: Body, fault: Fault) returns (res: Response)
      requires Valid()
      modifies this
      ensures Valid() && blogPosts == old(blogPosts)
      ensures old(ReferencesResolve()) ==> ReferencesResolve()
      ensures var missing := FirstMissing(body, AuthorRequired);
        if missing.Some? then
          res == Text(400, MissingMessage(missing.value)) && unchanged(this)
        else if Fails(fault, 0) then
          res == ErrorJson(500, "error", VeryWrong) && unchanged(this)
        else if UserNameTaken(old(authors), Some(Field(body, "userName"))) then
          res == Text(400, UsernameTaken) && unchanged(this)
        else if Fails(fault, 1) then
          res == ErrorJson(500, "error", TerriblyWrong) && unchanged(this)
        else
          var id := MintId(old(serial));
          var a := Author(Field(body, "firstName"), Field(body, "lastName"), Field(body, "userName"));
          && id !in old(authors)
          && authors == old(authors)[id := a]
          && serial == old(serial) + 1
          && res == AuthorJson(201, ViewOf(id, a))
    {
      var missing := CheckRequired(body, AuthorRequired);
      if missing.Some? {
        return Text(400, MissingMessage(missing.value));
      }
      if Fails(fault, 0) {
        return ErrorJson(500, "error", VeryWrong);
      }
      if UserNameTaken(authors, Some(Field(body, "userName"))) {
        return Text(400, UsernameTaken);
      }
      if Fails(fault, 1) {
        return ErrorJson(500, "error", TerriblyWrong);
      }
      var id := MintId(serial);
      var a := Author(Field(body, "firstName"), Field(body, "lastName"), Field(body, "userName"));
      AddAuthorKeeps(authors, blogPosts, serial, id, a);
      authors := authors[id := a];
      serial := serial + 1;
      return AuthorJson(201, ViewOf(id, a));
    }

    /**
     * PUT /authors/:id as written: a path/body id mismatch sends 400 but the
     * handler goes on; the user-name lookup does not exclude the author being
     * updated; the record updated is the one named by the BODY id.
     */
    method PutAuthor(pathId: Id, body: Body, fault: Fault) returns (res: Response)
      requires Valid()
      modifies this
      ensures Valid() && blogPosts == old(blogPosts) && serial == old(serial)
      ensures old(ReferencesResolve()) ==> ReferencesResolve()
      ensures !IdsMatch(pathId, body) ==> res == ErrorJson(400, "error", IdMismatch)
      ensures
        var early := if IdsMatch(pathId, body) then None else Some(ErrorJson(400, "error", IdMismatch));
        var target := Lookup(body, "id");
        if Fails(fault, 0) then
          res == First(early, NoReply) && authors == old(authors)
        else if UserNameTaken(old(authors), Lookup(body, "userName")) then
          res == First(early, Text(400, UsernameTaken)) && authors == old(authors)
        else if Fails(fault, 1) || target.None? || target.value !in old(authors) then
          res == First(early, ErrorJson(500, "message", InternalError)) && authors == old(authors)
        else
          var a := ApplyAuthorUpdate(old(authors)[target.value], Pick(body, AuthorUpdateable));
          authors == old(authors)[target.value := a] && res == First(early, AuthorJson(200, ViewOf(target.value, a)))
    {
      var early: Option<Response> := None;
      if !IdsMatch(pathId, body) {
        early := Some(ErrorJson(400, "error", IdMismatch));
      }
      var updated := CopyUpdateable(body, AuthorUpdateable);
      var target := Lookup(body, "id");
      var later;
      if Fails(fault, 0) {
        later := NoReply;
      } else if UserNameTaken(authors, Lookup(body, "userName")) {
        later := Text(400, UsernameTaken);
      } else if Fails(fault, 1) || target.None? || target.value !in authors {
        later := ErrorJson(500, "message", InternalError);
      } else {
        var a := ApplyAuthorUpdate(authors[target.value], updated);
        authors := authors[target.value := a];
        later := AuthorJson(200, ViewOf(target.value, a));
      }
      res := First(early, later);
    }

    /**
     * PUT /authors/:id as intended: a mismatch ends the request with no
     * change, and only a DIFFERENT author holding the user name is a conflict.
     */
    method PutAuthorIntended(pathId: Id, body: Body, fault: Fault) returns (res: Response)
      requires Valid()
      modifies this
      ensures Valid() && blogPosts == old(blogPosts) && serial == old(serial)
      ensures old(ReferencesResolve()) ==> ReferencesResolve()
      ensures
        if !IdsMatch(pathId, body) then
          res == ErrorJson(400, "error", IdMismatch) && authors == old(authors)
        else if Fails(fault, 0) then
          res == NoReply && authors == old(authors)
        else if UserNameTakenByOther(old(authors), Lookup(body, "userName"), pathId) then
          res == Text(400, UsernameTaken) && authors == old(authors)
        else if Fails(fault, 1) || pathId !in old(authors) then
          res == ErrorJson(500, "message", InternalError) && authors == old(authors)
        else
          var a := ApplyAuthorUpdate(old(authors)[pathId], Pick(body, AuthorUpdateable));
          authors == old(authors)[pathId := a] && res == AuthorJson(200, ViewOf(pathId, a))
    {
      if !IdsMatch(pathId, body) {
        return ErrorJson(400, "error", IdMismatch);
      }
      var updated := CopyUpdateable(body, AuthorUpdateable);
      if Fails(fault, 0) {
        res := NoReply;
      } else if UserNameTakenByOther(authors, Lookup(body, "userName"), pathId) {
        res := Text(400, UsernameTaken);
      } else if Fails(fault, 1) || pathId !in authors {
        res := ErrorJson(500, "message", InternalError);
      } else {
        var a := ApplyAuthorUpdate(authors[pathId], updated);
        authors := authors[pathId := a];
        res := AuthorJson(200, ViewOf(pathId, a));
      }
    }

    /**
     * DELETE /authors/:id as written. The posts of the author are removed;
     * then `findByIdAndDelete` only builds a query that nothing executes, and
     * the bare `then(...)` that follows (the `.` is missing) throws a
     * ReferenceError, which the `catch` turns into a 500.
     */
    method DeleteAuthor(pathId: Id, fault: Fault) returns (res: Response)
      requires Valid()
      modifies this
      ensures Valid() && authors == old(authors) && serial == old(serial)
      ensures old(ReferencesResolve()) ==> ReferencesResolve()
      ensures res == ErrorJson(500, "message", SomethingWrong)
      ensures blogPosts == if Fails(fault, 0) then old(blogPosts) else Cascade(old(blogPosts), pathId)
    {
      if Fails(fault, 0) {
        return ErrorJson(500, "message", SomethingWrong);
      }
      blogPosts := Cascade(blogPosts, pathId);
      return ErrorJson(500, "message", SomethingWrong);
    }

    /**
     * DELETE /authors/:id as intended: the posts of the author go first, and
     * the author is deleted only once that has succeeded.
     */
    method DeleteAuthorIntended(pathId: Id, fault: Fault) returns (res: Response)
      requires Valid()
      modifies this
      ensures Valid() && serial == old(serial)
      ensures old(ReferencesResolve()) ==> ReferencesResolve()
      ensures Fails(fault, 0) ==> res == ErrorJson(500, "message", SomethingWrong) && unchanged(this)
      ensures Fails(fault, 1) ==>
        res == ErrorJson(500, "message", SomethingWrong) && authors == old(authors) && blogPosts == Cascade(old(blogPosts), pathId)
      ensures !Fails(fault, 0) && !Fails(fault, 1) ==>
        && res == NoContent(204)
        && authors == old(authors) - {pathId}
        && blogPosts == Cascade(old(blogPosts), pathId)
    {
      if Fails(fault, 0) {
        return ErrorJson(500, "message", SomethingWrong);
      }
      blogPosts := Cascade(blogPosts, pathId);
      if Fails(fault, 1) {
        return ErrorJson(500, "message", SomethingWrong);
      }
      authors := authors - {pathId};
      return NoContent(204);
    }

    // -------------------------------------------------------------------------
    // Blog posts

    /** GET /blogposts: every post with its author populated, then serialized. */
    method GetBlogPosts(fault: Fault) returns (res: Response)
      ensures Fails(fault, 0) ==> res == ErrorJson(500, "message", InternalError)
      ensures !Fails(fault, 0) && (exists p :: p in blogPosts && Populate(blogPosts[p].author, authors).Missing?) ==>
        res == ErrorJson(500, "message", InternalError)
      ensures !Fails(fault, 0) && (forall p :: p in blogPosts ==> !Populate(blogPosts[p].author, authors).Missing?) ==>
        && res.PostList? && res.status == 200 && res.posts.Keys == blogPosts.Keys
        && forall p :: p in blogPosts ==> Value(res.posts[p]) == Serialize(PopulatedDoc(p, blogPosts[p], authors))
    {
      if Fails(fault, 0) {
        return ErrorJson(500, "message", InternalError);
      }
      if exists p :: p in blogPosts && Serialize(PopulatedDoc(p, blogPosts[p], authors)).TypeError? {
        return ErrorJson(500, "message", InternalError);
      }
      return PostList(200, map p | p in blogPosts :: Serialize(PopulatedDoc(p, blogPosts[p], authors)).value);
    }

    /**
     * GET /blogposts/:id as written: the post is serialized without
     * `populate`, so its `author` path is a bare ObjectId.
     */
    method GetBlogPost(pathId: Id, fault: Fault) returns (res: Response)
      ensures Fails(fault, 0) || pathId !in blogPosts || blogPosts[pathId].author.Unset? ==>
        res == ErrorJson(500, "message", InternalError)
      ensures !Fails(fault, 0) && pathId in blogPosts && blogPosts[pathId].author.Ref? ==>
        var p := blogPosts[pathId];
        res == PostJson(200, PostView(pathId, p.title, "undefined undefined", p.content))
    {
      if Fails(fault, 0) || pathId !in blogPosts {
        return ErrorJson(500, "message", InternalError);
      }
      var doc := Serialize(DocOf(pathId, blogPosts[pathId], Unpopulated(blogPosts[pathId].author)));
      if doc.TypeError? {
        return ErrorJson(500, "message", InternalError);
      }
      return PostJson(200, doc.value);
    }

    /** GET /blogposts/:id as intended: the author is populated before `serialize()`. */
    method GetBlogPostIntended(pathId: Id, fault: Fault) returns (res: Response)
      ensures Fails(fault, 0) || pathId !in blogPosts || Populate(blogPosts[pathId].author, authors).Missing? ==>
        res == ErrorJson(500, "message", InternalError)
      ensures !Fails(fault, 0) && pathId in blogPosts && Populate(blogPosts[pathId].author, authors).Populated? ==>
        var p := blogPosts[pathId];
        var a := authors[p.author.id];
        res == PostJson(200, PostView(pathId, p.title, Trim(a.firstName + " " + a.lastName), p.content))
    {
      if Fails(fault, 0) || pathId !in blogPosts {
        return ErrorJson(500, "message", InternalError);
      }
      var doc := Serialize(PopulatedDoc(pathId, blogPosts[pathId], authors));
      if doc.TypeError? {
        return ErrorJson(500, "message", InternalError);
      }
      return PostJson(200, doc.value);
    }

    /**
     * POST /blogposts as written: the author named by `author_id` must exist,
     * but the reference stored in the new post is the body's `id` field.
     */
    method PostBlogPost(body: Body, fault: Fault) returns (res: Response)
      requires Valid()
      modifies this
      ensures Valid() && authors == old(authors)
      ensures var missing := FirstMissing(body, PostRequired);
        if missing.Some? then
          res == Text(400, MissingMessage(missing.value)) && unchanged(this)
        else if Fails(fault, 0) then
          res == ErrorJson(500, "error", TerriblyWrong) && unchanged(this)
        else if Field(body, "author_id") !in old(authors) then
          res == Text(400, AuthorNotFound) && unchanged(this)
        else if Fails(fault, 1) then
          res == ErrorJson(500, "error", VeryWrongLower) && unchanged(this)
        else
          var id := MintId(old(serial));
          var a := old(authors)[Field(body, "author_id")];
          && id !in old(blogPosts)
          && blogPosts == old(blogPosts)[id := BlogPost(Field(body, "title"), Field(body, "content"), RefOf(Lookup(body, "id")), [])]
          && serial == old(serial) + 1
          && res == CreatedPost(201, id, a.firstName + " " + a.lastName, Field(body, "content"), Field(body, "title"), [])
    {
      var missing := CheckRequired(body, PostRequired);
      if missing.Some? {
        return Text(400, MissingMessage(missing.value));
      }
      if Fails(fault, 0) {
        return ErrorJson(500, "error", TerriblyWrong);
      }
      if Field(body, "author_id") !in authors {
        return Text(400, AuthorNotFound);
      }
      if Fails(fault, 1) {
        return ErrorJson(500, "error", VeryWrongLower);
      }
      var a := authors[Field(body, "author_id")];
      var id := MintId(serial);
      var post := BlogPost(Field(body, "title"), Field(body, "content"), RefOf(Lookup(body, "id")), []);
      blogPosts := blogPosts[id := post];
      serial := serial + 1;
      return CreatedPost(201, id, a.firstName + " " + a.lastName, post.content, post.title, post.comments);
    }

    /** POST /blogposts as intended: the new post references the `author_id` author. */
    method PostBlogPostIntended(body: Body, fault: Fault) returns (res: Response)
      requires Valid()
      modifies this
      ensures Valid() && authors == old(authors)
      ensures old(ReferencesResolve()) ==> ReferencesResolve()
      ensures var missing := FirstMissing(body, PostRequired);
        if missing.Some? then
          res == Text(400, MissingMessage(missing.value)) && unchanged(this)
        else if Fails(fault, 0) then
          res == ErrorJson(500, "error", TerriblyWrong) && unchanged(this)
        else if Field(body, "author_id") !in old(authors) then
          res == Text(400, AuthorNotFound) && unchanged(this)
        else if Fails(fault, 1) then
          res == ErrorJson(500, "error", VeryWrongLower) && unchanged(this)
        else
          var id := MintId(old(serial));
          var a := old(authors)[Field(body, "author_id")];
          && id !in old(blogPosts)
          && blogPosts == old(blogPosts)[id := BlogPost(Field(body, "title"), Field(body, "content"), Ref(Field(body, "author_id")), [])]
          && serial == old(serial) + 1
          && res == CreatedPost(201, id, a.firstName + " " + a.lastName, Field(body, "content"), Field(body, "title"), [])
    {
      var missing := CheckRequired(body, PostRequired);
      if missing.Some? {
        return Text(400, MissingMessage(missing.value));
      }
      if Fails(fault, 0) {
        return ErrorJson(500, "error", TerriblyWrong);
      }
      if Field(body, "author_id") !in authors {
        return Text(400, AuthorNotFound);
      }
      if Fails(fault, 1) {
        return ErrorJson(500, "error", VeryWrongLower);
      }
      var a := authors[Field(body, "author_id")];
      var id := MintId(serial);
      var post := BlogPost(Field(body, "title"), Field(body, "content"), Ref(Field(body, "author_id")), []);
      if ReferencesResolve() {
        StoreResolvedPost(authors, blogPosts, id, post);
      }
      blogPosts := blogPosts[id := post];
      serial := serial + 1;
      return CreatedPost(201, id, a.firstName + " " + a.lastName, post.content, post.title, post.comments);
    }

    /**
     * PUT /blogposts/:id as written: a mismatch sends 400 and the update of
     * the PATH id still runs. Only `title` and `content` can change.
     */
    method PutBlogPost(pathId: Id, body: Body, fault: Fault) returns (res: Response)
      requires Valid()
      modifies this
      ensures Valid() && authors == old(authors) && serial == old(serial)
      ensures old(ReferencesResolve()) ==> ReferencesResolve()
      ensures !IdsMatch(pathId, body) ==> res == ErrorJson(400, "error", IdMismatch)
      ensures SameOwners(old(blogPosts), blogPosts)
      ensures
        var early := if IdsMatch(pathId, body) then None else Some(ErrorJson(400, "error", IdMismatch));
        if Fails(fault, 0) || pathId !in old(blogPosts) then
          res == First(early, ErrorJson(500, "message", InternalError)) && blogPosts == old(blogPosts)
        else
          var p := ApplyPostUpdate(old(blogPosts)[pathId], Pick(body, PostUpdateable));
          blogPosts == old(blogPosts)[pathId := p] && res == First(early, PostPatch(200, p.title, p.content))
    {
      var early: Option<Response> := None;
      if !IdsMatch(pathId, body) {
        early := Some(ErrorJson(400, "error", IdMismatch));
      }
      var updated := CopyUpdateable(body, PostUpdateable);
      var later;
      if Fails(fault, 0) || pathId !in blogPosts {
        later := ErrorJson(500, "message", InternalError);
      } else {
        var p := ApplyPostUpdate(blogPosts[pathId], updated);
        UpdatePostKeepsOwners(authors, blogPosts, pathId, p);
        blogPosts := blogPosts[pathId := p];
        later := PostPatch(200, p.title, p.content);
      }
      res := First(early, later);
    }

    /** PUT /blogposts/:id as intended: a mismatch ends the request with no change. */
    method PutBlogPostIntended(pathId: Id, body: Body, fault: Fault) returns (res: Response)
      requires Valid()
      modifies this
      ensures Valid() && authors == old(authors) && serial == old(serial)
      ensures old(ReferencesResolve()) ==> ReferencesResolve()
      ensures
        if !IdsMatch(pathId, body) then
          res == ErrorJson(400, "error", IdMismatch) && blogPosts == old(blogPosts)
        else if Fails(fault, 0) || pathId !in old(blogPosts) then
          res == ErrorJson(500, "message", InternalError) && blogPosts == old(blogPosts)
        else
          var p := ApplyPostUpdate(old(blogPosts)[pathId], Pick(body, PostUpdateable));
          blogPosts == old(blogPosts)[pathId := p] && res == PostPatch(200, p.title, p.content)
    {
      if !IdsMatch(pathId, body) {
        return ErrorJson(400, "error", IdMismatch);
      }
      var updated := CopyUpdateable(body, PostUpdateable);
      if Fails(fault, 0) || pathId !in blogPosts {
        return ErrorJson(500, "message", InternalError);
      }
      var p := ApplyPostUpdate(blogPosts[pathId], updated);
      UpdatePostKeepsOwners(authors, blogPosts, pathId, p);
      blogPosts := blogPosts[pathId := p];
      return PostPatch(200, p.title, p.content);
    }

    /** DELETE /blogposts/:id: 204 whether or not the post existed. */
    method DeleteBlogPost(pathId: Id, fault: Fault) returns (res: Response)
      requires Valid()
      modifies this
      ensures Valid() && authors == old(authors) && serial == old(serial)
      ensures old(ReferencesResolve()) ==> ReferencesResolve()
      ensures Fails(fault, 0) ==> res == ErrorJson(500, "message", InternalError) && blogPosts == old(blogPosts)
      ensures !Fails(fault, 0) ==> res == NoContent(204) && blogPosts == old(blogPosts) - {pathId}
    {
      if Fails(fault, 0) {
        return ErrorJson(500, "message", InternalError);
      }
      blogPosts := blogPosts - {pathId};
      return NoContent(204);
    }
  }
}
