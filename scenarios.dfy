/**
 * Clients of `Store`: request sequences against a fresh store, with what the
 * handler contracts let a caller conclude about the replies and the records.
 * Several of them put a handler as written beside its intended version.
 */
module Scenarios {
  import opened Wrappers
  import opened Models
  import opened Requests
  import opened Server

  /** The JSON body of a POST /authors for `a`. */
  function AuthorBody(a: Author): Body {
    map["firstName" := a.firstName, "lastName" := a.lastName, "userName" := a.userName]
  }

  /** The JSON body of a POST /blogposts. */
  function PostBody(title: string, content: string, authorId: Id): Body {
    map["title" := title, "content" := content, "author_id" := authorId]
  }

  lemma AuthorBodyFields(a: Author)
    ensures FirstMissing(AuthorBody(a), AuthorRequired) == None
    ensures Field(AuthorBody(a), "firstName") == a.firstName && Field(AuthorBody(a), "lastName") == a.lastName
    ensures Field(AuthorBody(a), "userName") == a.userName
  {
    var body := AuthorBody(a);
    assert "firstName" in body && "lastName" in body && "userName" in body;
  }

  lemma PostBodyFields(title: string, content: string, authorId: Id)
    ensures FirstMissing(PostBody(title, content, authorId), PostRequired) == None
    ensures Field(PostBody(title, content, authorId), "title") == title
    ensures Field(PostBody(title, content, authorId), "content") == content
    ensures Field(PostBody(title, content, authorId), "author_id") == authorId
    ensures "id" !in PostBody(title, content, authorId)
  {
    var body := PostBody(title, content, authorId);
    assert "title" in body && "content" in body && "author_id" in body;
  }

  /** The reply text for a body without `lastName`, spelled out. */
  lemma MissingLastNameText()
    ensures MissingMessage("lastName") == "Missing `lastName` in request body"
  {
  }

  /** An instance of the display name: "Ada" and "Lovelace" become "Ada Lovelace". */
  lemma AdaDisplayName()
    ensures AuthorName(Populated(Author("Ada", "Lovelace", "ada"))) == Value("Ada Lovelace")
  {
    var ada := Author("Ada", "Lovelace", "ada");
    assert ada.firstName[0] == 'A' && ada.lastName[|ada.lastName| - 1] == 'e';
    AuthorNameOfCleanNames(ada);
    assert ada.firstName + " " + ada.lastName == "Ada Lovelace";
  }

  // ---------------------------------------------------------------------------
  // Set-ups: a fresh store after some successful requests

  /** POST /authors for `a` on a fresh store. */
  method WithAuthor(a: Author) returns (store: Store, res: Response)
    ensures fresh(store) && store.Valid() && store.ReferencesResolve()
    ensures store.authors == map[MintId(0) := a] && store.blogPosts == map[] && store.serial == 1
    ensures res == AuthorJson(201, ViewOf(MintId(0), a))
  {
    store := new Store();
    AuthorBodyFields(a);
    res := store.PostAuthor(AuthorBody(a), NoFault);
  }

  /** POST /authors for `a`, then for `b`. */
  method WithTwoAuthors(a: Author, b: Author) returns (store: Store)
    requires a.userName != b.userName
    ensures fresh(store) && store.Valid()
    ensures store.authors == map[MintId(0) := a, MintId(1) := b] && store.blogPosts == map[]
  {
    var reply;
    store, reply := WithAuthor(a);
    AuthorBodyFields(b);
    reply := store.PostAuthor(AuthorBody(b), NoFault);
  }

  /** POST /authors for `a`, then POST /blogposts for it, as intended. */
  method WithAuthorAndPost(a: Author, title: string, content: string) returns (store: Store)
    ensures fresh(store) && store.Valid() && store.ReferencesResolve()
    ensures store.authors == map[MintId(0) := a]
    ensures store.blogPosts == map[MintId(1) := BlogPost(title, content, Ref(MintId(0)), [])]
  {
    var reply;
    store, reply := WithAuthor(a);
    PostBodyFields(title, content, MintId(0));
    reply := store.PostBlogPostIntended(PostBody(title, content, MintId(0)), NoFault);
  }

  // ---------------------------------------------------------------------------
  // Scenarios

  /** The required fields are checked in order: the first one absent is named. */
  method MissingFieldNamed(firstName: string) returns (res: Response, count: nat)
    ensures res == Text(400, "Missing `lastName` in request body")
    ensures count == 0
  {
    var store := new Store();
    var body := map["firstName" := firstName];
    assert "firstName" in body && "lastName" !in body;
    assert FirstMissingIndex(body, AuthorRequired) == 1;
    res := store.PostAuthor(body, NoFault);
    count := |store.authors|;
    MissingLastNameText();
  }

  /** Two POST /authors with one user name: 201, then 400, and one author. */
  method DuplicateUserName(a: Author, b: Author) returns (first: Response, second: Response, count: nat)
    requires a.userName == b.userName
    ensures first == AuthorJson(201, ViewOf(MintId(0), a))
    ensures second == Text(400, UsernameTaken)
    ensures count == 1
  {
    var store;
    store, first := WithAuthor(a);
    AuthorBodyFields(b);
    assert store.authors[MintId(0)].userName == b.userName;
    second := store.PostAuthor(AuthorBody(b), NoFault);
    count := |store.authors|;
  }

  /** The update body that re-submits the user name author `id` already has. */
  function OwnUserNameBody(id: Id, a: Author): Body {
    map["id" := id, "userName" := a.userName]
  }

  lemma OwnUserNameBodyFields(id: Id, a: Author)
    ensures Pick(OwnUserNameBody(id, a), AuthorUpdateable) == map["userName" := a.userName]
    ensures ApplyAuthorUpdate(a, map["userName" := a.userName]) == a
    ensures Lookup(OwnUserNameBody(id, a), "userName") == Some(a.userName)
    ensures Lookup(OwnUserNameBody(id, a), "id") == Some(id)
  {
  }

  /** Re-submitting an author's own user name, as written: rejected as taken. */
  method ResubmitOwnUserName(a: Author) returns (res: Response, kept: Author)
    ensures res == Text(400, UsernameTaken) && kept == a
  {
    var id := MintId(0);
    OwnUserNameBodyFields(id, a);
    var store, reply := WithAuthor(a);
    assert store.authors[id].userName == a.userName;
    res := store.PutAuthor(id, OwnUserNameBody(id, a), NoFault);
    kept := store.authors[id];
  }

  /** The same request once the author being updated is excluded from the lookup: accepted. */
  method ResubmitOwnUserNameIntended(a: Author) returns (res: Response, kept: Author)
    ensures res == AuthorJson(200, ViewOf(MintId(0), a)) && kept == a
  {
    var id := MintId(0);
    OwnUserNameBodyFields(id, a);
    var store, reply := WithAuthor(a);
    assert IdsMatch(id, OwnUserNameBody(id, a));
    assert !UserNameTakenByOther(store.authors, Some(a.userName), id);
    res := store.PutAuthorIntended(id, OwnUserNameBody(id, a), NoFault);
    kept := store.authors[id];
  }

  /** An update body naming author `id` and a new first name. */
  function RenameBody(id: Id, name: string): Body {
    map["id" := id, "firstName" := name]
  }

  lemma RenameBodyFields(id: Id, name: string)
    ensures Pick(RenameBody(id, name), AuthorUpdateable) == map["firstName" := name]
    ensures forall a: Author :: ApplyAuthorUpdate(a, map["firstName" := name]) == a.(firstName := name)
    ensures Lookup(RenameBody(id, name), "userName") == None
    ensures Lookup(RenameBody(id, name), "id") == Some(id)
  {
  }

  /**
   * PUT /authors/<a> with a body naming `b`, as written: the client gets 400,
   * but `b` is renamed all the same.
   */
  method MismatchedAuthorUpdate(a: Author, b: Author, name: string) returns (res: Response, renamed: Author)
    requires a.userName != b.userName
    ensures res == ErrorJson(400, "error", IdMismatch) && renamed == b.(firstName := name)
  {
    RenameBodyFields(MintId(1), name);
    var store := WithTwoAuthors(a, b);
    res := store.PutAuthor(MintId(0), RenameBody(MintId(1), name), NoFault);
    renamed := store.authors[MintId(1)];
  }

  /** The same request as intended: 400, and no author changes. */
  method MismatchedAuthorUpdateIntended(a: Author, b: Author, name: string) returns (res: Response, kept: Author)
    requires a.userName != b.userName
    ensures res == ErrorJson(400, "error", IdMismatch) && kept == b
  {
    RenameBodyFields(MintId(1), name);
    var store := WithTwoAuthors(a, b);
    res := store.PutAuthorIntended(MintId(0), RenameBody(MintId(1), name), NoFault);
    kept := store.authors[MintId(1)];
  }

  /**
   * PUT /blogposts/<post> with no `id` in the body, as written: the client
   * gets 400, but the post's title changes all the same.
   */
  method MismatchedPostUpdate(a: Author, title: string, content: string, newTitle: string)
    returns (res: Response, updated: BlogPost)
    ensures res == ErrorJson(400, "error", IdMismatch)
    ensures updated == BlogPost(newTitle, content, Ref(MintId(0)), [])
  {
    var body := map["title" := newTitle];
    assert Pick(body, PostUpdateable) == body;
    assert !IdsMatch(MintId(1), body);
    var store := WithAuthorAndPost(a, title, content);
    res := store.PutBlogPost(MintId(1), body, NoFault);
    updated := store.blogPosts[MintId(1)];
  }

  /** The same request as intended: 400, and the post is kept as it was. */
  method MismatchedPostUpdateIntended(a: Author, title: string, content: string, newTitle: string)
    returns (res: Response, kept: BlogPost)
    ensures res == ErrorJson(400, "error", IdMismatch)
    ensures kept == BlogPost(title, content, Ref(MintId(0)), [])
  {
    var body := map["title" := newTitle];
    assert !IdsMatch(MintId(1), body);
    var store := WithAuthorAndPost(a, title, content);
    res := store.PutBlogPostIntended(MintId(1), body, NoFault);
    kept := store.blogPosts[MintId(1)];
  }

  /**
   * DELETE /authors/<a> after `a` wrote a post, as written: the post goes,
   * the author stays, and the reply is 500.
   */
  method DeleteAuthorWithPost(a: Author, title: string, content: string)
    returns (res: Response, authorsLeft: nat, postsLeft: nat)
    ensures res == ErrorJson(500, "message", SomethingWrong) && authorsLeft == 1 && postsLeft == 0
  {
    var store := WithAuthorAndPost(a, title, content);
    assert PostsBy(store.blogPosts, MintId(0)) == store.blogPosts.Keys;
    res := store.DeleteAuthor(MintId(0), NoFault);
    authorsLeft, postsLeft := |store.authors|, |store.blogPosts|;
  }

  /** The same request as intended: the post and the author both go, and the reply is 204. */
  method DeleteAuthorWithPostIntended(a: Author, title: string, content: string)
    returns (res: Response, authorsLeft: nat, postsLeft: nat)
    ensures res == NoContent(204) && authorsLeft == 0 && postsLeft == 0
  {
    var store := WithAuthorAndPost(a, title, content);
    assert PostsBy(store.blogPosts, MintId(0)) == store.blogPosts.Keys;
    res := store.DeleteAuthorIntended(MintId(0), NoFault);
    assert store.authors == map[];
    authorsLeft, postsLeft := |store.authors|, |store.blogPosts|;
  }

  /**
   * POST /blogposts for `a`, as written: the reply names the author, but the
   * stored post has no author.
   */
  method CreatedPostAuthor(a: Author, title: string, content: string) returns (created: Response, stored: AuthorRef)
    ensures created == CreatedPost(201, MintId(1), a.firstName + " " + a.lastName, content, title, [])
    ensures stored == Unset
  {
    var store, reply := WithAuthor(a);
    PostBodyFields(title, content, MintId(0));
    created := store.PostBlogPost(PostBody(title, content, MintId(0)), NoFault);
    stored := store.blogPosts[MintId(1)].author;
  }

  /** POST /authors for `a`, then POST /blogposts for it, as written. */
  method WithAuthorAndUnownedPost(a: Author, title: string, content: string) returns (store: Store)
    ensures fresh(store) && store.Valid()
    ensures store.authors == map[MintId(0) := a]
    ensures store.blogPosts == map[MintId(1) := BlogPost(title, content, Unset, [])]
  {
    var reply;
    store, reply := WithAuthor(a);
    PostBodyFields(title, content, MintId(0));
    reply := store.PostBlogPost(PostBody(title, content, MintId(0)), NoFault);
  }

  /** After that POST /blogposts, GET /blogposts fails: the post has no author to name. */
  method CreatedPostBreaksListing(a: Author, title: string, content: string) returns (listed: Response)
    ensures listed == ErrorJson(500, "message", InternalError)
  {
    var store := WithAuthorAndUnownedPost(a, title, content);
    assert Populate(store.blogPosts[MintId(1)].author, store.authors).Missing?;
    listed := store.GetBlogPosts(NoFault);
  }

  /** The posts listed once POST /blogposts has stored the `author_id` reference. */
  method ListedPostAuthor(a: Author, title: string, content: string) returns (listed: Response)
    ensures listed.PostList? && listed.status == 200 && listed.posts.Keys == {MintId(1)}
    ensures listed.posts[MintId(1)] == PostView(MintId(1), title, Trim(a.firstName + " " + a.lastName), content)
  {
    var store := WithAuthorAndPost(a, title, content);
    var post := MintId(1);
    var doc := PopulatedDoc(post, store.blogPosts[post], store.authors);
    assert doc == PostDoc(post, title, content, Populated(a), []);
    assert Serialize(doc) == Value(PostView(post, title, Trim(a.firstName + " " + a.lastName), content));
    listed := store.GetBlogPosts(NoFault);
  }

  /**
   * GET /blogposts/<post>, as written: without `populate` the author reads as
   * "undefined undefined", whoever wrote the post.
   */
  method FetchedPostAuthor(a: Author, title: string, content: string) returns (res: Response)
    ensures res == PostJson(200, PostView(MintId(1), title, "undefined undefined", content))
  {
    var store := WithAuthorAndPost(a, title, content);
    res := store.GetBlogPost(MintId(1), NoFault);
  }

  /**
   * The create-then-fetch round trip: once the author is populated, the
   * fetched `author` is the trimmed "firstName lastName" of the post's author.
   */
  method FetchedPostAuthorIntended(a: Author, title: string, content: string) returns (res: Response)
    ensures res == PostJson(200, PostView(MintId(1), title, Trim(a.firstName + " " + a.lastName), content))
  {
    var store := WithAuthorAndPost(a, title, content);
    res := store.GetBlogPostIntended(MintId(1), NoFault);
  }

  /** A post for an unknown author is refused and nothing is stored. */
  method UnknownAuthor(authorId: Id) returns (res: Response, count: nat)
    ensures res == Text(400, AuthorNotFound) && count == 0
  {
    var store := new Store();
    PostBodyFields("T", "C", authorId);
    res := store.PostBlogPost(PostBody("T", "C", authorId), NoFault);
    count := |store.blogPosts|;
  }
}
