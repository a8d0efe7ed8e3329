/**
 * The record shapes of the blog schema and the two derived values the post
 * schema defines: the `authorName` virtual and `serialize()`.
 */
module Models {

  /** Document identifiers (Mongo ObjectIds), kept opaque as strings. */
  type Id = string

  /** An author document; `userName` carries a unique index. */
  datatype Author = Author(firstName: string, lastName: string, userName: string)

  /** A comment sub-document of a post. */
  datatype Comment = Comment(content: string)

  /** The stored `author` path of a post: an ObjectId reference, or never set. */
  datatype AuthorRef = Unset | Ref(id: Id)

  /** A blog-post document: it does not own its author, it owns its comments. */
  datatype BlogPost = BlogPost(title: string, content: string, author: AuthorRef, comments: seq<Comment>)

  /**
   * What `this.author` is when a post document is serialized:
   * `Missing` (undefined, or null after populating a dangling reference),
   * `Raw` (an ObjectId that was never populated) or `Populated` (the author document).
   */
  datatype AuthorField = Missing | Raw(id: Id) | Populated(author: Author)

  /** A post document as loaded by a query, with its author path in some state. */
  datatype PostDoc = PostDoc(id: Id, title: string, content: string, author: AuthorField, comments: seq<Comment>)

  /** The public shape `serialize()` produces. */
  datatype PostView = PostView(id: Id, title: string, author: string, content: string)

  /** The result of evaluating a JavaScript expression that may throw a TypeError. */
  datatype Eval<+T> = Value(value: T) | TypeError

  // ---------------------------------------------------------------------------
  // String.prototype.trim

  /** The characters `trim()` strips: ECMAScript WhiteSpace and LineTerminator code points. */
  predicate IsJsSpace(c: char) {
    || c == '\t' || c == '\n' || c == '\U{000B}' || c == '\U{000C}' || c == '\r'
    || c == ' ' || c == '\U{00A0}' || c == '\U{1680}'
    || ('\U{2000}' <= c <= '\U{200A}')
    || c == '\U{2028}' || c == '\U{2029}' || c == '\U{202F}' || c == '\U{205F}'
    || c == '\U{3000}' || c == '\U{FEFF}'
  }

  /** Every character of `s` from `lo` up to (not including) `hi` is white space. */
  predicate SpaceBetween(s: string, lo: int, hi: int)
    requires 0 <= lo && hi <= |s|
  {
    forall k :: lo <= k < hi ==> IsJsSpace(s[k])
  }

  /** Neither the first nor the last character is white space. */
  predicate Trimmed(s: string) {
    s == [] || (!IsJsSpace(s[0]) && !IsJsSpace(s[|s| - 1]))
  }

  /** The first index from `lo` on that does not hold white space (`hi` if none). */
  function FirstNonSpace(s: string, lo: nat, hi: nat): (i: nat)
    requires lo <= hi <= |s|
    ensures lo <= i <= hi && SpaceBetween(s, lo, i)
    ensures i == hi || !IsJsSpace(s[i])
    decreases hi - lo
  {
    if lo < hi && IsJsSpace(s[lo]) then FirstNonSpace(s, lo + 1, hi) else lo
  }

  /** The end of the last character before `hi` that is not white space (`lo` if none). */
  function LastNonSpace(s: string, lo: nat, hi: nat): (j: nat)
    requires lo <= hi <= |s|
    ensures lo <= j <= hi && SpaceBetween(s, j, hi)
    ensures j == lo || !IsJsSpace(s[j - 1])
  {
    if lo < hi && IsJsSpace(s[hi - 1]) then LastNonSpace(s, lo, hi - 1) else hi
  }

  /**
   * `s.trim()`: the slice of `s` left after removing white space at both ends;
   * it is empty exactly when `s` is all white space.
   */
  function Trim(s: string): (r: string)
    ensures Trimmed(r)
    ensures r == [] <==> SpaceBetween(s, 0, |s|)
    ensures exists i, j :: 0 <= i <= j <= |s| && r == s[i..j] && SpaceBetween(s, 0, i) && SpaceBetween(s, j, |s|)
  {
    var i := FirstNonSpace(s, 0, |s|);
    var j := LastNonSpace(s, i, |s|);
    s[i..j]
  }

  /**
   * The trimmed string is determined by its bounds: a non-empty slice with
   * no white space at its edges and only white space around it is `Trim(s)`.
   */
  lemma TrimUnique(s: string, i: nat, j: nat)
    requires i < j <= |s|
    requires SpaceBetween(s, 0, i) && SpaceBetween(s, j, |s|)
    requires !IsJsSpace(s[i]) && !IsJsSpace(s[j - 1])
    ensures Trim(s) == s[i..j]
  {
    assert FirstNonSpace(s, 0, |s|) == i;
    assert LastNonSpace(s, i, |s|) == j;
  }

  lemma TrimOfTrimmed(s: string)
    requires Trimmed(s)
    ensures Trim(s) == s
  {
    if s != [] {
      TrimUnique(s, 0, |s|);
    }
  }

  /** Trimming twice is trimming once. */
  lemma TrimIdempotent(s: string)
    ensures Trim(Trim(s)) == Trim(s)
  {
    TrimOfTrimmed(Trim(s));
  }

  /** Appending white space to `s` keeps the trimmed string. */
  lemma TrimAppendSpace(s: string)
    ensures Trim(s + " ") == Trim(s)
  {
    var s' := s + " ";
    if SpaceBetween(s, 0, |s|) {
      SpaceBetweenExtend(s, s', 0, 0, |s|);
      assert SpaceBetween(s', 0, |s'|);
    } else {
      var i, j :| 0 <= i <= j <= |s| && Trim(s) == s[i..j] && SpaceBetween(s, 0, i) && SpaceBetween(s, j, |s|);
      TrimPadded(s, s', 0, i, j);
    }
  }

  /** Prepending white space to `s` keeps the trimmed string. */
  lemma PrependSpaceTrim(s: string)
    ensures Trim(" " + s) == Trim(s)
  {
    var s' := " " + s;
    if SpaceBetween(s, 0, |s|) {
      SpaceBetweenExtend(s, s', 1, 0, |s|);
      assert SpaceBetween(s', 0, |s'|);
    } else {
      var i, j :| 0 <= i <= j <= |s| && Trim(s) == s[i..j] && SpaceBetween(s, 0, i) && SpaceBetween(s, j, |s|);
      TrimPadded(s, s', 1, i, j);
    }
  }

  lemma TrimPadded(s: string, s': string, d: nat, i: nat, j: nat)
    requires (d == 0 && s' == s + " ") || (d == 1 && s' == " " + s)
    requires 0 <= i <= j <= |s| && Trim(s) == s[i..j] && SpaceBetween(s, 0, i) && SpaceBetween(s, j, |s|)
    requires !SpaceBetween(s, 0, |s|)
    ensures Trim(s') == Trim(s)
  {
    assert i < j;
    SpaceBetweenExtend(s, s', d, 0, i);
    SpaceBetweenExtend(s, s', d, j, |s|);
    PaddedSlice(s, s', d, i, j);
    TrimUnique(s', i + d, j + d);
  }

  /** Inside the padding, `s'` holds `s` shifted by `d`. */
  lemma PaddedSlice(s: string, s': string, d: nat, i: nat, j: nat)
    requires (d == 0 && s' == s + " ") || (d == 1 && s' == " " + s)
    requires i < j <= |s|
    ensures s'[i + d..j + d] == s[i..j]
    ensures s'[i + d] == s[i] && s'[j + d - 1] == s[j - 1]
  {
    if d == 0 {
      assert s' == s + " ";
    } else {
      assert s' == " " + s;
      assert s'[1..] == s;
    }
  }

  /**
   * `s'` holds `s` at offset `d` and white space everywhere else; a white-space
   * run of `s` is then one of `s'` as well, stretched over the padding next to it.
   */
  lemma SpaceBetweenExtend(s: string, s': string, d: nat, lo: nat, hi: nat)
    requires (d == 0 && s' == s + " ") || (d == 1 && s' == " " + s)
    requires lo <= hi <= |s| && SpaceBetween(s, lo, hi)
    ensures SpaceBetween(s', if lo == 0 then 0 else lo + d, if hi == |s| then |s'| else hi + d)
  {
    var lo', hi' := if lo == 0 then 0 else lo + d, if hi == |s| then |s'| else hi + d;
    forall k | lo' <= k < hi' ensures IsJsSpace(s'[k]) {
      if k < d || k >= |s| + d {
        assert s'[k] == ' ';
      } else {
        assert s'[k] == s[k - d];
      }
    }
  }

  // ---------------------------------------------------------------------------
  // The `authorName` virtual and `serialize()`

  /**
   * `${this.author.firstName} ${this.author.lastName}`.trim(): dereferencing a
   * missing author throws; an unpopulated ObjectId has neither field, so each
   * interpolates as the text "undefined".
   */
  function AuthorName(field: AuthorField): (r: Eval<string>)
    ensures r.Value? <==> !field.Missing?
    ensures r.Value? ==> Trimmed(r.value)
    ensures field.Raw? ==> r == Value("undefined undefined")
  {
    match field
    case Missing => TypeError
    case Raw(_) => Value("undefined undefined")
    case Populated(a) => Value(Trim(a.firstName + " " + a.lastName))
  }

  /** With an empty last name the display name is the first name, trimmed. */
  lemma AuthorNameEmptyLastName(a: Author)
    requires a.lastName == ""
    ensures AuthorName(Populated(a)) == Value(Trim(a.firstName))
  {
    assert a.firstName + " " + a.lastName == a.firstName + " ";
    TrimAppendSpace(a.firstName);
  }

  /** With an empty first name the display name is the last name, trimmed. */
  lemma AuthorNameEmptyFirstName(a: Author)
    requires a.firstName == ""
    ensures AuthorName(Populated(a)) == Value(Trim(a.lastName))
  {
    assert a.firstName + " " + a.lastName == " " + a.lastName;
    PrependSpaceTrim(a.lastName);
  }

  /**
   * When both names are non-empty and carry no edge white space, the trimmed
   * display name is the plain `firstName + " " + lastName`.
   */
  lemma AuthorNameOfCleanNames(a: Author)
    requires a.firstName != "" && a.lastName != ""
    requires Trimmed(a.firstName) && Trimmed(a.lastName)
    ensures AuthorName(Populated(a)) == Value(a.firstName + " " + a.lastName)
  {
    var s := a.firstName + " " + a.lastName;
    assert s[0] == a.firstName[0];
    assert s[|s| - 1] == a.lastName[|a.lastName| - 1];
    TrimOfTrimmed(s);
  }

  /**
   * `serialize()`: exactly id, title, the author's display name and content;
   * the comments are never part of it. Throws when the author is missing.
   */
  function Serialize(doc: PostDoc): (r: Eval<PostView>)
    ensures r.Value? <==> !doc.author.Missing?
    ensures r.Value? ==> r.value.id == doc.id && r.value.title == doc.title && r.value.content == doc.content
    ensures r.Value? ==> Value(r.value.author) == AuthorName(doc.author)
  {
    match AuthorName(doc.author)
    case TypeError => TypeError
    case Value(name) => Value(PostView(doc.id, doc.title, name, doc.content))
  }

  /** The comments a post document carries never reach its serialized form. */
  lemma SerializeIgnoresComments(doc: PostDoc, comments: seq<Comment>)
    ensures Serialize(doc.(comments := comments)) == Serialize(doc)
  {
  }

  // ---------------------------------------------------------------------------
  // The unique index on `userName`

  /** No two author documents share a `userName`. */
  ghost predicate UniqueUserNames(authors: map<Id, Author>) {
    forall i, j :: i in authors && j in authors && authors[i].userName == authors[j].userName ==> i == j
  }

  /**
   * Writing record `a` under `id` keeps user names unique when no OTHER
   * author already holds `a.userName`.
   */
  lemma WriteKeepsUnique(authors: map<Id, Author>, id: Id, a: Author)
    requires UniqueUserNames(authors)
    requires forall other :: other in authors && other != id ==> authors[other].userName != a.userName
    ensures UniqueUserNames(authors[id := a])
  {
  }
}
