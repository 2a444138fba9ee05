/** The data models exchanged with the API: Post and Comment are mutable
    objects with value equality and Java's field-wise hash; User is read only
    through its getters and is kept as a value. */
module Models {
  import opened Results
  import Text

  /** A Java Integer's value. */
  type Int32 = x: int | Text.IsInt32(x)

  const Modulus: int := 0x1_0000_0000

  /** One step of Java's `31 * result + h` in 32-bit arithmetic. */
  function Combine(acc: int, h: int): (r: int)
    ensures Text.IsInt32(r)
  {
    Text.Wrap32(31 * acc + h)
  }

  /** If `acc` agrees with the exact value `exact` modulo 2^32, one more
      step agrees with the exact `31 * exact + h`. */
  lemma CombineTracks(acc: int, exact: int, h: int)
    requires (acc - exact) % Modulus == 0
    ensures (Combine(acc, h) - (31 * exact + h)) % Modulus == 0
  {
    var q := (acc - exact) / Modulus;
    assert acc - exact == Modulus * q;
    var w := Combine(acc, h);
    var q2 := (w - (31 * acc + h)) / Modulus;
    assert w - (31 * acc + h) == Modulus * q2;
    assert w - (31 * exact + h) == Modulus * (q2 + 31 * q);
  }

  /** String.hashCode: `h = 31 * h + c` over the characters, wrapping. */
  function StringHash(s: string): (h: int)
    ensures Text.IsInt32(h)
  {
    if |s| == 0 then 0 else Combine(StringHash(s[..|s| - 1]), s[|s| - 1] as int)
  }

  /** The exact polynomial `s[0]*31^(n-1) + ... + s[n-1]` without wrapping. */
  ghost function StringPolynomial(s: string): int {
    if |s| == 0 then 0 else 31 * StringPolynomial(s[..|s| - 1]) + s[|s| - 1] as int
  }

  /** String.hashCode is the polynomial reduced into the 32-bit range. */
  lemma {:induction false} StringHashIsPolynomial(s: string)
    ensures (StringHash(s) - StringPolynomial(s)) % Modulus == 0
  {
    if |s| > 0 {
      StringHashIsPolynomial(s[..|s| - 1]);
      CombineTracks(StringHash(s[..|s| - 1]), StringPolynomial(s[..|s| - 1]), s[|s| - 1] as int);
    }
  }

  /** The hash of a field: 0 for null, else the value's own hash. */
  function IntegerHash(x: Option<Int32>): int {
    if x.Some? then x.value else 0
  }

  function TextHash(s: Option<string>): (h: int)
    ensures Text.IsInt32(h)
  {
    if s.Some? then StringHash(s.value) else 0
  }

  /** Four field hashes folded as Post.hashCode folds them. */
  function Hash4(h1: int, h2: int, h3: int, h4: int): (h: int)
    ensures Text.IsInt32(h)
    ensures (h - (29791 * h1 + 961 * h2 + 31 * h3 + h4)) % Modulus == 0
  {
    CombineTracks(Combine(h1, h2), 31 * h1 + h2, h3);
    CombineTracks(Combine(Combine(h1, h2), h3), 31 * (31 * h1 + h2) + h3, h4);
    Combine(Combine(Combine(h1, h2), h3), h4)
  }

  /** Five field hashes folded as Comment.hashCode folds them. */
  function Hash5(h1: int, h2: int, h3: int, h4: int, h5: int): (h: int)
    ensures Text.IsInt32(h)
    ensures (h - (923521 * h1 + 29791 * h2 + 961 * h3 + 31 * h4 + h5)) % Modulus == 0
  {
    var r := Hash4(h1, h2, h3, h4);
    CombineTracks(r, 29791 * h1 + 961 * h2 + 31 * h3 + h4, h5);
    Combine(r, h5)
  }

  // ---------------------------------------------------------------------
  // Post

  /** The field values of a Post at one moment. */
  datatype PostData = PostData(id: Option<Int32>, userId: Option<Int32>, title: Option<string>, body: Option<string>)

  class Post {
    var id: Option<Int32>
    var userId: Option<Int32>
    var title: Option<string>
    var body: Option<string>

    function Value(): PostData
      reads this
    {
      PostData(id, userId, title, body)
    }

    /** The no-argument constructor: every field null. */
    constructor ()
      ensures Value() == PostData(None, None, None, None)
    {
      id, userId, title, body := None, None, None, None;
    }

    /** The three-argument constructor: the id stays null. */
    constructor WithoutId(userId: Option<Int32>, title: Option<string>, body: Option<string>)
      ensures Value() == PostData(None, userId, title, body)
    {
      this.id := None;
      this.userId, this.title, this.body := userId, title, body;
    }

    constructor WithId(id: Option<Int32>, userId: Option<Int32>, title: Option<string>, body: Option<string>)
      ensures Value() == PostData(id, userId, title, body)
    {
      this.id, this.userId, this.title, this.body := id, userId, title, body;
    }

    method SetId(id: Option<Int32>)
      modifies this
      ensures Value() == old(Value()).(id := id)
    {
      this.id := id;
    }

    method SetUserId(userId: Option<Int32>)
      modifies this
      ensures Value() == old(Value()).(userId := userId)
    {
      this.userId := userId;
    }

    method SetTitle(title: Option<string>)
      modifies this
      ensures Value() == old(Value()).(title := title)
    {
      this.title := title;
    }

    method SetBody(body: Option<string>)
      modifies this
      ensures Value() == old(Value()).(body := body)
    {
      this.body := body;
    }

    /** equals: the same object, or another Post whose four fields are
        pairwise null-safe equal (anything that is not a Post is unequal). */
    function Equals(o: object?): (r: bool)
      reads this, o
      ensures r <==> o is Post && Value() == (o as Post).Value()
    {
      if this == o then true
      else if !(o is Post) then false
      else
        var post := o as Post;
        NullSafeEqualsIsEquality(id, post.id);
        NullSafeEqualsIsEquality(userId, post.userId);
        NullSafeEqualsIsEquality(title, post.title);
        NullSafeEqualsIsEquality(body, post.body);
        if !NullSafeEquals(id, post.id) then false
        else if !NullSafeEquals(userId, post.userId) then false
        else if !NullSafeEquals(title, post.title) then false
        else NullSafeEquals(body, post.body)
    }

    /** hashCode: the fields folded with `31 * result + h`, null as 0; the
        result is the exact weighted sum reduced into the 32-bit range. */
    function HashCode(): (h: int)
      reads this
      ensures Text.IsInt32(h)
      ensures (h - (29791 * IntegerHash(id) + 961 * IntegerHash(userId) + 31 * TextHash(title) + TextHash(body)))
        % Modulus == 0
    {
      Hash4(IntegerHash(id), IntegerHash(userId), TextHash(title), TextHash(body))
    }
  }

  /** equals is an equivalence relation on posts, and null is never equal. */
  lemma PostEqualsIsEquivalence(a: Post, b: Post, c: Post)
    ensures a.Equals(a)
    ensures !a.Equals(null)
    ensures a.Equals(b) == b.Equals(a)
    ensures a.Equals(b) && b.Equals(c) ==> a.Equals(c)
  {
  }

  /** Equal posts have equal hash codes (the contract of Object.hashCode). */
  lemma PostHashConsistent(a: Post, b: Post)
    requires a.Equals(b)
    ensures a.HashCode() == b.HashCode()
  {
  }

  /** Two values of String.hashCode, and the hash of a post with every
      field null. */
  lemma HashExamples(p: Post)
    ensures StringHash("") == 0 && StringHash("ab") == 3105
    ensures p.Value() == PostData(None, None, None, None) ==> p.HashCode() == 0
  {
    assert "ab"[..1] == "a";
    assert "a"[..0] == "";
  }

  // ---------------------------------------------------------------------
  // Comment

  /** The field values of a Comment at one moment. */
  datatype CommentData = CommentData(id: Option<Int32>, postId: Option<Int32>, name: Option<string>,
                                     email: Option<string>, body: Option<string>)

  class Comment {
    var id: Option<Int32>
    var postId: Option<Int32>
    var name: Option<string>
    var email: Option<string>
    var body: Option<string>

    function Value(): CommentData
      reads this
    {
      CommentData(id, postId, name, email, body)
    }

    constructor ()
      ensures Value() == CommentData(None, None, None, None, None)
    {
      id, postId, name, email, body := None, None, None, None, None;
    }

    constructor WithoutId(postId: Option<Int32>, name: Option<string>, email: Option<string>, body: Option<string>)
      ensures Value() == CommentData(None, postId, name, email, body)
    {
      this.id := None;
      this.postId, this.name, this.email, this.body := postId, name, email, body;
    }

    constructor WithId(id: Option<Int32>, postId: Option<Int32>, name: Option<string>, email: Option<string>,
                       body: Option<string>)
      ensures Value() == CommentData(id, postId, name, email, body)
    {
      this.id, this.postId, this.name, this.email, this.body := id, postId, name, email, body;
    }

    method SetId(id: Option<Int32>)
      modifies this
      ensures Value() == old(Value()).(id := id)
    {
      this.id := id;
    }

    method SetPostId(postId: Option<Int32>)
      modifies this
      ensures Value() == old(Value()).(postId := postId)
    {
      this.postId := postId;
    }

    method SetName(name: Option<string>)
      modifies this
      ensures Value() == old(Value()).(name := name)
    {
      this.name := name;
    }

    method SetEmail(email: Option<string>)
      modifies this
      ensures Value() == old(Value()).(email := email)
    {
      this.email := email;
    }

    method SetBody(body: Option<string>)
      modifies this
      ensures Value() == old(Value()).(body := body)
    {
      this.body := body;
    }

    /** equals: the same object, or another Comment whose five fields are
        pairwise null-safe equal. */
    function Equals(o: object?): (r: bool)
      reads this, o
      ensures r <==> o is Comment && Value() == (o as Comment).Value()
    {
      if this == o then true
      else if !(o is Comment) then false
      else
        var comment := o as Comment;
        NullSafeEqualsIsEquality(id, comment.id);
        NullSafeEqualsIsEquality(postId, comment.postId);
        NullSafeEqualsIsEquality(name, comment.name);
        NullSafeEqualsIsEquality(email, comment.email);
        NullSafeEqualsIsEquality(body, comment.body);
        if !NullSafeEquals(id, comment.id) then false
        else if !NullSafeEquals(postId, comment.postId) then false
        else if !NullSafeEquals(name, comment.name) then false
        else if !NullSafeEquals(email, comment.email) then false
        else NullSafeEquals(body, comment.body)
    }

    /** hashCode: the five fields folded with `31 * result + h`. */
    function HashCode(): (h: int)
      reads this
      ensures Text.IsInt32(h)
      ensures (h - (923521 * IntegerHash(id) + 29791 * IntegerHash(postId) + 961 * TextHash(name)
                    + 31 * TextHash(email) + TextHash(body))) % Modulus == 0
    {
      Hash5(IntegerHash(id), IntegerHash(postId), TextHash(name), TextHash(email), TextHash(body))
    }
  }

  lemma CommentEqualsIsEquivalence(a: Comment, b: Comment, c: Comment)
    ensures a.Equals(a)
    ensures !a.Equals(null)
    ensures a.Equals(b) == b.Equals(a)
    ensures a.Equals(b) && b.Equals(c) ==> a.Equals(c)
  {
  }

  lemma CommentHashConsistent(a: Comment, b: Comment)
    requires a.Equals(b)
    ensures a.HashCode() == b.HashCode()
  {
  }

  /** A Post is never equal to a Comment, whatever their fields. */
  lemma PostNeverEqualsComment(p: Post, c: Comment)
    ensures !p.Equals(c) && !c.Equals(p)
  {
  }

  // ---------------------------------------------------------------------
  // User

  /** The User fields DataValidator reads. */
  datatype User = User(id: Option<Int32>, name: Option<string>, username: Option<string>, email: Option<string>)
}
