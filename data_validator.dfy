/** DataValidator: field-level checks on the entity records, the list
    checks, the id-insensitive post comparison and the e-mail recogniser.
    A record is the field snapshot the validator reads through its getters;
    None is a null reference. */
module DataValidator {
  import opened Results
  import Text
  import opened Models

  // ---------------------------------------------------------------------
  // E-mail syntax: ^[a-zA-Z0-9_+&*-]+(?:\.[a-zA-Z0-9_+&*-]+)*@(?:[a-zA-Z0-9-]+\.)+[a-zA-Z]{2,7}$

  predicate IsAsciiLetter(c: char) {
    ('a' <= c <= 'z') || ('A' <= c <= 'Z')
  }

  predicate IsAsciiAlphanumeric(c: char) {
    IsAsciiLetter(c) || ('0' <= c <= '9')
  }

  /** The class `[a-zA-Z0-9_+&*-]` of the local part. */
  predicate IsLocalChar(c: char) {
    IsAsciiAlphanumeric(c) || c == '_' || c == '+' || c == '&' || c == '*' || c == '-'
  }

  /** The class `[a-zA-Z0-9-]` of a domain label. */
  predicate IsLabelChar(c: char) {
    IsAsciiAlphanumeric(c) || c == '-'
  }

  predicate IsAtom(s: string) {
    |s| > 0 && forall i :: 0 <= i < |s| ==> IsLocalChar(s[i])
  }

  predicate IsLabel(s: string) {
    |s| > 0 && forall i :: 0 <= i < |s| ==> IsLabelChar(s[i])
  }

  /** `[a-zA-Z]{2,7}`: the final label. */
  predicate IsTopLevel(s: string) {
    2 <= |s| <= 7 && forall i :: 0 <= i < |s| ==> IsAsciiLetter(s[i])
  }

  predicate AllAtoms(atoms: seq<string>) {
    forall i :: 0 <= i < |atoms| ==> IsAtom(atoms[i])
  }

  predicate AllLabels(labels: seq<string>) {
    forall i :: 0 <= i < |labels| ==> IsLabel(labels[i])
  }

  /** The address the pattern's pieces spell: atoms joined by dots, '@',
      then each label followed by a dot, then the top-level label. */
  function EmailOf(atoms: seq<string>, labels: seq<string>, top: string): string {
    Text.Join(atoms, ".") + "@" + Text.Join(labels + [top], ".")
  }

  /** The language of the pattern, stated by its structure. */
  ghost predicate MatchesEmailPattern(s: string) {
    exists atoms: seq<string>, labels: seq<string>, top: string {:trigger EmailOf(atoms, labels, top)} ::
      && |atoms| >= 1 && AllAtoms(atoms)
      && |labels| >= 1 && AllLabels(labels)
      && IsTopLevel(top)
      && s == EmailOf(atoms, labels, top)
  }

  /** The recogniser: one '@', dot-separated atoms before it, and at least
      two dot-separated labels after it, the last being 2 to 7 letters. */
  predicate IsWellFormedAddress(s: string) {
    var parts := Text.Split(s, '@');
    && |parts| == 2
    && AllAtoms(Text.Split(parts[0], '.'))
    && var labels := Text.Split(parts[1], '.');
    && |labels| >= 2
    && AllLabels(labels[..|labels| - 1])
    && IsTopLevel(labels[|labels| - 1])
  }

  /** isValidEmail: non-null and matched in full by the pattern. */
  function IsValidEmail(email: Option<string>): (valid: bool)
    ensures valid <==> email.Some? && MatchesEmailPattern(email.value)
  {
    assert email.Some? ==> (IsWellFormedAddress(email.value) <==> MatchesEmailPattern(email.value)) by {
      if email.Some? {
        RecogniserMatchesPattern(email.value);
      }
    }
    email.Some? && IsWellFormedAddress(email.value)
  }

  /** The recogniser accepts exactly the pattern's language. */
  lemma RecogniserMatchesPattern(s: string)
    ensures IsWellFormedAddress(s) <==> MatchesEmailPattern(s)
  {
    if IsWellFormedAddress(s) {
      WellFormedMatches(s);
    }
    if MatchesEmailPattern(s) {
      var atoms: seq<string>, labels: seq<string>, top: string :|
        && |atoms| >= 1 && AllAtoms(atoms)
        && |labels| >= 1 && AllLabels(labels)
        && IsTopLevel(top)
        && s == EmailOf(atoms, labels, top);
      PatternIsWellFormed(atoms, labels, top);
    }
  }

  lemma WellFormedMatches(s: string)
    requires IsWellFormedAddress(s)
    ensures MatchesEmailPattern(s)
  {
    var parts := Text.Split(s, '@');
    var atoms := Text.Split(parts[0], '.');
    var all := Text.Split(parts[1], '.');
    var labels := all[..|all| - 1];
    var top := all[|all| - 1];
    Text.JoinOfSplit(s, '@');
    Text.JoinOfSplit(parts[0], '.');
    Text.JoinOfSplit(parts[1], '.');
    assert parts[1..] == [parts[1]];
    assert s == parts[0] + "@" + parts[1];
    assert all == labels + [top];
    assert s == EmailOf(atoms, labels, top);
  }

  lemma PatternIsWellFormed(atoms: seq<string>, labels: seq<string>, top: string)
    requires |atoms| >= 1 && AllAtoms(atoms)
    requires |labels| >= 1 && AllLabels(labels)
    requires IsTopLevel(top)
    ensures IsWellFormedAddress(EmailOf(atoms, labels, top))
  {
    var local := Text.Join(atoms, ".");
    var all := labels + [top];
    var domain := Text.Join(all, ".");
    assert forall i :: 0 <= i < |atoms| ==> '@' !in atoms[i] && '.' !in atoms[i] by {
      forall i | 0 <= i < |atoms| ensures '@' !in atoms[i] && '.' !in atoms[i] {
        assert IsAtom(atoms[i]);
      }
    }
    assert forall i :: 0 <= i < |all| ==> '@' !in all[i] && '.' !in all[i] by {
      forall i | 0 <= i < |all| ensures '@' !in all[i] && '.' !in all[i] {
        if i < |labels| {
          assert IsLabel(labels[i]);
        } else {
          assert all[i] == top;
        }
      }
    }
    Text.JoinLacksChar(atoms, ".", '@');
    Text.JoinLacksChar(all, ".", '@');
    Text.SplitAppend(local, domain, '@');
    Text.SplitWithoutSeparator(local, '@');
    Text.SplitWithoutSeparator(domain, '@');
    assert EmailOf(atoms, labels, top) == local + ['@'] + domain;
    Text.SplitOfJoin(atoms, '.');
    Text.SplitOfJoin(all, '.');
    assert all[..|all| - 1] == labels;
  }

  /** A string without '@' is rejected, as is null. */
  lemma EmailWithoutAtRejected(s: string)
    requires '@' !in s
    ensures !IsValidEmail(Some(s)) && !IsValidEmail(None)
  {
    Text.SplitWithoutSeparator(s, '@');
  }

  /** The fixture address "invalid-email" has no '@' and is rejected. */
  lemma InvalidEmailRejected()
    ensures !IsValidEmail(Some("invalid-email"))
  {
    var s := "invalid-email";
    assert forall i :: 0 <= i < |s| ==> s[i] != '@';
    EmailWithoutAtRejected(s);
  }

  /** A plain address with a three-letter top-level label is accepted. */
  lemma PlainEmailAccepted()
    ensures IsValidEmail(Some("Eliseo@gardner.biz"))
  {
    assert IsAtom("Eliseo");
    assert IsLabel("gardner");
    assert IsTopLevel("biz");
    PatternIsWellFormed(["Eliseo"], ["gardner"], "biz");
    assert Text.Join(["gardner", "biz"], ".") == "gardner" + "." + "biz" by {
      assert ["gardner", "biz"][1..] == ["biz"];
    }
    assert EmailOf(["Eliseo"], ["gardner"], "biz") == "Eliseo@gardner.biz";
  }

  // ---------------------------------------------------------------------
  // Field checks

  /** validateId: non-null, then positive. */
  function ValidateId(id: Option<int>, fieldName: string): (c: Check)
    ensures c.Pass? <==> id.Some? && id.value > 0
    ensures id.None? ==> c == Fail(fieldName + " not null", "null")
  {
    Require(id.Some?, fieldName + " not null", "null")
      .Then(Require(id.Some? && id.value > 0, fieldName + " > 0",
        if id.Some? then Text.IntToString(id.value) else "null"))
  }

  /** validateStringNotEmpty: non-null, then a non-empty `trim()`. */
  function ValidateStringNotEmpty(value: Option<string>, fieldName: string): (c: Check)
    ensures c.Pass? <==> value.Some? && Text.HasVisibleChar(value.value)
    ensures value.None? ==> c == Fail(fieldName + " not null", "null")
  {
    assert value.Some? ==> (Text.Trim(value.value) == "" <==> !Text.HasVisibleChar(value.value)) by {
      if value.Some? {
        Text.TrimIsEmptyIff(value.value);
      }
    }
    Require(value.Some?, fieldName + " not null", "null")
      .Then(Require(value.Some? && Text.Trim(value.value) != "", fieldName + " not empty", OrEmpty(value)))
  }

  function OrEmpty(value: Option<string>): string {
    value.GetOr("")
  }

  /** A non-null e-mail accepted by isValidEmail. */
  function ValidateEmail(email: Option<string>, fieldName: string): (c: Check)
    ensures c.Pass? <==> IsValidEmail(email)
  {
    Require(email.Some?, fieldName + " not null", "null")
      .Then(Require(IsValidEmail(email), fieldName + " well-formed", OrEmpty(email)))
  }

  function Present<T>(x: Option<T>, what: string): (c: Check)
    ensures c.Pass? <==> x.Some?
  {
    Require(x.Some?, what + " not null", "null")
  }

  /** validatePost: the post, then id > 0, userId > 0, and a title and body
      each with a character above U+0020, in that order. */
  function ValidatePost(post: Option<PostData>): (c: Check)
    ensures c.Pass? <==>
      && post.Some?
      && post.value.id.Some? && post.value.id.value > 0
      && post.value.userId.Some? && post.value.userId.value > 0
      && post.value.title.Some? && Text.HasVisibleChar(post.value.title.value)
      && post.value.body.Some? && Text.HasVisibleChar(post.value.body.value)
    ensures post.Some? && post.value.id.Some? && post.value.id.value > 0 && post.value.userId.None? ==>
      c == Fail("User ID not null", "null")
  {
    match post
    case None => Present(post, "Post")
    case Some(p) =>
      ValidateId(p.id, "Post ID")
        .Then(ValidateId(p.userId, "User ID"))
        .Then(ValidateStringNotEmpty(p.title, "Post title"))
        .Then(ValidateStringNotEmpty(p.body, "Post body"))
  }

  /** validateUser: id > 0, a visible name and username, then a valid
      e-mail. */
  function ValidateUser(user: Option<User>): (c: Check)
    ensures c.Pass? <==>
      && user.Some?
      && user.value.id.Some? && user.value.id.value > 0
      && user.value.name.Some? && Text.HasVisibleChar(user.value.name.value)
      && user.value.username.Some? && Text.HasVisibleChar(user.value.username.value)
      && user.value.email.Some? && MatchesEmailPattern(user.value.email.value)
  {
    match user
    case None => Present(user, "User")
    case Some(u) =>
      ValidateId(u.id, "User ID")
        .Then(ValidateStringNotEmpty(u.name, "User name"))
        .Then(ValidateStringNotEmpty(u.username, "Username"))
        .Then(ValidateEmail(u.email, "User email"))
  }

  /** validateComment: id > 0, postId > 0, a visible name, a valid e-mail,
      then a visible body. */
  function ValidateComment(comment: Option<CommentData>): (c: Check)
    ensures c.Pass? <==>
      && comment.Some?
      && comment.value.id.Some? && comment.value.id.value > 0
      && comment.value.postId.Some? && comment.value.postId.value > 0
      && comment.value.name.Some? && Text.HasVisibleChar(comment.value.name.value)
      && comment.value.email.Some? && MatchesEmailPattern(comment.value.email.value)
      && comment.value.body.Some? && Text.HasVisibleChar(comment.value.body.value)
  {
    match comment
    case None => Present(comment, "Comment")
    case Some(m) =>
      ValidateId(m.id, "Comment ID")
        .Then(ValidateId(m.postId, "Post ID"))
        .Then(ValidateStringNotEmpty(m.name, "Comment name"))
        .Then(ValidateEmail(m.email, "Comment email"))
        .Then(ValidateStringNotEmpty(m.body, "Comment body"))
  }

  // ---------------------------------------------------------------------
  // Lists

  /** The for-each loop: the first failing element's check, or Pass. */
  function ValidateEach<T>(xs: seq<T>, check: T -> Check): (c: Check)
    ensures c.Pass? <==> forall i :: 0 <= i < |xs| ==> check(xs[i]).Pass?
    ensures c.Fail? ==>
      exists i :: 0 <= i < |xs| && check(xs[i]) == c && forall j :: 0 <= j < i ==> check(xs[j]).Pass?
  {
    if |xs| == 0 then Pass
    else
      var rest := ValidateEach(xs[1..], check);
      assert forall i :: 1 <= i < |xs| ==> xs[i] == xs[1..][i - 1];
      check(xs[0]).Then(rest)
  }

  /** validate*List: non-null, at least `expectedMinSize` elements, then
      every element in order. */
  function ValidateList<T>(xs: Option<seq<T>>, expectedMinSize: int, what: string, check: T -> Check): (c: Check)
    ensures c.Pass? <==>
      && xs.Some?
      && |xs.value| >= expectedMinSize
      && forall i :: 0 <= i < |xs.value| ==> check(xs.value[i]).Pass?
  {
    Present(xs, what)
      .Then(Require(xs.Some? && |xs.value| >= expectedMinSize, what + " size >= " + Text.IntToString(expectedMinSize),
        if xs.Some? then Text.IntToString(|xs.value|) else "null"))
      .Then(if xs.Some? then ValidateEach(xs.value, check) else Pass)
  }

  function ValidatePostList(posts: Option<seq<Option<PostData>>>, expectedMinSize: int): (c: Check)
    ensures c.Pass? <==>
      posts.Some? && |posts.value| >= expectedMinSize &&
      forall i :: 0 <= i < |posts.value| ==> ValidatePost(posts.value[i]).Pass?
  {
    ValidateList(posts, expectedMinSize, "Post list", ValidatePost)
  }

  function ValidateUserList(users: Option<seq<Option<User>>>, expectedMinSize: int): (c: Check)
    ensures c.Pass? <==>
      users.Some? && |users.value| >= expectedMinSize &&
      forall i :: 0 <= i < |users.value| ==> ValidateUser(users.value[i]).Pass?
  {
    ValidateList(users, expectedMinSize, "User list", ValidateUser)
  }

  function ValidateCommentList(comments: Option<seq<Option<CommentData>>>, expectedMinSize: int): (c: Check)
    ensures c.Pass? <==>
      comments.Some? && |comments.value| >= expectedMinSize &&
      forall i :: 0 <= i < |comments.value| ==> ValidateComment(comments.value[i]).Pass?
  {
    ValidateList(comments, expectedMinSize, "Comment list", ValidateComment)
  }

  /** A list holding a null element fails whatever the minimum, and every
      list fails a minimum above its length. */
  lemma PostListExamples(posts: seq<Option<PostData>>, k: int, min: int)
    requires 0 <= k < |posts| && posts[k].None?
    ensures ValidatePostList(Some(posts), min).Fail?
    ensures ValidatePostList(Some(posts), |posts| + 1).Fail?
  {
    assert ValidatePost(posts[k]).Fail?;
  }

  // ---------------------------------------------------------------------
  // Comparing posts

  /** validatePostEquals: userId, then title, then body must be equal; the
      id is not compared. */
  function ValidatePostEquals(expected: PostData, actual: PostData): (c: Check)
    ensures c.Pass? <==>
      expected.userId == actual.userId && expected.title == actual.title && expected.body == actual.body
  {
    Require(NullSafeEquals(expected.userId, actual.userId), "User ID match", "mismatch")
      .Then(Require(NullSafeEquals(expected.title, actual.title), "title match", "mismatch"))
      .Then(Require(NullSafeEquals(expected.body, actual.body), "body match", "mismatch"))
  }

  /** Posts differing only in id pass, and a passing comparison of posts
      with the same id means the posts are equal under Post.equals. */
  lemma PostEqualsIgnoresId(expected: PostData, id: Option<Int32>)
    ensures ValidatePostEquals(expected, expected.(id := id)).Pass?
  {
  }

  lemma PostEqualsAgreesWithEquals(a: Post, b: Post)
    requires a.id == b.id
    ensures ValidatePostEquals(a.Value(), b.Value()).Pass? <==> a.Equals(b)
  {
  }
}
