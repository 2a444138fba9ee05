/** TestDataHelper: fixture factories and generators. Every value the source
    draws from `Random` or reads from `System.currentTimeMillis()` is a
    parameter here; a draw from `nextInt(n)` is a number in [0, n). */
module TestData {
  import opened Results
  import Text
  import opened Models
  import DV = DataValidator

  const Uppercase: string := "ABCDEFGHIJKLMNOPQRSTUVWXYZ"
  const Lowercase: string := "abcdefghijklmnopqrstuvwxyz"
  const Digits: string := "0123456789"

  /** The characters generateRandomString picks from, in the source's order. */
  const Alphabet: string := Uppercase + Lowercase + Digits

  /** The alphabet is the source's 62-character literal, and every character
      of it is an ASCII letter or digit. */
  lemma AlphabetIsAlphanumeric()
    ensures Alphabet == "ABCDEFGHIJKLMNOPQRSTUVWXYZabcdefghijklmnopqrstuvwxyz0123456789"
    ensures |Alphabet| == 62
    ensures forall i :: 0 <= i < |Alphabet| ==> DV.IsAsciiAlphanumeric(Alphabet[i])
  {
    AlphabetLiteral();
    AllAlphanumeric(Uppercase);
    AllAlphanumeric(Lowercase);
    AllAlphanumeric(Digits);
    assert |Alphabet| == 62;
    forall i | 0 <= i < 62 ensures DV.IsAsciiAlphanumeric(Alphabet[i]) {
      if i < 26 {
        assert Alphabet[i] == Uppercase[i];
      } else if i < 52 {
        assert Alphabet[i] == Lowercase[i - 26];
      } else {
        assert Alphabet[i] == Digits[i - 52];
      }
    }
  }

  /** The three groups spell out the source's 62-character literal. */
  lemma AlphabetLiteral()
    ensures Alphabet == "ABCDEFGHIJKLMNOPQRSTUVWXYZabcdefghijklmnopqrstuvwxyz0123456789"
  {
    // Appending short pieces one at a time keeps each sequence equality small.
    var a10, k10, u6 := "abcdefghij", "klmnopqrst", "uvwxyz";
    assert Lowercase == a10 + k10 + u6;
    assert Uppercase + a10 == "ABCDEFGHIJKLMNOPQRSTUVWXYZabcdefghij";
    assert Uppercase + a10 + k10 == "ABCDEFGHIJKLMNOPQRSTUVWXYZabcdefghijklmnopqrst";
    assert Uppercase + a10 + k10 + u6 == "ABCDEFGHIJKLMNOPQRSTUVWXYZabcdefghijklmnopqrstuvwxyz";
    assert Uppercase + (a10 + k10 + u6) == Uppercase + a10 + k10 + u6;
  }

  /** Each of the three character groups holds only ASCII letters and digits. */
  lemma AllAlphanumeric(group: string)
    requires group == Uppercase || group == Lowercase || group == Digits
    ensures forall i :: 0 <= i < |group| ==> DV.IsAsciiAlphanumeric(group[i])
  {
  }

  /** generateRandomString(length): one character of the alphabet per draw,
      `length` of them (none for a negative length). */
  method GenerateRandomString(length: int, draws: seq<int>) returns (r: string)
    requires length <= |draws|
    requires forall i :: 0 <= i < |draws| ==> 0 <= draws[i] < 62
    ensures |r| == if length < 0 then 0 else length
    ensures forall i :: 0 <= i < |r| ==> r[i] == Alphabet[draws[i]]
    ensures forall i :: 0 <= i < |r| ==> DV.IsAsciiAlphanumeric(r[i])
  {
    AlphabetIsAlphanumeric();
    r := "";
    var i := 0;
    while i < length
      invariant 0 <= i <= |draws|
      invariant length >= 0 ==> i <= length
      invariant length < 0 ==> i == 0
      invariant |r| == i
      invariant forall k :: 0 <= k < i ==> r[k] == Alphabet[draws[k]]
    {
      r := r + [Alphabet[draws[i]]];
      i := i + 1;
    }
  }

  /** A non-empty alphanumeric string is an atom of the local part and a
      label of the domain. */
  lemma AlphanumericIsAtomAndLabel(s: string)
    requires |s| > 0 && forall i :: 0 <= i < |s| ==> DV.IsAsciiAlphanumeric(s[i])
    ensures DV.IsAtom(s) && DV.IsLabel(s)
  {
  }

  /** generateRandomEmail: eight characters, '@', five characters, ".com";
      the result always passes isValidEmail. */
  method GenerateRandomEmail(userDraws: seq<int>, domainDraws: seq<int>) returns (email: string)
    requires |userDraws| == 8 && |domainDraws| == 5
    requires forall i :: 0 <= i < 8 ==> 0 <= userDraws[i] < 62
    requires forall i :: 0 <= i < 5 ==> 0 <= domainDraws[i] < 62
    ensures |email| == 18
    ensures email[8] == '@' && email[14..] == ".com"
    ensures DV.IsValidEmail(Some(email))
  {
    var user := GenerateRandomString(8, userDraws);
    var domain := GenerateRandomString(5, domainDraws);
    email := user + "@" + domain + ".com";
    AlphanumericIsAtomAndLabel(user);
    AlphanumericIsAtomAndLabel(domain);
    assert DV.IsTopLevel("com");
    DV.PatternIsWellFormed([user], [domain], "com");
    assert Text.Join([domain, "com"], ".") == domain + "." + "com" by {
      assert [domain, "com"][1..] == ["com"];
    }
    assert DV.EmailOf([user], [domain], "com") == email;
  }

  /** generateRandomInt(min, max): `nextInt(max - min + 1) + min` in 32-bit
      arithmetic; None where the bound is not positive and nextInt throws.
      `draw` is what nextInt returned for that bound. */
  function GenerateRandomInt(min: int, max: int, draw: int): (r: Option<int>)
    requires Text.IsInt32(min) && Text.IsInt32(max)
    requires Text.Wrap32(max - min + 1) > 0 ==> 0 <= draw < Text.Wrap32(max - min + 1)
    ensures r.None? <==> Text.Wrap32(max - min + 1) <= 0
    ensures r.Some? ==> Text.IsInt32(r.value)
  {
    var bound := Text.Wrap32(max - min + 1);
    if bound <= 0 then None else Some(Text.Wrap32(draw + min))
  }

  /** When the range [min, max] is non-empty and its size fits in an int,
      the result lies in it; a reversed range throws. */
  lemma RandomIntInRange(min: int, max: int, draw: int)
    requires Text.IsInt32(min) && Text.IsInt32(max)
    requires min <= max && max - min < Text.IntMax
    requires 0 <= draw < max - min + 1
    ensures GenerateRandomInt(min, max, draw).Some?
    ensures min <= GenerateRandomInt(min, max, draw).value <= max
  {
  }

  lemma RandomIntReversedThrows(min: int, max: int)
    requires Text.IsInt32(min) && Text.IsInt32(max)
    requires max < min && min - max <= Text.IntMax
    ensures GenerateRandomInt(min, max, 0).None?
  {
  }

  // ---------------------------------------------------------------------
  // Long text

  const BaseText: string := "This is a long text for testing purposes. "

  /** The first `n` characters of the base text repeated without end. */
  function RepeatedBase(n: nat): (s: string)
    ensures |s| == n
  {
    seq(n, i requires 0 <= i < n => BaseText[i % |BaseText|])
  }

  /** The repeated text has period 42: one more copy in front shifts it. */
  lemma RepeatedBasePeriodic(n: nat)
    ensures |BaseText| == 42
    ensures RepeatedBase(n + 42) == BaseText + RepeatedBase(n)
  {
    var a := RepeatedBase(n + 42);
    var rest := RepeatedBase(n);
    var b := BaseText + rest;
    assert |BaseText| == 42;
    forall i | 0 <= i < n + 42 ensures a[i] == b[i] {
      if i >= 42 {
        ModPeriod(i);
        assert b[i] == rest[i - 42];
      } else {
        assert i % 42 == i;
      }
    }
    assert a == b;
  }

  /** Taking 42 away keeps the remainder modulo 42. */
  lemma ModPeriod(i: int)
    requires i >= 42
    ensures i % 42 == (i - 42) % 42
  {
    var q, r := (i - 42) / 42, (i - 42) % 42;
    assert i == 42 * (q + 1) + r;
  }

  /** Shifting by a multiple of 42 keeps the remainder. */
  lemma ModShift(i: int, k: int)
    requires k >= 0 && k % 42 == 0 && k <= i < k + 42
    ensures i % 42 == i - k
  {
    var q := k / 42;
    assert k == 42 * q;
    assert i == 42 * q + (i - k);
  }

  /** generateLongText(length): appends the 42-character base text until
      the builder holds at least `length` characters, then cuts it to
      `length`. A negative length makes `substring` throw (None). */
  method GenerateLongText(length: int) returns (r: Option<string>)
    ensures r.Some? <==> length >= 0
    ensures r.Some? ==> r.value == RepeatedBase(length)
    ensures r.Some? ==> |r.value| == length && forall i :: 0 <= i < length ==> r.value[i] == BaseText[i % 42]
  {
    var longText := "";
    while |longText| < length
      invariant |longText| % 42 == 0
      invariant length >= 0 ==> |longText| < length + 42
      invariant forall i :: 0 <= i < |longText| ==> longText[i] == BaseText[i % 42]
      decreases length - |longText|
    {
      forall i | |longText| <= i < |longText| + 42
        ensures (longText + BaseText)[i] == BaseText[i % 42]
      {
        ModShift(i, |longText|);
      }
      longText := longText + BaseText;
    }
    if length < 0 {
      return None;
    }
    r := Some(longText[..length]);
  }

  // ---------------------------------------------------------------------
  // Fixtures

  /** String concatenation of an Integer that may be null. */
  function ShowInteger(x: Option<Int32>): string {
    if x.Some? then Text.IntToString(x.value) else "null"
  }

  /** createTestPost(): userId from nextInt(10) + 1, title and body stamped
      with two clock readings; the id is left null. */
  method CreateTestPost(draw: int, time1: int, time2: int) returns (post: Post)
    requires 0 <= draw < 10
    ensures fresh(post)
    ensures post.Value() == PostData(None, Some(draw + 1),
      Some("Test Post Title " + Text.IntToString(time1)),
      Some("This is a test post body created at " + Text.IntToString(time2)))
    ensures 1 <= post.userId.value <= 10
  {
    post := new Post.WithoutId(Some(draw + 1), Some("Test Post Title " + Text.IntToString(time1)),
      Some("This is a test post body created at " + Text.IntToString(time2)));
  }

  /** createTestPost(userId). */
  method CreateTestPostFor(userId: Option<Int32>, time1: int, time2: int) returns (post: Post)
    ensures fresh(post)
    ensures post.Value() == PostData(None, userId,
      Some("Test Post Title for User " + ShowInteger(userId) + " - " + Text.IntToString(time1)),
      Some("This is a test post body for user " + ShowInteger(userId) + " created at " + Text.IntToString(time2)))
  {
    post := new Post.WithoutId(userId,
      Some("Test Post Title for User " + ShowInteger(userId) + " - " + Text.IntToString(time1)),
      Some("This is a test post body for user " + ShowInteger(userId) + " created at " + Text.IntToString(time2)));
  }

  /** createUpdatePost(id, userId). */
  method CreateUpdatePost(id: Option<Int32>, userId: Option<Int32>, time1: int, time2: int) returns (post: Post)
    ensures fresh(post)
    ensures post.Value() == PostData(id, userId,
      Some("Updated Post Title " + Text.IntToString(time1)),
      Some("This is an updated post body at " + Text.IntToString(time2)))
  {
    post := new Post.WithId(id, userId, Some("Updated Post Title " + Text.IntToString(time1)),
      Some("This is an updated post body at " + Text.IntToString(time2)));
  }

  /** An update post with a positive id and user id passes validatePost:
      its stamped title and body are never blank. */
  lemma UpdatePostIsValid(id: Int32, userId: Int32, time1: int, time2: int)
    requires id > 0 && userId > 0
    ensures DV.ValidatePost(Some(PostData(Some(id), Some(userId),
      Some("Updated Post Title " + Text.IntToString(time1)),
      Some("This is an updated post body at " + Text.IntToString(time2))))).Pass?
  {
    var title := "Updated Post Title " + Text.IntToString(time1);
    var body := "This is an updated post body at " + Text.IntToString(time2);
    assert title[0] > ' ';
    assert body[0] > ' ';
  }

  /** The characters of Integer/Long.toString are digits and '-'. */
  lemma DecimalTextIsLocalText(n: int)
    ensures forall i :: 0 <= i < |Text.IntToString(n)| ==> DV.IsLocalChar(Text.IntToString(n)[i])
  {
  }

  /** "<prefix><time>@example.com" is a valid address for every clock value
      when the prefix is non-empty and alphanumeric. */
  lemma StampedEmailIsValid(prefix: string, time: int)
    requires |prefix| > 0 && forall i :: 0 <= i < |prefix| ==> DV.IsAsciiAlphanumeric(prefix[i])
    ensures DV.IsValidEmail(Some(prefix + Text.IntToString(time) + "@example.com"))
  {
    var atom := prefix + Text.IntToString(time);
    DecimalTextIsLocalText(time);
    assert DV.IsAtom(atom) by {
      forall i | 0 <= i < |atom| ensures DV.IsLocalChar(atom[i]) {
        if i >= |prefix| {
          assert atom[i] == Text.IntToString(time)[i - |prefix|];
        }
      }
    }
    assert DV.IsLabel("example");
    assert DV.IsTopLevel("com");
    DV.PatternIsWellFormed([atom], ["example"], "com");
    assert Text.Join(["example", "com"], ".") == "example.com" by {
      assert ["example", "com"][1..] == ["com"];
    }
    assert DV.EmailOf([atom], ["example"], "com") == prefix + Text.IntToString(time) + "@example.com";
  }

  /** createTestUser(): name, username and e-mail from one clock reading;
      the id is left null. */
  function CreateTestUser(timestamp: int): (user: User)
    ensures user.id.None?
    ensures DV.IsValidEmail(user.email)
  {
    StampedEmailIsValid("testuser", timestamp);
    User(None, Some("Test User " + Text.IntToString(timestamp)), Some("testuser" + Text.IntToString(timestamp)),
      Some("testuser" + Text.IntToString(timestamp) + "@example.com"))
  }

  /** createTestComment(): postId from nextInt(100) + 1, and three clock
      readings for the name, e-mail and body; the id is left null. */
  method CreateTestComment(draw: int, time1: int, time2: int, time3: int) returns (comment: Comment)
    requires 0 <= draw < 100
    ensures fresh(comment)
    ensures comment.Value() == CommentData(None, Some(draw + 1),
      Some("Test Comment " + Text.IntToString(time1)),
      Some("testcommenter" + Text.IntToString(time2) + "@example.com"),
      Some("This is a test comment created at " + Text.IntToString(time3)))
    ensures 1 <= comment.postId.value <= 100
    ensures DV.IsValidEmail(comment.email)
  {
    StampedEmailIsValid("testcommenter", time2);
    comment := new Comment.WithoutId(Some(draw + 1), Some("Test Comment " + Text.IntToString(time1)),
      Some("testcommenter" + Text.IntToString(time2) + "@example.com"),
      Some("This is a test comment created at " + Text.IntToString(time3)));
  }

  /** createTestComment(postId). */
  method CreateTestCommentFor(postId: Option<Int32>, time1: int, time2: int, time3: int) returns (comment: Comment)
    ensures fresh(comment)
    ensures comment.Value() == CommentData(None, postId,
      Some("Test Comment for Post " + ShowInteger(postId) + " - " + Text.IntToString(time1)),
      Some("testcommenter" + Text.IntToString(time2) + "@example.com"),
      Some("This is a test comment for post " + ShowInteger(postId) + " created at " + Text.IntToString(time3)))
    ensures DV.IsValidEmail(comment.email)
  {
    StampedEmailIsValid("testcommenter", time2);
    comment := new Comment.WithoutId(postId,
      Some("Test Comment for Post " + ShowInteger(postId) + " - " + Text.IntToString(time1)),
      Some("testcommenter" + Text.IntToString(time2) + "@example.com"),
      Some("This is a test comment for post " + ShowInteger(postId) + " created at " + Text.IntToString(time3)));
  }

  /** createInvalidPost: null userId, empty title, null body. It fails
      validatePost, and each of those fields fails its own check. */
  method CreateInvalidPost() returns (post: Post)
    ensures fresh(post)
    ensures post.Value() == PostData(None, None, Some(""), None)
    ensures DV.ValidatePost(Some(post.Value())).Fail?
    ensures DV.ValidateId(post.userId, "User ID").Fail?
    ensures DV.ValidateStringNotEmpty(post.title, "Post title").Fail?
    ensures DV.ValidateStringNotEmpty(post.body, "Post body").Fail?
  {
    post := new Post.WithoutId(None, Some(""), None);
  }

  /** createInvalidUser: empty name, null username, "invalid-email". */
  function CreateInvalidUser(): (user: User)
    ensures DV.ValidateUser(Some(user)).Fail?
    ensures DV.ValidateStringNotEmpty(user.name, "User name").Fail?
    ensures DV.ValidateStringNotEmpty(user.username, "Username").Fail?
    ensures !DV.IsValidEmail(user.email)
  {
    DV.InvalidEmailRejected();
    User(None, Some(""), None, Some("invalid-email"))
  }

  /** createInvalidComment: null postId, empty name, "invalid-email", null
      body. */
  method CreateInvalidComment() returns (comment: Comment)
    ensures fresh(comment)
    ensures comment.Value() == CommentData(None, None, Some(""), Some("invalid-email"), None)
    ensures DV.ValidateComment(Some(comment.Value())).Fail?
    ensures DV.ValidateId(comment.postId, "Post ID").Fail?
    ensures DV.ValidateStringNotEmpty(comment.name, "Comment name").Fail?
    ensures !DV.IsValidEmail(comment.email)
    ensures DV.ValidateStringNotEmpty(comment.body, "Comment body").Fail?
  {
    DV.InvalidEmailRejected();
    comment := new Comment.WithoutId(None, Some(""), Some("invalid-email"), None);
  }
}
