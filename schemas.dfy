/** The request-body schemas of controllers/joi-schema.js: each schema is the list of
    its keys, each key the list of rules Joi checks for it in order, with the custom
    messages the schema declares. Validation reports the message of the first rule
    that fails, as Joi does when it stops at the first error. */
module Schemas {
  import opened Wrappers
  import opened Text

  /** A JSON value of a request body, as far as the schemas look at it. */
  datatype Json = JStr(s: string) | JNum(x: real) | JOther

  /** A request body: its keys and their values. */
  type Body = map<string, Json>

  function Lookup(body: Body, name: string): (v: Option<Json>) {
    if name in body then Some(body[name]) else None
  }

  /** The rules a key can declare, in the order Joi checks them: presence first,
      then the type, then (for strings) emptiness and (for numbers) the safe range,
      then the declared rules. */
  datatype Rule =
    | Required
    | StringType
    | NotEmpty
    | Alphanum
    | MinLength(n: nat)
    | MaxLength(n: nat)
    | NumberType
    | SafeNumber
    | Integer
    | MinValue(m: int)
    | MaxValue(m: int)

  predicate IsInteger(x: real) {
    x.Floor as real == x
  }

  /** `Number.MAX_SAFE_INTEGER`, 2^53 - 1. */
  const MaxSafeInteger: int := 9007199254740991

  /** Within the range Joi's number type accepts unless `unsafe()` is declared. */
  predicate IsSafeNumber(x: real) {
    -(MaxSafeInteger as real) <= x <= MaxSafeInteger as real
  }

  /** Whether the value `v` (None when the key is absent) breaks rule `r`.
      A rule about strings or numbers says nothing about a value of another type:
      the type rule reports that. */
  predicate Violates(r: Rule, v: Option<Json>) {
    match r
    case Required => v.None?
    case StringType => v.Some? && !v.value.JStr?
    case NotEmpty => v == Some(JStr(""))
    case Alphanum => v.Some? && v.value.JStr? && !IsAlphanumeric(v.value.s)
    case MinLength(n) => v.Some? && v.value.JStr? && |v.value.s| < n
    case MaxLength(n) => v.Some? && v.value.JStr? && |v.value.s| > n
    case NumberType => v.Some? && !v.value.JNum?
    case SafeNumber => v.Some? && v.value.JNum? && !IsSafeNumber(v.value.x)
    case Integer => v.Some? && v.value.JNum? && !IsInteger(v.value.x)
    case MinValue(m) => v.Some? && v.value.JNum? && v.value.x < m as real
    case MaxValue(m) => v.Some? && v.value.JNum? && v.value.x > m as real
  }

  /** Joi's error codes, the keys of a `.messages({...})` table. */
  datatype ErrorCode =
    | AnyRequired | StringBase | StringEmpty | StringAlphanum | StringMin | StringMax
    | NumberBase | NumberUnsafe | NumberInteger | NumberMin | NumberMax

  /** The error code Joi reports when rule `r` fails. */
  function Code(r: Rule): (c: ErrorCode) {
    match r
    case Required => AnyRequired
    case StringType => StringBase
    case NotEmpty => StringEmpty
    case Alphanum => StringAlphanum
    case MinLength(_) => StringMin
    case MaxLength(_) => StringMax
    case NumberType => NumberBase
    case SafeNumber => NumberUnsafe
    case Integer => NumberInteger
    case MinValue(_) => NumberMin
    case MaxValue(_) => NumberMax
  }

  /** Decimal digits of a natural number. */
  function NatToString(n: nat): (s: string)
    ensures |s| > 0
    ensures forall i :: 0 <= i < |s| ==> '0' <= s[i] <= '9'
    decreases n
  {
    var d := ['0' + (n % 10) as char];
    if n < 10 then d else NatToString(n / 10) + d
  }

  function IntToString(m: int): (s: string) {
    if m < 0 then "-" + NatToString(-m) else NatToString(m)
  }

  /** Joi's built-in message for a rule, used where the schema declares none. */
  function DefaultMessage(caption: string, r: Rule): (m: string)
    ensures |m| > |caption| + 2 && m[..|caption| + 2] == "\"" + caption + "\""
  {
    var q := "\"" + caption + "\"";
    match r
    case Required => q + " is required"
    case StringType => q + " must be a string"
    case NotEmpty => q + " is not allowed to be empty"
    case Alphanum => q + " must only contain alpha-numeric characters"
    case MinLength(n) => q + " length must be at least " + NatToString(n) + " characters long"
    case MaxLength(n) => q + " length must be less than or equal to " + NatToString(n) + " characters long"
    case NumberType => q + " must be a number"
    case SafeNumber => q + " must be a safe number"
    case Integer => q + " must be an integer"
    case MinValue(m) => q + " must be greater than or equal to " + IntToString(m)
    case MaxValue(m) => q + " must be less than or equal to " + IntToString(m)
  }

  /** One key of a `Joi.object`: its name, its rules in checking order and its custom messages. */
  datatype Key = Key(name: string, rules: seq<Rule>, messages: map<ErrorCode, string>)

  /** The message reported when rule `r` of key `k` fails. */
  function Message(k: Key, r: Rule): (msg: string)
    ensures Code(r) in k.messages ==> msg == k.messages[Code(r)]
    ensures Code(r) !in k.messages ==> msg == DefaultMessage(k.name, r)
    ensures Code(r) !in k.messages ==> msg[..|k.name| + 2] == "\"" + k.name + "\""
  {
    if Code(r) in k.messages then k.messages[Code(r)] else DefaultMessage(k.name, r)
  }

  /** The position of the first rule that `v` breaks, if any. */
  function FirstViolated(rules: seq<Rule>, v: Option<Json>): (r: Option<nat>)
    ensures r.Some? ==> r.value < |rules| && Violates(rules[r.value], v)
    ensures r.Some? ==> forall j :: 0 <= j < r.value ==> !Violates(rules[j], v)
    ensures r.None? <==> forall j :: 0 <= j < |rules| ==> !Violates(rules[j], v)
  {
    if rules == [] then None
    else if Violates(rules[0], v) then Some(0)
    else match FirstViolated(rules[1..], v)
      case None => None
      case Some(j) => Some(j + 1)
  }

  /** Key `k` of `body` passes every one of its rules. */
  predicate KeyPasses(k: Key, body: Body) {
    forall j :: 0 <= j < |k.rules| ==> !Violates(k.rules[j], Lookup(body, k.name))
  }

  /** The position of the first key, in schema order, that does not pass. */
  function FirstFailingKey(keys: seq<Key>, body: Body): (r: Option<nat>)
    ensures r.Some? ==> r.value < |keys| && !KeyPasses(keys[r.value], body)
    ensures r.Some? ==> forall i :: 0 <= i < r.value ==> KeyPasses(keys[i], body)
    ensures r.None? <==> forall i :: 0 <= i < |keys| ==> KeyPasses(keys[i], body)
  {
    if keys == [] then None
    else if !KeyPasses(keys[0], body) then Some(0)
    else match FirstFailingKey(keys[1..], body)
      case None => None
      case Some(i) => Some(i + 1)
  }

  /** `schema.validate(body)`: None when the body is valid, otherwise the message of
      the first failing rule of the first failing key (`error.details[0].message`). */
  function Validate(keys: seq<Key>, body: Body): (r: Option<string>)
    ensures r.None? <==> forall i :: 0 <= i < |keys| ==> KeyPasses(keys[i], body)
    ensures r.Some? ==>
      exists i, j :: 0 <= i < |keys| && 0 <= j < |keys[i].rules|
        && (forall i' :: 0 <= i' < i ==> KeyPasses(keys[i'], body))
        && Violates(keys[i].rules[j], Lookup(body, keys[i].name))
        && (forall j' :: 0 <= j' < j ==> !Violates(keys[i].rules[j'], Lookup(body, keys[i].name)))
        && r.value == Message(keys[i], keys[i].rules[j])
  {
    match FirstFailingKey(keys, body)
    case None => None
    case Some(i) =>
      var k := keys[i];
      var v := Lookup(body, k.name);
      match FirstViolated(k.rules, v)
      case Some(j) => Some(Message(k, k.rules[j]))
      case None => assert false; None
  }

  // ---- The four schemas of the application ----

  const BookSchema: seq<Key> := [
    Key("title", [Required, StringType, NotEmpty, MinLength(2), MaxLength(100)],
      map[
        StringMin := "Title must be at least 2 characters long",
        StringMax := "Title cannot exceed 100 characters",
        AnyRequired := "Title is required"]),
    Key("author", [Required, StringType, NotEmpty, MinLength(2), MaxLength(100)],
      map[
        StringMin := "Author must be at least 2 characters long",
        StringMax := "Author cannot exceed 100 characters",
        AnyRequired := "Author is required"]),
    Key("genre", [Required, StringType, NotEmpty, MinLength(2), MaxLength(100)],
      map[
        StringMin := "Genre must be at least 2 characters long",
        StringMax := "Genre cannot exceed 100 characters",
        AnyRequired := "Genre is required"])
  ]

  const ReviewSchema: seq<Key> := [
    Key("rating", [Required, NumberType, SafeNumber, Integer, MinValue(1), MaxValue(5)],
      map[
        NumberInteger := "Rating must be an integer",
        NumberMin := "Rating must be at least 1",
        NumberMax := "Rating cannot exceed 5",
        AnyRequired := "Rating is required"]),
    Key("comment", [Required, StringType, NotEmpty, MinLength(5), MaxLength(500)],
      map[
        StringMin := "Comment must be at least 5 characters long",
        StringMax := "Comment cannot exceed 500 characters",
        AnyRequired := "Comment is required"])
  ]

  const SignupSchema: seq<Key> := [
    Key("username", [Required, StringType, NotEmpty, Alphanum, MinLength(3), MaxLength(30)],
      map[
        StringAlphanum := "Username must only contain alphanumeric characters",
        StringMin := "Username must be at least 3 characters long",
        StringMax := "Username cannot exceed 30 characters",
        AnyRequired := "Username is required"]),
    Key("password", [Required, StringType, NotEmpty, MinLength(6)],
      map[
        StringMin := "Password must be at least 6 characters long",
        AnyRequired := "Password is required"])
  ]

  const LoginSchema: seq<Key> := [
    Key("username", [Required, StringType, NotEmpty], map[]),
    Key("password", [Required, StringType, NotEmpty], map[])
  ]

  // ---- What each schema accepts, stated directly ----

  /** The key is present and holds a string whose length lies in lo..hi. */
  predicate TextWithin(body: Body, name: string, lo: nat, hi: nat) {
    name in body && body[name].JStr? && lo <= |body[name].s| <= hi
  }

  predicate BookBodyValid(body: Body) {
    TextWithin(body, "title", 2, 100) && TextWithin(body, "author", 2, 100) && TextWithin(body, "genre", 2, 100)
  }

  predicate ReviewBodyValid(body: Body) {
    && "rating" in body && body["rating"].JNum?
    && IsInteger(body["rating"].x) && 1.0 <= body["rating"].x <= 5.0
    && TextWithin(body, "comment", 5, 500)
  }

  predicate SignupBodyValid(body: Body) {
    && TextWithin(body, "username", 3, 30) && IsAlphanumeric(body["username"].s)
    && "password" in body && body["password"].JStr? && |body["password"].s| >= 6
  }

  /** Login asks only for two strings; Joi still refuses the empty string. */
  predicate LoginBodyValid(body: Body) {
    && "username" in body && body["username"].JStr? && body["username"].s != ""
    && "password" in body && body["password"].JStr? && body["password"].s != ""
  }

  /** The rating of a valid review body, as the integer it is. */
  function RatingOf(body: Body): (r: int)
    requires ReviewBodyValid(body)
    ensures 1 <= r <= 5 && r as real == body["rating"].x
  {
    body["rating"].x.Floor
  }

  /** The comment of a valid review body. */
  function CommentOf(body: Body): (c: string)
    requires ReviewBodyValid(body)
    ensures 5 <= |c| <= 500
  {
    body["comment"].s
  }

  /** A key `Required, StringType, NotEmpty, MinLength(lo), MaxLength(hi)` passes exactly on strings of lo..hi characters. */
  lemma TextKeyPasses(k: Key, body: Body, lo: nat, hi: nat)
    requires k.rules == [Required, StringType, NotEmpty, MinLength(lo), MaxLength(hi)] && lo >= 1
    ensures KeyPasses(k, body) <==> TextWithin(body, k.name, lo, hi)
  {
    var v := Lookup(body, k.name);
    if !TextWithin(body, k.name, lo, hi) {
      if k.name !in body {
        assert Violates(k.rules[0], v);
      } else if !body[k.name].JStr? {
        assert Violates(k.rules[1], v);
      } else if |body[k.name].s| < lo {
        assert Violates(k.rules[3], v);
      } else {
        assert Violates(k.rules[4], v);
      }
    }
  }

  /** A key `Required, StringType, NotEmpty` passes exactly on non-empty strings. */
  lemma NonEmptyKeyPasses(k: Key, body: Body)
    requires k.rules == [Required, StringType, NotEmpty]
    ensures KeyPasses(k, body) <==> k.name in body && body[k.name].JStr? && body[k.name].s != ""
  {
    var v := Lookup(body, k.name);
    if k.name !in body {
      assert Violates(k.rules[0], v);
    } else if !body[k.name].JStr? {
      assert Violates(k.rules[1], v);
    } else if body[k.name].s == "" {
      assert Violates(k.rules[2], v);
    }
  }

  lemma RatingKeyPasses(body: Body)
    ensures KeyPasses(ReviewSchema[0], body) <==>
      "rating" in body && body["rating"].JNum? && IsInteger(body["rating"].x) && 1.0 <= body["rating"].x <= 5.0
  {
    var k := ReviewSchema[0];
    var v := Lookup(body, "rating");
    if "rating" !in body {
      assert Violates(k.rules[0], v);
    } else if !body["rating"].JNum? {
      assert Violates(k.rules[1], v);
    } else if !IsSafeNumber(body["rating"].x) {
      assert Violates(k.rules[2], v);
    } else if !IsInteger(body["rating"].x) {
      assert Violates(k.rules[3], v);
    } else if body["rating"].x < 1.0 {
      assert Violates(k.rules[4], v);
    } else if body["rating"].x > 5.0 {
      assert Violates(k.rules[5], v);
    }
  }

  lemma UsernameKeyPasses(body: Body)
    ensures KeyPasses(SignupSchema[0], body) <==>
      TextWithin(body, "username", 3, 30) && IsAlphanumeric(body["username"].s)
  {
    var k := SignupSchema[0];
    var v := Lookup(body, "username");
    if "username" !in body {
      assert Violates(k.rules[0], v);
    } else if !body["username"].JStr? {
      assert Violates(k.rules[1], v);
    } else if !IsAlphanumeric(body["username"].s) {
      assert Violates(k.rules[3], v);
    } else if |body["username"].s| < 3 {
      assert Violates(k.rules[4], v);
    } else if |body["username"].s| > 30 {
      assert Violates(k.rules[5], v);
    }
  }

  lemma PasswordKeyPasses(body: Body)
    ensures KeyPasses(SignupSchema[1], body) <==>
      "password" in body && body["password"].JStr? && |body["password"].s| >= 6
  {
    var k := SignupSchema[1];
    var v := Lookup(body, "password");
    if "password" !in body {
      assert Violates(k.rules[0], v);
    } else if !body["password"].JStr? {
      assert Violates(k.rules[1], v);
    } else if |body["password"].s| < 6 {
      assert Violates(k.rules[3], v);
    }
  }

  /** The book schema accepts exactly the bodies whose title, author and genre are strings of 2 to 100 characters. */
  lemma BookSchemaMeaning(body: Body)
    ensures Validate(BookSchema, body).None? <==> BookBodyValid(body)
  {
    TextKeyPasses(BookSchema[0], body, 2, 100);
    TextKeyPasses(BookSchema[1], body, 2, 100);
    TextKeyPasses(BookSchema[2], body, 2, 100);
    assert (forall i :: 0 <= i < |BookSchema| ==> KeyPasses(BookSchema[i], body)) <==>
      KeyPasses(BookSchema[0], body) && KeyPasses(BookSchema[1], body) && KeyPasses(BookSchema[2], body);
  }

  /** The review schema accepts exactly an integer rating in 1..5 and a comment of 5 to 500 characters. */
  lemma ReviewSchemaMeaning(body: Body)
    ensures Validate(ReviewSchema, body).None? <==> ReviewBodyValid(body)
  {
    RatingKeyPasses(body);
    TextKeyPasses(ReviewSchema[1], body, 5, 500);
    assert (forall i :: 0 <= i < |ReviewSchema| ==> KeyPasses(ReviewSchema[i], body)) <==>
      KeyPasses(ReviewSchema[0], body) && KeyPasses(ReviewSchema[1], body);
  }

  /** The signup schema accepts exactly an alphanumeric username of 3 to 30 characters and a password of at least 6. */
  lemma SignupSchemaMeaning(body: Body)
    ensures Validate(SignupSchema, body).None? <==> SignupBodyValid(body)
  {
    UsernameKeyPasses(body);
    PasswordKeyPasses(body);
    assert (forall i :: 0 <= i < |SignupSchema| ==> KeyPasses(SignupSchema[i], body)) <==>
      KeyPasses(SignupSchema[0], body) && KeyPasses(SignupSchema[1], body);
  }

  /** The login schema accepts exactly two non-empty strings, of any length. */
  lemma LoginSchemaMeaning(body: Body)
    ensures Validate(LoginSchema, body).None? <==> LoginBodyValid(body)
  {
    NonEmptyKeyPasses(LoginSchema[0], body);
    NonEmptyKeyPasses(LoginSchema[1], body);
    assert (forall i :: 0 <= i < |LoginSchema| ==> KeyPasses(LoginSchema[i], body)) <==>
      KeyPasses(LoginSchema[0], body) && KeyPasses(LoginSchema[1], body);
  }

  // ---- The custom message of each violated rule ----

  /** When every key before key `i` passes and rule `j` is the first rule of key `i`
      that its value breaks, the reported message is that rule's message. */
  lemma FirstFailureMessage(keys: seq<Key>, body: Body, i: nat, j: nat)
    requires i < |keys| && j < |keys[i].rules|
    requires forall i' :: 0 <= i' < i ==> KeyPasses(keys[i'], body)
    requires forall j' :: 0 <= j' < j ==> !Violates(keys[i].rules[j'], Lookup(body, keys[i].name))
    requires Violates(keys[i].rules[j], Lookup(body, keys[i].name))
    ensures Validate(keys, body) == Some(Message(keys[i], keys[i].rules[j]))
  {
    var v := Lookup(body, keys[i].name);
    assert !KeyPasses(keys[i], body);
    assert FirstFailingKey(keys, body) == Some(i);
    assert FirstViolated(keys[i].rules, v) == Some(j);
  }

  /** The texts of the messages the lemmas below report, read off the schemas. */
  lemma BookMessageTexts()
    ensures Message(BookSchema[0], BookSchema[0].rules[0]) == "Title is required"
    ensures Message(BookSchema[1], BookSchema[1].rules[3]) == "Author must be at least 2 characters long"
    ensures Message(BookSchema[1], BookSchema[1].rules[4]) == "Author cannot exceed 100 characters"
  {
  }

  /** Joi's default text for an unsafe number, for the rating key. */
  lemma UnsafeRatingText()
    ensures DefaultMessage("rating", SafeNumber) == "\"rating\" must be a safe number"
  {
  }

  lemma RatingMessageTexts()
    ensures Message(ReviewSchema[0], ReviewSchema[0].rules[3]) == "Rating must be an integer"
    ensures Message(ReviewSchema[0], ReviewSchema[0].rules[4]) == "Rating must be at least 1"
    ensures Message(ReviewSchema[0], ReviewSchema[0].rules[5]) == "Rating cannot exceed 5"
  {
  }

  lemma CommentMessageTexts()
    ensures Message(ReviewSchema[1], ReviewSchema[1].rules[0]) == "Comment is required"
    ensures Message(ReviewSchema[1], ReviewSchema[1].rules[3]) == "Comment must be at least 5 characters long"
    ensures Message(ReviewSchema[1], ReviewSchema[1].rules[4]) == "Comment cannot exceed 500 characters"
  {
  }

  lemma AccountMessageTexts()
    ensures Message(SignupSchema[0], SignupSchema[0].rules[3]) == "Username must only contain alphanumeric characters"
    ensures Message(SignupSchema[1], SignupSchema[1].rules[3]) == "Password must be at least 6 characters long"
    ensures Message(LoginSchema[0], LoginSchema[0].rules[0]) == "\"username\" is required"
  {
    assert DefaultMessage("username", Required) == "\"username\" is required";
  }

  /** Title is checked first: a body without one is refused with the title's required message. */
  lemma MissingTitleMessage(body: Body)
    requires "title" !in body
    ensures Validate(BookSchema, body) == Some("Title is required")
  {
    BookMessageTexts();
    FirstFailureMessage(BookSchema, body, 0, 0);
  }

  /** With a good title, a too short author is refused with the author's own message. */
  lemma ShortAuthorMessage(body: Body)
    requires TextWithin(body, "title", 2, 100)
    requires "author" in body && body["author"].JStr? && 0 < |body["author"].s| < 2
    ensures Validate(BookSchema, body) == Some("Author must be at least 2 characters long")
  {
    BookMessageTexts();
    TextKeyPasses(BookSchema[0], body, 2, 100);
    FirstFailureMessage(BookSchema, body, 1, 3);
  }

  /** With a good title, a too long author is refused with the author's own message. */
  lemma LongAuthorMessage(body: Body)
    requires TextWithin(body, "title", 2, 100)
    requires "author" in body && body["author"].JStr? && |body["author"].s| > 100
    ensures Validate(BookSchema, body) == Some("Author cannot exceed 100 characters")
  {
    BookMessageTexts();
    TextKeyPasses(BookSchema[0], body, 2, 100);
    FirstFailureMessage(BookSchema, body, 1, 4);
  }

  /** A numeric rating that breaks a rule is refused with that rule's message: first
      Joi's own check of the safe range, which declares no custom message, then
      integer, then at least 1, then at most 5. */
  lemma RatingMessages(body: Body, x: real)
    requires "rating" in body && body["rating"] == JNum(x)
    ensures !IsSafeNumber(x) ==> Validate(ReviewSchema, body) == Some("\"rating\" must be a safe number")
    ensures IsSafeNumber(x) && !IsInteger(x) ==> Validate(ReviewSchema, body) == Some("Rating must be an integer")
    ensures IsSafeNumber(x) && IsInteger(x) && x < 1.0 ==> Validate(ReviewSchema, body) == Some("Rating must be at least 1")
    ensures IsSafeNumber(x) && IsInteger(x) && x > 5.0 ==> Validate(ReviewSchema, body) == Some("Rating cannot exceed 5")
  {
    if !IsSafeNumber(x) {
      UnsafeRatingMessage(body);
    } else if !IsInteger(x) {
      RatingFailure(body, 3);
      RatingMessageTexts();
    } else if x < 1.0 {
      RatingFailure(body, 4);
      RatingMessageTexts();
    } else if x > 5.0 {
      RatingFailure(body, 5);
      RatingMessageTexts();
    }
  }

  /** An unsafe rating is refused by Joi's own check, with its default text. */
  lemma UnsafeRatingMessage(body: Body)
    requires "rating" in body && body["rating"].JNum? && !IsSafeNumber(body["rating"].x)
    ensures Validate(ReviewSchema, body) == Some("\"rating\" must be a safe number")
  {
    RatingFailure(body, 2);
    assert NumberUnsafe !in ReviewSchema[0].messages;
    UnsafeRatingText();
  }

  /** A rating that breaks rule `j` of its key, and none before it, is refused with rule `j`'s message. */
  lemma RatingFailure(body: Body, j: nat)
    requires 2 <= j < |ReviewSchema[0].rules|
    requires forall j' :: 0 <= j' < j ==> !Violates(ReviewSchema[0].rules[j'], Lookup(body, "rating"))
    requires Violates(ReviewSchema[0].rules[j], Lookup(body, "rating"))
    ensures Validate(ReviewSchema, body) == Some(Message(ReviewSchema[0], ReviewSchema[0].rules[j]))
  {
    FirstFailureMessage(ReviewSchema, body, 0, j);
  }

  /** With a good rating, a missing, short or long comment is refused with the comment's messages. */
  lemma CommentMessages(body: Body)
    requires "rating" in body && body["rating"].JNum?
    requires IsInteger(body["rating"].x) && 1.0 <= body["rating"].x <= 5.0
    ensures "comment" !in body ==> Validate(ReviewSchema, body) == Some("Comment is required")
    ensures "comment" in body && body["comment"].JStr? && 0 < |body["comment"].s| < 5 ==>
      Validate(ReviewSchema, body) == Some("Comment must be at least 5 characters long")
    ensures "comment" in body && body["comment"].JStr? && |body["comment"].s| > 500 ==>
      Validate(ReviewSchema, body) == Some("Comment cannot exceed 500 characters")
  {
    CommentMessageTexts();
    RatingKeyPasses(body);
    if "comment" !in body {
      FirstFailureMessage(ReviewSchema, body, 1, 0);
    } else if body["comment"].JStr? && 0 < |body["comment"].s| < 5 {
      FirstFailureMessage(ReviewSchema, body, 1, 3);
    } else if body["comment"].JStr? && |body["comment"].s| > 500 {
      FirstFailureMessage(ReviewSchema, body, 1, 4);
    }
  }

  /** A username with a character other than a letter or digit is refused for that before its length is looked at. */
  lemma UsernameAlphanumMessage(body: Body)
    requires "username" in body && body["username"].JStr? && body["username"].s != ""
    requires !IsAlphanumeric(body["username"].s)
    ensures Validate(SignupSchema, body) == Some("Username must only contain alphanumeric characters")
  {
    AccountMessageTexts();
    FirstFailureMessage(SignupSchema, body, 0, 3);
  }

  /** A short password after a good username gets the password's length message. */
  lemma PasswordLengthMessage(body: Body)
    requires TextWithin(body, "username", 3, 30) && IsAlphanumeric(body["username"].s)
    requires "password" in body && body["password"].JStr? && 0 < |body["password"].s| < 6
    ensures Validate(SignupSchema, body) == Some("Password must be at least 6 characters long")
  {
    AccountMessageTexts();
    UsernameKeyPasses(body);
    FirstFailureMessage(SignupSchema, body, 1, 3);
  }

  /** Login declares no messages of its own: a missing username gets Joi's default message. */
  lemma LoginMissingUsernameMessage(body: Body)
    requires "username" !in body
    ensures Validate(LoginSchema, body) == Some("\"username\" is required")
  {
    AccountMessageTexts();
    FirstFailureMessage(LoginSchema, body, 0, 0);
  }
}
