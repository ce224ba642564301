/** The input checks of api/v1/serializers.py that the account flows and the
    review form rely on: the sign-up form and its `create`, the token form,
    the profile form the `me` endpoint uses, and the review form's
    one-review-per-author check. A check answers with the set of request
    fields it refuses (the keys of the 400 response); the empty set means the
    input is accepted. */
module Serializers {
  import opened Common
  import opened Users
  import opened Reviews

  // ----- UserSignUpSerializer -----

  /** The body of a sign-up request; None is a missing key. */
  datatype SignUpData = SignUpData(username: Option<string>, email: Option<string>)

  /** The sign-up `username` field: at most MAX_USERNAME_LENGHT characters,
      one or more of `[\w.@+-]`, and not exactly "me" (validate_username,
      which compares case-sensitively). */
  predicate SignUpUsernameValid(s: Settings, name: string)
  {
    |name| <= s.signUpUsernameMax && MatchesSignPattern(s, name) && name != ReservedName
  }

  /** The sign-up `email` field: not blank (validate_email refuses the empty
      value too), at most MAX_EMAIL_LENGTH characters, an address. */
  predicate SignUpEmailValid(s: Settings, email: string)
  {
    email != "" && |email| <= s.signUpEmailMax && s.isEmailAddress(email)
  }

  function SignUpErrors(s: Settings, data: SignUpData): (r: set<string>)
    ensures r <= {"username", "email"}
    ensures data.username.None? ==> "username" in r
    ensures data.email.None? ==> "email" in r
    ensures data.username == Some(ReservedName) ==> "username" in r
  {
    (if data.username.Some? && SignUpUsernameValid(s, data.username.value) then {} else {"username"})
    + (if data.email.Some? && SignUpEmailValid(s, data.email.value) then {} else {"email"})
  }

  /** The form accepts exactly the requests that carry both fields, each
      valid; each invalid field is reported under its own key. */
  lemma SignUpAcceptance(s: Settings, data: SignUpData)
    ensures SignUpErrors(s, data) <= {"username", "email"}
    ensures "username" in SignUpErrors(s, data)
      <==> data.username.None? || !SignUpUsernameValid(s, data.username.value)
    ensures "email" in SignUpErrors(s, data)
      <==> data.email.None? || data.email.value == "" || !SignUpEmailValid(s, data.email.value)
    ensures SignUpErrors(s, data) == {} ==>
      && data.username.Some? && data.email.Some?
      && 0 < |data.username.value| <= s.signUpUsernameMax
      && 0 < |data.email.value| <= s.signUpEmailMax
      && data.username.value != ReservedName
  {
  }

  /** "me" is refused whatever the e-mail, but only in exactly that spelling:
      "Me" passes the reserved-name check. */
  lemma SignUpReservedName(s: Settings, email: Option<string>)
    requires s.Valid() && s.signUpUsernameMax >= 2
    ensures "username" in SignUpErrors(s, SignUpData(Some("me"), email))
    ensures "username" !in SignUpErrors(s, SignUpData(Some("Me"), email))
  {
    assert IsAsciiWordChar("Me"[0]) && IsAsciiWordChar("Me"[1]);
  }

  lemma SignUpRejectsMissingEmail(s: Settings, username: Option<string>)
    ensures "email" in SignUpErrors(s, SignUpData(username, None))
    ensures "email" in SignUpErrors(s, SignUpData(username, Some("")))
  {
  }

  /** UserSignUpSerializer.create, `User.objects.create(...)`: the store
      refuses the row (None, an integrity error) when the username or the
      e-mail is already held. */
  function CreateUser(users: seq<User>, name: string, email: string): (r: Option<seq<User>>)
    ensures r.None? <==>
      (exists i :: 0 <= i < |users| && users[i].username == name)
      || (exists i :: 0 <= i < |users| && users[i].email == email)
    ensures r.Some? ==>
      |r.value| == |users| + 1 && r.value[..|users|] == users && r.value[|users|] == NewUser(name, email)
  {
    if FindUsername(users, name).Some? || FindEmail(users, email).Some? then None
    else Some(users + [NewUser(name, email)])
  }

  /** A create either fails on a taken username or e-mail and changes nothing,
      or adds exactly one row, at the end, holding the submitted username and
      e-mail with the default role; the table stays consistent and the new row
      is what a lookup by either column now finds. */
  lemma CreateUserAddsOneRow(users: seq<User>, name: string, email: string)
    requires Consistent(users) && name != ReservedName
    ensures CreateUser(users, name, email).None?
      <==> ((exists i :: 0 <= i < |users| && users[i].username == name)
           || (exists i :: 0 <= i < |users| && users[i].email == email))
    ensures CreateUser(users, name, email).Some? ==>
      var t := CreateUser(users, name, email).value;
      && |t| == |users| + 1
      && t[..|users|] == users
      && t[|users|].username == name && t[|users|].email == email && t[|users|].role == Member
      && Consistent(t)
      && FindUsername(t, name) == Some(|users|)
      && FindEmail(t, email) == Some(|users|)
  {
    if CreateUser(users, name, email).None? {
      if FindUsername(users, name).Some? {
        assert users[FindUsername(users, name).value].username == name;
      } else {
        assert users[FindEmail(users, email).value].email == email;
      }
    } else {
      var t := users + [NewUser(name, email)];
      NewUserHasDefaultRole(name, email);
      AppendKeepsConsistent(users, NewUser(name, email));
      assert t[..|users|] == users;
      FindUsernameIsOnlyRow(t, name, |users|);
      FindEmailIsOnlyRow(t, email, |users|);
    }
  }

  // ----- The token forms -----

  /** The body of a token request. */
  datatype TokenData = TokenData(username: Option<string>, confirmationCode: Option<string>)

  /** What a token form's validation ends in: the two accepted values, the
      refused fields, or the not-found error validate_username raises. */
  datatype TokenCheck =
    | TokenFields(username: string, code: string)
    | TokenFieldErrors(errors: set<string>)
    | UnknownUsername

  predicate NonBlank(field: Option<string>)
  {
    field.Some? && field.value != ""
  }

  /** UserTokenSerializer: `confirmation_code` is checked first, then
      `username` (required, at most MAX_USERNAME_LENGHT characters); a
      well-formed username no row holds raises not-found from
      validate_username at once, whatever `confirmation_code` held. */
  function CheckTokenData(s: Settings, users: seq<User>, data: TokenData): (r: TokenCheck)
    ensures r.UnknownUsername? ==>
      data.username.Some? && forall i :: 0 <= i < |users| ==> users[i].username != data.username.value
    ensures r.TokenFields? ==>
      && data == TokenData(Some(r.username), Some(r.code))
      && r.username != "" && r.code != "" && |r.username| <= s.signUpUsernameMax
      && exists i :: 0 <= i < |users| && users[i].username == r.username
    ensures r.TokenFieldErrors? ==> r.errors != {} && r.errors <= {"confirmation_code", "username"}
  {
    var codeOk := NonBlank(data.confirmationCode);
    var nameOk := NonBlank(data.username) && |data.username.value| <= s.signUpUsernameMax;
    if nameOk && FindUsername(users, data.username.value).None? then UnknownUsername
    else if codeOk && nameOk then TokenFields(data.username.value, data.confirmationCode.value)
    else TokenFieldErrors((if codeOk then {} else {"confirmation_code"}) + (if nameOk then {} else {"username"}))
  }

  /** validate_username: not-found for a username no row holds, and otherwise
      the value passes through unchanged. */
  lemma TokenUsernameLookup(s: Settings, users: seq<User>, name: string, code: string)
    requires name != "" && |name| <= s.signUpUsernameMax
    ensures (forall i :: 0 <= i < |users| ==> users[i].username != name) ==>
      && CheckTokenData(s, users, TokenData(Some(name), Some(code))) == UnknownUsername
      && CheckTokenData(s, users, TokenData(Some(name), None)) == UnknownUsername
    ensures (exists i :: 0 <= i < |users| && users[i].username == name) && code != ""
      ==> CheckTokenData(s, users, TokenData(Some(name), Some(code))) == TokenFields(name, code)
  {
    if exists i :: 0 <= i < |users| && users[i].username == name {
      var i :| 0 <= i < |users| && users[i].username == name;
      assert FindUsername(users, name).Some?;
    }
  }

  /** The token form api/views.py names, UserGetTokenSerializer, is not defined
      in the sources; it is taken to hold the same two required text fields
      without a lookup. */
  function CheckGetTokenData(data: TokenData): (r: TokenCheck)
    ensures !r.UnknownUsername?
    ensures r.TokenFields? <==> NonBlank(data.username) && NonBlank(data.confirmationCode)
    ensures r.TokenFields? ==> data == TokenData(Some(r.username), Some(r.code))
    ensures r.TokenFieldErrors? ==> r.errors != {} && r.errors <= {"confirmation_code", "username"}
  {
    if NonBlank(data.username) && NonBlank(data.confirmationCode) then
      TokenFields(data.username.value, data.confirmationCode.value)
    else
      TokenFieldErrors((if NonBlank(data.confirmationCode) then {} else {"confirmation_code"})
        + (if NonBlank(data.username) then {} else {"username"}))
  }

  // ----- UserSerializer, as the `me` endpoint uses it -----

  /** The length limit of the framework's e-mail column. */
  const EmailColumnMax: nat := 254
  /** The length limit of the framework's first- and last-name columns. */
  const PersonNameMax: nat := 150

  /** The body of a partial profile update; None is a key the request omits. */
  datatype ProfilePatch = ProfilePatch(
    username: Option<string>,
    email: Option<string>,
    firstName: Option<string>,
    lastName: Option<string>,
    bio: Option<string>,
    role: Option<string>)

  /** The column's unique check on an update: `filter(username=...)` with the
      edited row `pk` excluded finds a row. */
  predicate UsernameHeldByOther(users: seq<User>, pk: nat, name: string)
  {
    exists i :: 0 <= i < |users| && i != pk && users[i].username == name
  }

  predicate EmailHeldByOther(users: seq<User>, pk: nat, email: string)
  {
    exists i :: 0 <= i < |users| && i != pk && users[i].email == email
  }

  /** The partial update's field checks, built from the account columns: the
      username validators and the unique check that ignores the account being
      edited, the same for the e-mail, the two name lengths, and the role
      choices. A field the request omits is not checked. */
  function ProfileErrors(s: Settings, users: seq<User>, pk: nat, patch: ProfilePatch): (r: set<string>)
    ensures r <= {"username", "email", "first_name", "last_name", "role"}
    ensures patch == ProfilePatch(None, None, None, None, None, None) ==> r == {}
    ensures "username" !in r && patch.username.Some? ==>
      && ModelUsernameValid(s, patch.username.value) && patch.username.value != ReservedName
      && forall i :: 0 <= i < |users| && i != pk ==> users[i].username != patch.username.value
    ensures patch.username.Some? && ModelUsernameValid(s, patch.username.value)
      && (forall i :: 0 <= i < |users| && i != pk ==> users[i].username != patch.username.value)
      ==> "username" !in r
    ensures "email" !in r && patch.email.Some? ==>
      && patch.email.value != "" && |patch.email.value| <= EmailColumnMax && s.isEmailAddress(patch.email.value)
      && forall i :: 0 <= i < |users| && i != pk ==> users[i].email != patch.email.value
    ensures patch.email.Some? && patch.email.value != "" && |patch.email.value| <= EmailColumnMax
      && s.isEmailAddress(patch.email.value)
      && (forall i :: 0 <= i < |users| && i != pk ==> users[i].email != patch.email.value)
      ==> "email" !in r
    ensures "first_name" in r <==> patch.firstName.Some? && |patch.firstName.value| > PersonNameMax
    ensures "last_name" in r <==> patch.lastName.Some? && |patch.lastName.value| > PersonNameMax
    ensures "role" !in r && patch.role.Some? ==> patch.role.value in Roles
    ensures patch.role.Some? && patch.role.value in Roles ==> "role" !in r
    ensures patch.username.None? ==> "username" !in r
    ensures patch.email.None? ==> "email" !in r
  {
    MeSearchRejections();
    (if patch.username.Some? &&
        (!ModelUsernameValid(s, patch.username.value) || UsernameHeldByOther(users, pk, patch.username.value))
     then {"username"} else {})
    + (if patch.email.Some? &&
          (patch.email.value == "" || |patch.email.value| > EmailColumnMax || !s.isEmailAddress(patch.email.value)
           || EmailHeldByOther(users, pk, patch.email.value))
       then {"email"} else {})
    + (if patch.firstName.Some? && |patch.firstName.value| > PersonNameMax then {"first_name"} else {})
    + (if patch.lastName.Some? && |patch.lastName.value| > PersonNameMax then {"last_name"} else {})
    + (if patch.role.Some? && patch.role.value !in Roles then {"role"} else {})
  }

  /** `serializer.save(role=...)`: every field the request sent replaces the
      stored one, every field it omitted is kept, and the role is the one
      passed to `save`. */
  function UpdateProfile(u: User, patch: ProfilePatch, role: string): (r: User)
    ensures r.role == role && r.isSuperuser == u.isSuperuser
    ensures patch == ProfilePatch(None, None, None, None, None, patch.role) ==> r == u.(role := role)
    ensures patch.username.Some? ==> r.username == patch.username.value
    ensures patch.username.None? ==> r.username == u.username
    ensures patch.email.Some? ==> r.email == patch.email.value
    ensures patch.email.None? ==> r.email == u.email
    ensures patch.firstName.Some? ==> r.firstName == patch.firstName.value
    ensures patch.firstName.None? ==> r.firstName == u.firstName
    ensures patch.lastName.Some? ==> r.lastName == patch.lastName.value
    ensures patch.lastName.None? ==> r.lastName == u.lastName
    ensures patch.bio.Some? ==> r.bio == patch.bio.value
    ensures patch.bio.None? ==> r.bio == u.bio
  {
    User(
      if patch.username.Some? then patch.username.value else u.username,
      if patch.email.Some? then patch.email.value else u.email,
      role,
      if patch.firstName.Some? then patch.firstName.value else u.firstName,
      if patch.lastName.Some? then patch.lastName.value else u.lastName,
      if patch.bio.Some? then patch.bio.value else u.bio,
      u.isSuperuser)
  }

  /** An accepted partial update that keeps the stored role leaves the table
      consistent: the unique checks leave no other row with the new username
      or e-mail, and REGEX_ME keeps "me" out. */
  lemma ProfileUpdateKeepsConsistent(s: Settings, users: seq<User>, pk: nat, patch: ProfilePatch)
    requires Consistent(users) && pk < |users|
    requires ProfileErrors(s, users, pk, patch) == {}
    ensures Consistent(users[pk := UpdateProfile(users[pk], patch, users[pk].role)])
  {
    var u := UpdateProfile(users[pk], patch, users[pk].role);
    if patch.username.Some? {
      ModelUsernameRejectsReserved(s, u.username);
    }
    ReplaceKeepsConsistent(users, pk, u);
  }

  // ----- ReviewSerializer -----

  /** The review form: the `text` and `score` fields first (text required and
      at most MAX_NAME_LENGTH characters, score within 1..10); only when both
      pass, the unique-together check on (work, author). */
  function ReviewErrors(maxText: nat, reviews: seq<Review>, title: nat, author: nat, text: string, score: int)
    : (r: set<string>)
    ensures r <= {"text", "score", "non_field_errors"}
    ensures "non_field_errors" in r ==>
      && r == {"non_field_errors"}
      && exists i :: 0 <= i < |reviews| && reviews[i].title == title && reviews[i].author == author
    ensures r == {} ==>
      && ValidScore(score) && 0 < |text| <= maxText
      && forall i :: 0 <= i < |reviews| ==> reviews[i].title != title || reviews[i].author != author
    ensures ValidScore(score) && 0 < |text| <= maxText
      && (forall i :: 0 <= i < |reviews| ==> reviews[i].title != title || reviews[i].author != author)
      ==> r == {}
  {
    var fieldErrors :=
      (if text == "" || |text| > maxText then {"text"} else {})
      + (if ValidScore(score) then {} else {"score"});
    if fieldErrors != {} then fieldErrors
    else if FindReview(reviews, title, author).Some? then {"non_field_errors"}
    else {}
  }

  /** Posting a review: the refused fields, or the table with the new review. */
  function PostReview(maxText: nat, reviews: seq<Review>, title: nat, author: nat, text: string, score: int)
    : (r: Result<seq<Review>, set<string>>)
    ensures r.Err? ==> r.error != {}
    ensures !ValidScore(score) ==> r.Err? && "score" in r.error
    ensures r.Ok? ==>
      && |r.value| == |reviews| + 1 && r.value[..|reviews|] == reviews
      && r.value[|reviews|] == Review(title, author, text, score) && ValidScore(score)
    ensures ValidScore(score) && 0 < |text| <= maxText
      && (forall i :: 0 <= i < |reviews| ==> reviews[i].title != title || reviews[i].author != author)
      ==> r.Ok?
  {
    var errors := ReviewErrors(maxText, reviews, title, author, text, score);
    if errors == {} then Ok(reviews + [Review(title, author, text, score)]) else Err(errors)
  }

  /** An accepted post keeps every score in range and at most one review per
      work and author; a post is refused on the unique-together check exactly
      when its fields are fine and that author already reviewed that work. */
  lemma PostReviewKeepsTableValid(maxText: nat, reviews: seq<Review>, title: nat, author: nat, text: string, score: int)
    requires ReviewTableValid(reviews)
    ensures PostReview(maxText, reviews, title, author, text, score).Ok? ==>
      ReviewTableValid(PostReview(maxText, reviews, title, author, text, score).value)
    ensures !ValidScore(score) ==> PostReview(maxText, reviews, title, author, text, score).Err?
    ensures PostReview(maxText, reviews, title, author, text, score) == Err({"non_field_errors"})
      <==> (&& 0 < |text| <= maxText && ValidScore(score)
           && exists i :: 0 <= i < |reviews| && reviews[i].title == title && reviews[i].author == author)
  {
    var added := Review(title, author, text, score);
    var t := reviews + [added];
    if PostReview(maxText, reviews, title, author, text, score).Ok? {
      forall i | 0 <= i < |t| ensures ValidScore(t[i].score) {
        if i < |reviews| { assert t[i] == reviews[i]; }
      }
      forall i, j | 0 <= i < j < |t| ensures t[i].title != t[j].title || t[i].author != t[j].author {
        assert t[i] == reviews[i];
      }
    }
    if exists i :: 0 <= i < |reviews| && reviews[i].title == title && reviews[i].author == author {
      var i :| 0 <= i < |reviews| && reviews[i].title == title && reviews[i].author == author;
      assert FindReview(reviews, title, author).Some?;
    }
  }

  /** After a review is accepted, a second post by the same author for the
      same work is refused, whatever its text and score. */
  lemma SecondReviewRejected(maxText: nat, reviews: seq<Review>, title: nat, author: nat,
                             text: string, score: int, text2: string, score2: int)
    requires PostReview(maxText, reviews, title, author, text, score).Ok?
    ensures PostReview(maxText, PostReview(maxText, reviews, title, author, text, score).value,
                       title, author, text2, score2).Err?
  {
    var t := PostReview(maxText, reviews, title, author, text, score).value;
    assert t[|reviews|].title == title && t[|reviews|].author == author;
    assert FindReview(t, title, author).Some?;
  }
}
