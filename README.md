# api_yamdb: access policy, account flows and catalogue rules in Dafny

This project models the hand-written logic of api_yamdb. api_yamdb is a Django
REST backend for reviews of works (films, books, music), grouped into
categories and genres. Accounts hold one of three roles: `user`, `moderator`
or `admin`.

The model covers four parts of the code:

- **Access policy.** The permission classes of `api/permissions.py` are
  predicates over the verb, the caller and the object's author. The role
  properties of `user/models.py` are predicates too.
- **Account model.** This covers the role choices, the `username` validators
  `REGEX_SIGN` and `REGEX_ME`, and the account table. In the table, `username`
  and `email` are each unique, no row is named `me` and every role is a
  declared one.
- **Account flows.** Both API versions define three endpoints:
  - sign-up, with a confirmation code sent by mail;
  - the exchange of that code for an access token;
  - the caller's own profile at `users/me/`.

  Each endpoint is a pure function in module `Views`. The function maps the
  table and the request to the new table, the mail sent (if any) and the
  response. Class `Api.Site` holds the table, the review table and a ghost
  outbox of the mails sent. It updates them in place. Each endpoint method
  is proved to produce exactly what its `Views` function gives. The two
  store operations are tied to the form functions in `Serializers`:
  `CreateAccount` to `CreateUser` and `CreateReview` to `ReviewErrors`.
- **Catalogue rules of `reviews/models.py`.** These are:
  - the `__str__` cut-with-ellipsis rule;
  - the score range 1..10;
  - one review per author and work;
  - unique category and genre slugs.

  The review form of `api/v1/serializers.py` is modelled as well.

Modules:

- `Common`: Option, Result, substring occurrence.
- `Users`: roles, validators, account table, lookups.
- `Permissions`: the permission classes.
- `Reviews`: catalogue entities, display rule, review table.
- `Serializers`: the sign-up, token, profile and review forms.
- `Views`: endpoint specifications and their properties.
- `Api`: class `Site`, the stateful service.

Outside code is modelled by function values:

- `Views.TokenGenerator` stands for the confirmation-code generator and the
  access-token minting. `Sound()` is all that is assumed of the generator: a
  code made for an account is not blank, and it checks for that account.
- `Users.Settings` stands for the regular-expression `\w` class and the e-mail
  address validator. `Settings.Valid()` only asks that the ASCII letters,
  digits and `_` be word characters.

The numeric limits come from constants modules that are not part of this model
(`api_yamdb/constants.py`, `reviews/constants.py`). They are parameters: fields
of `Users.Settings`, `Api.Site.maxReviewText` and the `maxLength` arguments.

Points where this model follows the code:

- The sign-up check for the reserved name `me` is case-sensitive: `"Me"` passes
  it (`Serializers.SignUpReservedName`).
- The model-level `REGEX_ME` is applied as a search for `[^m][^e]`. It
  therefore refuses `"me"`, every one-character name, `"Me"`, `"mae"` and
  `"mme"` (`Users.MeSearchRejections`). The sign-up endpoints create accounts
  without running the model validators, so only the profile update applies
  `REGEX_ME`.
- Exchanging a code changes nothing, so the same code keeps working for an
  unchanged account.
- `IsAdminModeratorOwnerOrReadOnly.has_object_permission` does not consider the
  superuser flag. A superuser whose role is `user` may change only their own
  reviews and comments.
- The v1 sign-up always attempts a fresh create. A username or e-mail that is
  already held ends in the store's integrity error, which nothing handles. It
  is modelled as `ServerError`, so repeating a v1 sign-up does not resend the
  code.
- In the v1 token form, a well-formed username that no account holds raises
  the not-found error during validation. The answer is then 404, even when
  `confirmation_code` is missing.

## Model

| member | source | states |
|---|---|---|
| Permissions.SafeMethodsAlwaysRead | api_yamdb/api/permissions.py:4-24 | GET, HEAD and OPTIONS pass IsAdminOrReadOnly and both checks of IsAdminModeratorOwnerOrReadOnly, and so are granted, for every caller and every object's author; IsUser's object check passes them too |
| Permissions.AdminOrReadOnly | api_yamdb/api/permissions.py:4-12 | IsAdminOrReadOnly.has_permission: a safe verb, or an authenticated caller with role admin or the superuser flag (its consequences are the lemmas below) |
| Permissions.AuthoredContentAccess | api_yamdb/api/permissions.py:22-24 | IsAdminModeratorOwnerOrReadOnly.has_permission: a safe verb or any authenticated caller |
| Permissions.AuthoredObjectAccess | api_yamdb/api/permissions.py:16-20 | IsAdminModeratorOwnerOrReadOnly.has_object_permission: true for a safe verb; for an unsafe one, no answer for the anonymous caller, otherwise admin, moderator or author |
| Permissions.AdminOnly | api_yamdb/api/permissions.py:27-30 | IsAdmin.has_permission: an authenticated caller with role admin or the superuser flag, whatever the verb |
| Permissions.Yourself | api_yamdb/api/permissions.py:33-44 | IsYourself.has_permission: an authenticated caller on the `me` route with GET or DELETE, or PATCH without a `role` key |
| Permissions.UserAccess | api_yamdb/api/permissions.py:50-54 | IsUser.has_permission: an authenticated caller whose role is one of the three role strings |
| Permissions.UserObjectAccess | api_yamdb/api/permissions.py:56-64 | IsUser.has_object_permission: a safe verb, or the authenticated author with one of the three roles |
| Permissions.AdminOrReadOnlyWrites | api_yamdb/api/permissions.py:4-12 | an unsafe verb passes IsAdminOrReadOnly iff the caller is authenticated and has role `admin` or is a superuser |
| Permissions.AnonymousCannotWrite | api_yamdb/api/permissions.py:22-24 | the anonymous user never passes the view-level check of IsAdminModeratorOwnerOrReadOnly or IsAdminOrReadOnly for an unsafe verb, so it is never granted a write |
| Permissions.AuthoredObjectWrites | api_yamdb/api/permissions.py:16-20 | for an authenticated caller and an unsafe verb, the object check passes iff the role is admin or moderator or the caller is the author; the whole grant is then the object check |
| Permissions.ObjectCheckAnswersAfterViewCheck | api_yamdb/api/permissions.py:15-24 | whenever the view-level check passes, the object-level check gives an answer; it never reaches the missing `is_admin` of the anonymous user |
| Permissions.DeleteOthersReview | api_yamdb/api/permissions.py:15-24 | a plain user may not DELETE another author's review, and a moderator may |
| Permissions.AdminOnlyIsStricter | api_yamdb/api/permissions.py:27-30 | IsAdmin refuses every anonymous request, whatever the verb; whenever it grants, IsAdminOrReadOnly grants too |
| Permissions.UserAccessIsDeclaredRole | api_yamdb/api/permissions.py:50-54 | IsUser's view check passes iff the caller is authenticated with one of the three declared roles |
| Permissions.UserObjectOnlyAuthorWrites | api_yamdb/api/permissions.py:56-64 | for an unsafe verb, IsUser's object check passes only for the author; any non-author, admin or moderator included, is refused |
| Permissions.YourselfRules | api_yamdb/api/permissions.py:33-44 | IsYourself refuses the anonymous user and every path other than `me`; on `me`, PATCH passes iff the body has no `role` key |
| Users.IsAdmin | api_yamdb/user/models.py:60-62 | the `is_admin` property: the role is "admin" |
| Users.IsModerator | api_yamdb/user/models.py:56-58 | the `is_moderator` property: the role is "moderator" |
| Users.NewUser | api_yamdb/user/models.py:31-36 | the row a create inserts holds the given username and e-mail, the default role "user" (a declared choice) and no superuser flag |
| Users.MatchesSignPattern | api_yamdb/user/models.py:8 | REGEX_SIGN: one or more characters, each a word character or one of `. @ + -` |
| Users.MeSearch | api_yamdb/user/models.py:9 | REGEX_ME applied as a search: some adjacent pair whose first character is not `m` and second is not `e` (characterised by MeSearchFindsPair) |
| Users.ModelUsernameValid | api_yamdb/user/models.py:25-30 | the `username` column's checks: the length limit, REGEX_SIGN and REGEX_ME |
| Users.RolesAreExclusive | api_yamdb/user/models.py:56-62 | `is_admin` iff role is "admin", `is_moderator` iff role is "moderator", never both |
| Users.NewUserHasDefaultRole | api_yamdb/user/models.py:13-36 | a created account has role "user", which is a declared choice, and is neither admin nor moderator |
| Users.MeSearchFindsPair | api_yamdb/user/models.py:9 | the search for REGEX_ME succeeds iff some adjacent pair has a first character other than `m` and a second other than `e` |
| Users.MeSearchRejections | api_yamdb/user/models.py:9 | REGEX_ME refuses "me", every name shorter than two characters, "mae", "mme" and "Me", and accepts "bob" |
| Users.ModelUsernameRejectsReserved | api_yamdb/user/models.py:25-30 | a name passing the column's validators is not "me", has at least two characters, and each character is a word character or one of `. @ + -` |
| Users.FindUsername | api_yamdb/api/views.py:107 | the username lookup returns a row holding that username, or reports that no row holds it |
| Users.FindEmail | api_yamdb/api/v1/views.py:123 | the e-mail lookup returns a row holding that e-mail, or reports that no row holds it |
| Users.FindAccount | api_yamdb/api/views.py:101-103 | the lookup on the exact (username, e-mail) pair returns a row holding both, or reports that no row holds both |
| Users.FindUsernameIsOnlyRow | api_yamdb/user/models.py:25-30 | with unique usernames, the lookup answers the one row that holds the name |
| Users.FindEmailIsOnlyRow | api_yamdb/user/models.py:21-24 | with unique e-mails, the lookup answers the one row that holds the address |
| Users.Consistent | api_yamdb/user/models.py:21-36 | the table's invariant: usernames unique, e-mails unique, every role a declared choice, no row named "me" |
| Users.AppendKeepsConsistent | api_yamdb/user/models.py:21-36 | adding a row whose username and e-mail are both free, with a declared role and a name other than "me", keeps the table consistent |
| Users.ReplaceKeepsConsistent | api_yamdb/user/models.py:21-36 | replacing a row by one whose username and e-mail no other row holds keeps the table consistent |
| Reviews.ShortenCases | api_yamdb/reviews/models.py:27-30 | the display form is the text itself when it fits the limit, and otherwise the first `limit` characters followed by "..." |
| Reviews.Shorten | api_yamdb/reviews/models.py:27-30 | the shared `__str__` rule: the display form has at most limit+3 characters, at least as many as the text cut at the limit, and begins with that cut text |
| Reviews.ShortenFixedPoints | api_yamdb/reviews/models.py:27-30 | a text is its own display form iff it fits, or it has limit+3 characters and ends in "..." |
| Reviews.ShortenIdempotent | api_yamdb/reviews/models.py:27-30 | shortening a display form again changes nothing |
| Reviews.Category.Str | api_yamdb/reviews/models.py:27-30 | a category's display form is its name if short enough, else the cut name plus "...", never longer than limit+3 |
| Reviews.Genre.Str | api_yamdb/reviews/models.py:48-51 | the same rule over a genre's name |
| Reviews.Title.Str | api_yamdb/reviews/models.py:85-88 | the same rule over a work's name |
| Reviews.Review.Str | api_yamdb/reviews/models.py:128-131 | the same rule over a review's text |
| Reviews.Comment.Str | api_yamdb/reviews/models.py:160-163 | the same rule over a comment's text |
| Reviews.FindReview | api_yamdb/reviews/models.py:121-126 | the (work, author) lookup returns a review by that author of that work, or reports that there is none |
| Reviews.ValidScore | api_yamdb/reviews/models.py:107-111 | the `score` column's validators: an integer from 1 to 10 |
| Reviews.OneReviewPerAuthor | api_yamdb/reviews/models.py:121-126 | the `unique_review` constraint: no two reviews share work and author |
| Reviews.InsertCategory | api_yamdb/reviews/models.py:17-20 | an accepted insert appends exactly the category after the unchanged rows, and only when no row holds its slug |
| Reviews.InsertGenre | api_yamdb/reviews/models.py:38-41 | an accepted insert appends exactly the genre after the unchanged rows, and only when no row holds its slug |
| Reviews.InsertCategoryKeepsSlugsUnique | api_yamdb/reviews/models.py:17-20 | an insert is refused iff the slug is taken; an accepted insert keeps category slugs unique |
| Reviews.InsertGenreKeepsSlugsUnique | api_yamdb/reviews/models.py:38-41 | an insert is refused iff the slug is taken; an accepted insert keeps genre slugs unique |
| Serializers.SignUpErrors | api_yamdb/api/v1/serializers.py:95-115 | the sign-up form's refused fields: only `username` and `email` can be reported; a missing field and the name "me" are always refused |
| Serializers.CreateUser | api_yamdb/api/v1/serializers.py:117-118 | the store refuses the insert iff some row holds the username or some row holds the e-mail; otherwise the table gains exactly `NewUser` at its end, earlier rows unchanged |
| Serializers.CheckTokenData | api_yamdb/api/v1/serializers.py:121-136 | UserTokenSerializer: not-found only for a present username no row holds; accepted values are the submitted ones, both non-blank, the name within the limit and held by some row; otherwise a non-empty set of refused fields |
| Serializers.CheckGetTokenData | api_yamdb/api/views.py:135-136 | the token form of this version: accepted iff both fields are present and non-blank, with the submitted values; never not-found; otherwise a non-empty set of refused fields |
| Serializers.ProfileErrors | api_yamdb/api/v1/serializers.py:139-149 | UserSerializer as a partial update: only sent fields can be refused; a sent username is accepted iff it passes the column's validators and no other row holds it (and then it is not "me"); a sent e-mail is accepted iff it is non-empty, within 254 characters, an address and held by no other row; a name is refused iff it is over 150 characters; a role is accepted iff it is a declared choice |
| Serializers.UpdateProfile | api_yamdb/api/views.py:172-175 | `save(role=...)`: each of username, e-mail, first name, last name and bio is the sent value when sent and the stored one otherwise; the saved role is the one passed and the superuser flag is kept |
| Serializers.ReviewErrors | api_yamdb/api/v1/serializers.py:73-79 | the review form: only `text`, `score` and the unique-together error can be reported; the latter only alone and only when that author already reviewed that work; a post is accepted iff its score is in 1..10, its text is non-empty and within the limit, and the author has no earlier review of the work |
| Serializers.PostReview | api_yamdb/api/v1/serializers.py:73-79 | a refused post reports at least one field, and a score outside 1..10 is always refused under `score`; a post with a valid score and text and no earlier review of the work by the author is accepted; an accepted post appends exactly the new review and keeps the earlier rows |
| Serializers.SignUpAcceptance | api_yamdb/api/v1/serializers.py:95-115 | the sign-up form refuses `username` iff missing, too long, not all of `[\w.@+-]` or exactly "me", refuses `email` iff missing, empty, too long or not an address, and accepts only when both pass |
| Serializers.SignUpReservedName | api_yamdb/api/v1/serializers.py:111-115 | "me" is refused as a username; "Me" is not |
| Serializers.SignUpRejectsMissingEmail | api_yamdb/api/v1/serializers.py:106-109 | a missing or empty e-mail is refused |
| Serializers.CreateUserAddsOneRow | api_yamdb/api/v1/serializers.py:117-118 | create fails iff the username or the e-mail is held; otherwise exactly one row is added at the end, with the submitted username and e-mail and role "user", earlier rows are unchanged, the table stays consistent and both lookups find the new row |
| Serializers.TokenUsernameLookup | api_yamdb/api/v1/serializers.py:133-136 | an unknown username ends validation in not-found, whatever the code; a known one passes through unchanged with the code |
| Serializers.ProfileUpdateKeepsConsistent | api_yamdb/api/v1/serializers.py:139-149 | an accepted partial update with the role kept leaves the table consistent |
| Serializers.PostReviewKeepsTableValid | api_yamdb/api/v1/serializers.py:73-79 | an accepted review keeps every score in 1..10 and one review per author and work; a score outside 1..10 is refused; the unique-together error is reported iff the fields are fine and the author already reviewed that work |
| Serializers.SecondReviewRejected | api_yamdb/api/v1/serializers.py:73-79 | after one accepted review, a second by the same author for the same work is refused |
| Views.MessageToUser | api_yamdb/api/v1/views.py:99-113 | send_message_to_user's mail: sent from the framework's default address with the fixed subject to the given address alone, its text containing the code and the username |
| Views.ViewSetSignUp | api_yamdb/api/views.py:96-126 | the sign-up of this version only ever answers 200 or 400; a 400 changes nothing, sends nothing and is keyed by `username` and/or `email`; a 200 echoes the submitted username and e-mail |
| Views.ApiViewSignUp | api_yamdb/api/v1/views.py:119-126 | the v1 sign-up answers 200, 400 or an unhandled error, and mails only on 200; a 400 changes nothing; a 200 echoes the input and mails the submitted address from the default sender |
| Views.ViewSetToken | api_yamdb/api/views.py:134-150 | answers only 200, 404 or 400; 200 carries the access token of a row holding the submitted username whose code checks; 404 means no row holds the username; 400 is keyed by the refused fields |
| Views.ApiViewToken | api_yamdb/api/v1/views.py:133-147 | the same three outcomes as ViewSetToken; its failed code check is a 400 with a bare message |
| Views.Me | api_yamdb/api/views.py:168-176 | 401 iff the caller is anonymous; GET answers 200 and changes nothing; a PATCH answers 200 iff the profile form accepts it, and then the caller's row, and only it, becomes `UpdateProfile` of it with the stored role; a 200 shows the caller's row as stored afterwards; a 400 changes nothing |
| Views.MePatchAccepted | api_yamdb/api/views.py:172-176 | a PATCH whose sent fields pass their column checks and clash with no other row is answered 200; the caller's row then holds each sent field, keeps each omitted one, its role and its superuser flag, and no other row changes |
| Views.ConfirmationMail | api_yamdb/api/views.py:111-125 | the confirmation mail goes from the given sender to the given address alone, under the fixed subject (its text is characterised by ConfirmationMailDelivers) |
| Views.ConfirmationMailDelivers | api_yamdb/api/v1/views.py:99-113 | the confirmation mail has exactly one recipient, the given address, and its text contains the code, the username and the address |
| Views.SignUpInvalidInput | api_yamdb/api/views.py:97-98 | an invalid sign-up changes nothing, sends nothing and answers 400 keyed by the refused fields, in both versions |
| Views.ViewSetSignUpResend | api_yamdb/api/views.py:101-103 | signing up with a pair already stored as one row adds no row, answers 200 with the input and mails that row's code to its address |
| Views.ViewSetSignUpFresh | api_yamdb/api/views.py:101-103 | a pair whose username and e-mail are both free adds exactly the new account at the end and mails it its code |
| Views.ViewSetSignUpConflict | api_yamdb/api/views.py:104-110 | a pair that is not a stored row but whose username or e-mail is held adds nothing, sends nothing, and answers 400 keyed `username` when the username is held, else `email` |
| Views.ViewSetSignUpMailIffSuccess | api_yamdb/api/views.py:96-126 | a mail is sent iff the answer is 200; it goes to the submitted address and carries the code of the account holding the submitted pair; the table is unchanged or gains exactly the new account |
| Views.ViewSetSignUpKeepsConsistent | api_yamdb/api/views.py:96-126 | sign-up keeps the account table consistent |
| Views.ViewSetSignUpIdempotent | api_yamdb/api/views.py:101-126 | a successful sign-up repeated with the same input adds no row, gives the same answer and mails the same address again; exactly one row then holds the username, and it holds the e-mail too |
| Views.ApiViewSignUpOutcomes | api_yamdb/api/v1/views.py:119-126 | a held username or e-mail ends in an unhandled error with nothing added and no mail; otherwise exactly the new account is added and the account with the submitted e-mail is mailed its code |
| Views.ApiViewSignUpKeepsConsistent | api_yamdb/api/v1/views.py:119-126 | the v1 sign-up keeps the account table consistent |
| Views.TokenOutcomes | api_yamdb/api/views.py:134-150 | in both versions: 404 iff no row holds the username; otherwise that row's token when its code checks, and 400 (keyed `confirmation_code` in this version, a bare message in v1) when it does not |
| Views.SignUpThenToken | api_yamdb/api/views.py:96-150 | a fresh sign-up followed by the exchange of the mailed code returns the new account's access token, in both versions |
| Views.MeKeepsRole | api_yamdb/api/views.py:168-176 | whatever the request sends, every stored role is unchanged, no row other than the caller's changes, and no mail is sent |
| Views.MeReadsOwnRow | api_yamdb/api/views.py:168-171 | the anonymous caller gets 401; GET returns the caller's own row and changes nothing; a refused PATCH changes nothing |
| Views.MeCannotSelfPromote | api_yamdb/api/views.py:172-175 | a user-role account sending `role: admin` gets 200 and still has role "user" |
| Views.MeKeepsConsistent | api_yamdb/api/views.py:168-176 | the `me` endpoint keeps the account table consistent |
| Api.Site.SendMessageToUser | api_yamdb/api/v1/views.py:99-113 | appends exactly one confirmation mail, from the default sender, to the outbox and changes nothing else |
| Api.Site.CreateAccount | api_yamdb/api/v1/serializers.py:117-118 | inserts the account exactly when the username and the e-mail are free, otherwise changes nothing; the tables stay valid |
| Api.Site.SignUpViewSet | api_yamdb/api/views.py:96-126 | the new table, the mails appended to the outbox and the response are those of `Views.ViewSetSignUp`; the tables stay valid |
| Api.Site.SignUpApiView | api_yamdb/api/v1/views.py:119-126 | the new table, the mails appended and the response are those of `Views.ApiViewSignUp`; the tables stay valid |
| Api.Site.ObtainTokenViewSet | api_yamdb/api/views.py:134-150 | answers `Views.ViewSetToken` of the current table and changes nothing |
| Api.Site.ObtainTokenApiView | api_yamdb/api/v1/views.py:133-147 | answers `Views.ApiViewToken` of the current table and changes nothing |
| Api.Site.Me | api_yamdb/api/v1/views.py:165-173 | the new table and the response are those of `Views.Me`; no mail, reviews unchanged, tables stay valid |
| Api.Site.CreateReview | api_yamdb/api/v1/serializers.py:73-79 | returns the review form's refused fields; on acceptance the review is appended, otherwise nothing changes; the review table stays valid |

## Left out

- The numeric limits (MAX_LENGHT, MAX_USERNAME_LENGHT, MAX_EMAIL_LENGTH, MAX_NAME_LENGTH, MAX_ROLE_LENGHT) live in constants modules that are not part of this model, so they are parameters.
- The Unicode meaning of `\w` and the e-mail address syntax: both are abstract predicates. The framework's trimming of surrounding white space in text fields is not modelled either.
- Confirmation codes, their hashing and timestamps, JWT access tokens: these are outside code, modelled as uninterpreted functions. Two things are assumed of a code: it is not blank, and it checks for the account it was made for.
- `send_mail` performs I/O. It is modelled as a returned mail and an append to a ghost outbox, and delivery is not modelled.
- IsYourself: `reverse('users-me')` is not imported in the source. Whether the URL contains the `me` route is therefore an input bit. As written, line 38 raises a NameError for every authenticated caller. `Permissions.Yourself` models the intended URL test, not that error.
- IsAdminModeratorOwnerOrReadOnly.has_object_permission raises for the anonymous user on an unsafe verb. The model gives no answer (None) instead of an exception.
- The catalogue viewsets, filters, querysets, `Avg` aggregation, routing, mixins and the field-list serializers are framework wiring.
- The admin endpoints of UserViewSet other than `me` are framework wiring, and so is its refusal of other verbs on `me`.
- `api/models.py` holds unresolved merge markers and is not valid Python. `overview/models.py` only declares fields. `api/v1/utils.py` duplicates the mail helper.
- User.clean raises its own cleaned data on every call, so it states nothing.
- Whether the work under review exists (a 404 from the review viewset) is not modelled. The review form is taken over an existing work.
- Comments and their viewset are left out beyond the display rule. Comments carry no validation beyond the text's length limit.
- Concurrent requests racing on the unique columns are not modelled. Every request runs alone.
- Views.ViewSetSignUp: `api/views.py` imports `UserSignUpSerializer` and `UserGetTokenSerializer` (lines 20-24) from `api/serializers.py`, which defines neither. As written, that import fails, so none of the module's endpoints load. The model departs from the code here and gives this sign-up the v1 sign-up form.
- Views.ViewSetToken: for the same failing import, this token exchange has no form as written. The model gives it `Serializers.CheckGetTokenData`.
- Serializers.CheckGetTokenData: `UserGetTokenSerializer` is defined nowhere. It is taken to be two required, non-blank text fields with no lookup.
- As written, nothing routes the endpoints: `api/urls.py` imports a `UsersViewSet` that does not exist, and no URL file includes `api/v1/urls.py`. The model covers the views as defined.
- Non-ASCII word characters: only the ASCII ones are pinned, so nothing is claimed about how `\w` treats other characters.
