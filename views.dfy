/** The account endpoints of api/views.py and api/v1/views.py, each as the
    function from the account table and the request to the new table, the
    confirmation mail it sends (if any) and the response. The token generator,
    the access-token minting and the mail transport are outside code: the first
    two are function values, and a sent mail is returned, not delivered. */
module Views {
  import opened Common
  import opened Users
  import opened Permissions
  import opened Serializers

  /** `default_token_generator.make_token` / `check_token` and
      `str(AccessToken.for_user(user))`. */
  datatype TokenGenerator = TokenGenerator(
    makeCode: User -> string,
    checkCode: (User, string) -> bool,
    accessToken: User -> string)
  {
    /** The one thing the flows rely on: a code made for an account is not
        blank and checks for that same, unchanged account. */
    ghost predicate Sound()
    {
      forall u :: makeCode(u) != "" && checkCode(u, makeCode(u))
    }
  }

  const MailSubject: string := "Код подтверждения YAMDb"
  /** DEFAULT_FROM_EMAIL of the framework's global settings. */
  const DefaultFromEmail: string := "webmaster@localhost"

  /** One call of `send_mail`; `sender` None lets the transport pick its
      configured default. */
  datatype Mail = Mail(sender: Option<string>, recipients: seq<string>, subject: string, body: string)

  // The fixed parts of the confirmation text, around the three values.
  const Greeting: string := "Здравствуйте, "
  const BeforeEmail: string := " \n\n" + "Вы получили это сообщение, "
    + "так как на адрес электронной почты: \n" + " "
  const BeforeCode: string := "\n" + "происходит регистрация на сайте \"API_yamdb\". \n  \n"
    + "Ваш код подтверждения : "
  const Closing: string := " \n \n" + "Если Вы не пытались зарегистрироваться - \n"
    + "просто не отвечайте на данное сообщение и \n" + "не производите никаких действий"

  function ConfirmationText(username: string, email: string, code: string): string
  {
    Greeting + username + BeforeEmail + email + BeforeCode + code + Closing
  }

  /** The confirmation mail of both sign-up flows: one recipient, the fixed
      subject, the text around the username, the address and the code. */
  function ConfirmationMail(sender: Option<string>, username: string, email: string, code: string): (r: Mail)
    ensures r.sender == sender && r.recipients == [email] && r.subject == MailSubject
  {
    Mail(sender, [email], MailSubject, ConfirmationText(username, email, code))
  }

  /** send_message_to_user of api/v1/views.py. */
  function MessageToUser(username: string, email: string, code: string): (r: Mail)
    ensures r.sender == Some(DefaultFromEmail) && r.recipients == [email] && r.subject == MailSubject
    ensures Contains(r.body, code) && Contains(r.body, username)
  {
    ConfirmationMailDelivers(Some(DefaultFromEmail), username, email, code);
    ConfirmationMail(Some(DefaultFromEmail), username, email, code)
  }

  /** A confirmation mail goes to the one given address, and its text holds
      the code, the username and the address. */
  lemma ConfirmationMailDelivers(sender: Option<string>, username: string, email: string, code: string)
    ensures ConfirmationMail(sender, username, email, code).recipients == [email]
    ensures Contains(ConfirmationMail(sender, username, email, code).body, code)
    ensures Contains(ConfirmationMail(sender, username, email, code).body, username)
    ensures Contains(ConfirmationMail(sender, username, email, code).body, email)
  {
    ContainsEachValue(Greeting, username, BeforeEmail, email, BeforeCode, code, Closing);
  }

  /** Each of the three values of a text laid out as a, x, b, y, c, z, d
      occurs in it. */
  lemma ContainsEachValue(a: string, x: string, b: string, y: string, c: string, z: string, d: string)
    ensures Contains(a + x + b + y + c + z + d, x)
    ensures Contains(a + x + b + y + c + z + d, y)
    ensures Contains(a + x + b + y + c + z + d, z)
  {
    var text := a + x + b + y + c + z + d;
    assert text == a + x + (b + y + c + z + d);
    ContainsMiddle(a, x, b + y + c + z + d);
    assert text == a + x + b + y + (c + z + d);
    ContainsMiddle(a + x + b, y, c + z + d);
    ContainsMiddle(a + x + b + y + c, z, d);
  }

  /** What a response carries on success. */
  datatype Payload =
    | Credentials(username: string, email: string)
    | AccessToken(token: string)
    | Profile(user: User)

  /** BadRequest names the keys of the error body; an error raised with a bare
      message has none. ServerError is an exception nothing handles. */
  datatype Response =
    | Success(payload: Payload)
    | BadRequest(fields: set<string>)
    | NotFound
    | Unauthorized
    | ServerError

  /** One request's outcome: the account table afterwards, the mail sent, the
      response. */
  datatype Effect = Effect(users: seq<User>, mail: Option<Mail>, response: Response)

  // ----- Sign-up -----

  /** UserSignUpViewSet.create of api/views.py: validate; get-or-create the
      account with exactly this username and e-mail; on the store's integrity
      error answer 400 keyed `username` when that username exists and `email`
      otherwise; else mail a fresh code to the account and answer 200. */
  function ViewSetSignUp(s: Settings, tg: TokenGenerator, users: seq<User>, data: SignUpData): (r: Effect)
    ensures r.response.Success? || r.response.BadRequest?
    ensures r.response.BadRequest? ==>
      && r.users == users && r.mail.None?
      && r.response.fields != {} && r.response.fields <= {"username", "email"}
    ensures r.response.Success? ==>
      && data.username.Some? && data.email.Some?
      && r.response.payload == Credentials(data.username.value, data.email.value)
  {
    var errors := SignUpErrors(s, data);
    if errors != {} then Effect(users, None, BadRequest(errors))
    else
      var name, email := data.username.value, data.email.value;
      match FindAccount(users, name, email)
      case Some(i) =>
        Effect(users, Some(ConfirmationMail(None, users[i].username, users[i].email, tg.makeCode(users[i]))),
               Success(Credentials(name, email)))
      case None =>
        match CreateUser(users, name, email)
        case None =>
          Effect(users, None, BadRequest(if FindUsername(users, name).Some? then {"username"} else {"email"}))
        case Some(t) =>
          var u := t[|t| - 1];
          Effect(t, Some(ConfirmationMail(None, u.username, u.email, tg.makeCode(u))), Success(Credentials(name, email)))
  }

  /** UserSignUpAPIView.post of api/v1/views.py: validate; always create (an
      integrity error is not caught); read the account back by e-mail; mail it
      its code; answer 200. */
  function ApiViewSignUp(s: Settings, tg: TokenGenerator, users: seq<User>, data: SignUpData): (r: Effect)
    ensures r.response.Success? || r.response.BadRequest? || r.response.ServerError?
    ensures !r.response.Success? ==> r.mail.None?
    ensures r.response.BadRequest? ==>
      r.users == users && r.response.fields != {} && r.response.fields <= {"username", "email"}
    ensures r.response.Success? ==>
      && data.username.Some? && data.email.Some?
      && r.response.payload == Credentials(data.username.value, data.email.value)
      && r.mail.Some? && r.mail.value.sender == Some(DefaultFromEmail)
      && r.mail.value.recipients == [data.email.value]
  {
    var errors := SignUpErrors(s, data);
    if errors != {} then Effect(users, None, BadRequest(errors))
    else
      var name, email := data.username.value, data.email.value;
      match CreateUser(users, name, email)
      case None => Effect(users, None, ServerError)
      case Some(t) =>
        match FindEmail(t, email)
        case None => Effect(t, None, ServerError)
        case Some(k) =>
          Effect(t, Some(MessageToUser(t[k].username, t[k].email, tg.makeCode(t[k]))), Success(Credentials(name, email)))
  }

  /** A request with invalid fields changes nothing, sends nothing and answers
      400 keyed by those fields, in both versions. */
  lemma SignUpInvalidInput(s: Settings, tg: TokenGenerator, users: seq<User>, data: SignUpData)
    requires SignUpErrors(s, data) != {}
    ensures ViewSetSignUp(s, tg, users, data) == Effect(users, None, BadRequest(SignUpErrors(s, data)))
    ensures ApiViewSignUp(s, tg, users, data) == Effect(users, None, BadRequest(SignUpErrors(s, data)))
  {
  }

  /** Resend: when one row already holds exactly this username and e-mail, no
      row is added, the 200 response echoes the input, and that row's code is
      mailed to its address. */
  lemma ViewSetSignUpResend(s: Settings, tg: TokenGenerator, users: seq<User>, data: SignUpData, i: nat)
    requires Consistent(users) && SignUpErrors(s, data) == {}
    requires i < |users| && users[i].username == data.username.value && users[i].email == data.email.value
    ensures ViewSetSignUp(s, tg, users, data) ==
      Effect(users,
             Some(ConfirmationMail(None, data.username.value, data.email.value, tg.makeCode(users[i]))),
             Success(Credentials(data.username.value, data.email.value)))
  {
    FindUsernameIsOnlyRow(users, data.username.value, i);
    var r := FindAccount(users, data.username.value, data.email.value);
    assert r.Some? ==> users[r.value].username == users[i].username;
  }

  /** A new pair whose username and e-mail are both free adds exactly one row,
      the new account, and mails it its code. */
  lemma ViewSetSignUpFresh(s: Settings, tg: TokenGenerator, users: seq<User>, data: SignUpData)
    requires SignUpErrors(s, data) == {}
    requires forall i :: 0 <= i < |users| ==> users[i].username != data.username.value
    requires forall i :: 0 <= i < |users| ==> users[i].email != data.email.value
    ensures var u := NewUser(data.username.value, data.email.value);
      ViewSetSignUp(s, tg, users, data) ==
        Effect(users + [u], Some(ConfirmationMail(None, u.username, u.email, tg.makeCode(u))),
               Success(Credentials(u.username, u.email)))
  {
  }

  /** A pair that is not an existing row but whose username or e-mail is held
      changes nothing, sends nothing, and answers 400 keyed `username` when the
      username is held and `email` otherwise. */
  lemma ViewSetSignUpConflict(s: Settings, tg: TokenGenerator, users: seq<User>, data: SignUpData)
    requires SignUpErrors(s, data) == {}
    requires forall i :: 0 <= i < |users| ==> users[i].username != data.username.value || users[i].email != data.email.value
    requires exists i :: 0 <= i < |users| && (users[i].username == data.username.value || users[i].email == data.email.value)
    ensures ViewSetSignUp(s, tg, users, data).users == users
    ensures ViewSetSignUp(s, tg, users, data).mail == None
    ensures ViewSetSignUp(s, tg, users, data).response ==
      BadRequest(if exists i :: 0 <= i < |users| && users[i].username == data.username.value
                 then {"username"} else {"email"})
  {
    var name, email := data.username.value, data.email.value;
    var i :| 0 <= i < |users| && (users[i].username == name || users[i].email == email);
    if users[i].username == name {
      assert FindUsername(users, name).Some?;
    } else {
      assert FindEmail(users, email).Some?;
    }
    if exists j :: 0 <= j < |users| && users[j].username == name {
      var j :| 0 <= j < |users| && users[j].username == name;
      assert FindUsername(users, name).Some?;
    }
  }

  /** Over every input: a mail goes out exactly when the answer is 200, it goes
      to the submitted address and holds the account's code; and the table
      either stays as it was or gains exactly the new account. */
  lemma ViewSetSignUpMailIffSuccess(s: Settings, tg: TokenGenerator, users: seq<User>, data: SignUpData)
    ensures var e := ViewSetSignUp(s, tg, users, data);
      && (e.mail.Some? <==> e.response.Success?)
      && (e.users == users || (e.response.Success? && e.users == users + [NewUser(data.username.value, data.email.value)]))
      && (e.mail.Some? ==>
            && e.mail.value.recipients == [data.email.value]
            && exists u :: u in e.users && u.username == data.username.value && u.email == data.email.value
                 && Contains(e.mail.value.body, tg.makeCode(u)))
  {
    var e := ViewSetSignUp(s, tg, users, data);
    if e.mail.Some? {
      var name, email := data.username.value, data.email.value;
      var m := e.mail.value;
      var u :| u in e.users && u.username == name && u.email == email && m == ConfirmationMail(None, name, email, tg.makeCode(u));
      ConfirmationMailDelivers(None, name, email, tg.makeCode(u));
    }
  }

  /** Sign-up keeps the account table consistent. */
  lemma ViewSetSignUpKeepsConsistent(s: Settings, tg: TokenGenerator, users: seq<User>, data: SignUpData)
    requires Consistent(users)
    ensures Consistent(ViewSetSignUp(s, tg, users, data).users)
  {
    if SignUpErrors(s, data) == {} {
      SignUpAcceptance(s, data);
      CreateUserAddsOneRow(users, data.username.value, data.email.value);
    }
  }

  /** Signing up twice with the same input: the second call adds no row,
      gives the same answer and mails the same address again, and the table
      then holds exactly one row with that username and e-mail. The code in
      the second mail is left open: a real code carries the time it was made. */
  lemma ViewSetSignUpIdempotent(s: Settings, tg: TokenGenerator, users: seq<User>, data: SignUpData)
    requires Consistent(users)
    requires ViewSetSignUp(s, tg, users, data).response.Success?
    ensures var first := ViewSetSignUp(s, tg, users, data);
      var second := ViewSetSignUp(s, tg, first.users, data);
      && second.users == first.users
      && second.response == first.response
      && second.mail.Some? && first.mail.Some?
      && second.mail.value.recipients == first.mail.value.recipients
    ensures var t := ViewSetSignUp(s, tg, users, data).users;
      exists i :: 0 <= i < |t| && t[i].username == data.username.value && t[i].email == data.email.value
        && forall j :: 0 <= j < |t| && t[j].username == data.username.value ==> j == i
  {
    var name, email := data.username.value, data.email.value;
    var first := ViewSetSignUp(s, tg, users, data);
    ViewSetSignUpKeepsConsistent(s, tg, users, data);
    var t := first.users;
    match FindAccount(users, name, email)
    case Some(i) =>
      ViewSetSignUpResend(s, tg, users, data, i);
      FindUsernameIsOnlyRow(t, name, i);
      ViewSetSignUpResend(s, tg, t, data, i);
    case None =>
      SignUpAcceptance(s, data);
      CreateUserAddsOneRow(users, name, email);
      var k := |users|;
      assert t[k] == NewUser(name, email);
      FindUsernameIsOnlyRow(t, name, k);
      ViewSetSignUpResend(s, tg, t, data, k);
  }

  /** The v1 sign-up: a username or e-mail already held ends in an unhandled
      integrity error before any mail, with no row added; otherwise exactly
      the new account is added and it, the account holding the submitted
      e-mail, receives the code at that address. */
  lemma ApiViewSignUpOutcomes(s: Settings, tg: TokenGenerator, users: seq<User>, data: SignUpData)
    requires Consistent(users) && SignUpErrors(s, data) == {}
    ensures var name, email := data.username.value, data.email.value;
      var e := ApiViewSignUp(s, tg, users, data);
      if (exists i :: 0 <= i < |users| && (users[i].username == name || users[i].email == email))
      then e == Effect(users, None, ServerError)
      else
        var u := NewUser(name, email);
        e == Effect(users + [u], Some(MessageToUser(name, email, tg.makeCode(u))), Success(Credentials(name, email)))
  {
    SignUpAcceptance(s, data);
    CreateUserAddsOneRow(users, data.username.value, data.email.value);
  }

  lemma ApiViewSignUpKeepsConsistent(s: Settings, tg: TokenGenerator, users: seq<User>, data: SignUpData)
    requires Consistent(users)
    ensures Consistent(ApiViewSignUp(s, tg, users, data).users)
  {
    if SignUpErrors(s, data) == {} {
      SignUpAcceptance(s, data);
      CreateUserAddsOneRow(users, data.username.value, data.email.value);
    }
  }

  // ----- Token exchange -----

  /** UserGetTokenViewSet.create of api/views.py: validate; 404 for an unknown
      username; the access token of that account when its code checks; 400
      keyed `confirmation_code` otherwise. */
  function ViewSetToken(tg: TokenGenerator, users: seq<User>, data: TokenData): (r: Response)
    ensures r.Success? || r.NotFound? || r.BadRequest?
    ensures r.Success? ==>
      && data.username.Some? && data.confirmationCode.Some?
      && exists i :: 0 <= i < |users| && users[i].username == data.username.value
           && tg.checkCode(users[i], data.confirmationCode.value)
           && r.payload == AccessToken(tg.accessToken(users[i]))
    ensures r.NotFound? ==>
      data.username.Some? && forall i :: 0 <= i < |users| ==> users[i].username != data.username.value
    ensures r.BadRequest? ==> r.fields != {} && r.fields <= {"username", "confirmation_code"}
  {
    match CheckGetTokenData(data)
    case TokenFieldErrors(errors) => BadRequest(errors)
    case UnknownUsername => NotFound
    case TokenFields(name, code) =>
      match FindUsername(users, name)
      case None => NotFound
      case Some(i) =>
        if tg.checkCode(users[i], code) then Success(AccessToken(tg.accessToken(users[i])))
        else BadRequest({"confirmation_code"})
  }

  /** UserGetTokenAPIView.post of api/v1/views.py: the token form (whose
      username check answers 404 for an unknown name); the access token of
      that account when its code checks; a 400 with a bare message otherwise. */
  function ApiViewToken(s: Settings, tg: TokenGenerator, users: seq<User>, data: TokenData): (r: Response)
    ensures r.Success? || r.NotFound? || r.BadRequest?
    ensures r.Success? ==>
      && data.username.Some? && data.confirmationCode.Some?
      && exists i :: 0 <= i < |users| && users[i].username == data.username.value
           && tg.checkCode(users[i], data.confirmationCode.value)
           && r.payload == AccessToken(tg.accessToken(users[i]))
    ensures r.NotFound? ==>
      data.username.Some? && forall i :: 0 <= i < |users| ==> users[i].username != data.username.value
    ensures r.BadRequest? ==> r.fields <= {"username", "confirmation_code"}
  {
    match CheckTokenData(s, users, data)
    case UnknownUsername => NotFound
    case TokenFieldErrors(errors) => BadRequest(errors)
    case TokenFields(name, code) =>
      match FindUsername(users, name)
      case None => NotFound
      case Some(i) =>
        if tg.checkCode(users[i], code) then Success(AccessToken(tg.accessToken(users[i])))
        else BadRequest({})
  }

  /** For a present username and code: 404 exactly when no row holds the
      username; otherwise the token of exactly that row when the code checks
      and a 400 when it does not, in both versions. */
  lemma TokenOutcomes(s: Settings, tg: TokenGenerator, users: seq<User>, name: string, code: string)
    requires Consistent(users)
    requires name != "" && |name| <= s.signUpUsernameMax && code != ""
    ensures var data := TokenData(Some(name), Some(code));
      if forall i :: 0 <= i < |users| ==> users[i].username != name then
        ViewSetToken(tg, users, data) == NotFound && ApiViewToken(s, tg, users, data) == NotFound
      else
        exists i :: 0 <= i < |users| && users[i].username == name
          && (tg.checkCode(users[i], code) ==>
                ViewSetToken(tg, users, data) == Success(AccessToken(tg.accessToken(users[i])))
                && ApiViewToken(s, tg, users, data) == Success(AccessToken(tg.accessToken(users[i]))))
          && (!tg.checkCode(users[i], code) ==>
                ViewSetToken(tg, users, data) == BadRequest({"confirmation_code"})
                && ApiViewToken(s, tg, users, data) == BadRequest({}))
  {
    TokenUsernameLookup(s, users, name, code);
    if exists i :: 0 <= i < |users| && users[i].username == name {
      var i :| 0 <= i < |users| && users[i].username == name;
      FindUsernameIsOnlyRow(users, name, i);
    }
  }

  /** A fresh sign-up followed by the token exchange with the mailed code
      yields the access token of the new account, in both versions. */
  lemma SignUpThenToken(s: Settings, tg: TokenGenerator, users: seq<User>, data: SignUpData)
    requires Consistent(users) && tg.Sound() && SignUpErrors(s, data) == {}
    requires forall i :: 0 <= i < |users| ==> users[i].username != data.username.value
    requires forall i :: 0 <= i < |users| ==> users[i].email != data.email.value
    ensures var u := NewUser(data.username.value, data.email.value);
      var request := TokenData(data.username, Some(tg.makeCode(u)));
      && ViewSetToken(tg, ViewSetSignUp(s, tg, users, data).users, request) == Success(AccessToken(tg.accessToken(u)))
      && ApiViewToken(s, tg, ApiViewSignUp(s, tg, users, data).users, request) == Success(AccessToken(tg.accessToken(u)))
  {
    var name, email := data.username.value, data.email.value;
    var u := NewUser(name, email);
    SignUpAcceptance(s, data);
    ViewSetSignUpFresh(s, tg, users, data);
    ApiViewSignUpOutcomes(s, tg, users, data);
    CreateUserAddsOneRow(users, name, email);
    var t := users + [u];
    assert t[|users|] == u;
    assert tg.makeCode(u) != "" && tg.checkCode(u, tg.makeCode(u));
    TokenOutcomes(s, tg, t, name, tg.makeCode(u));
  }

  // ----- The `me` endpoint -----

  datatype MeRequest = MeGet | MePatch(patch: ProfilePatch)

  /** The authenticated caller is a row of the table, loaded as it is stored. */
  predicate CallerInTable(users: seq<User>, caller: Caller)
  {
    caller.Authenticated? ==> caller.pk < |users| && caller.account == users[caller.pk]
  }

  /** UserViewSet.me, the same in both versions: 401 for the anonymous user;
      GET answers the caller's own row; PATCH validates the sent fields and
      saves them over the caller's row with the role pinned to the caller's
      current role. */
  function Me(s: Settings, users: seq<User>, caller: Caller, request: MeRequest): (r: Effect)
    requires CallerInTable(users, caller)
    ensures |r.users| == |users|
    ensures r.response == Unauthorized <==> caller.Anonymous?
    ensures r.response.Success? ==> caller.Authenticated? && r.response.payload == Profile(r.users[caller.pk])
    ensures r.response.BadRequest? ==> r.users == users && r.response.fields != {}
    ensures caller.Authenticated? && request.MeGet? ==> r.users == users && r.response.Success?
    ensures caller.Authenticated? && request.MePatch? ==>
      (r.response.Success? <==> ProfileErrors(s, users, caller.pk, request.patch) == {})
    ensures caller.Authenticated? && request.MePatch? && r.response.Success? ==>
      r.users == users[caller.pk := UpdateProfile(users[caller.pk], request.patch, users[caller.pk].role)]
  {
    if caller.Anonymous? then Effect(users, None, Unauthorized)
    else match request
      case MeGet => Effect(users, None, Success(Profile(caller.account)))
      case MePatch(patch) =>
        var errors := ProfileErrors(s, users, caller.pk, patch);
        if errors != {} then Effect(users, None, BadRequest(errors))
        else
          var u := UpdateProfile(caller.account, patch, caller.account.role);
          Effect(users[caller.pk := u], None, Success(Profile(u)))
  }

  /** Whatever the request sends, including a `role`, the stored role of every
      account is what it was, no other row changes, and no mail goes out. */
  lemma MeKeepsRole(s: Settings, users: seq<User>, caller: Caller, request: MeRequest)
    requires CallerInTable(users, caller)
    ensures var t := Me(s, users, caller, request).users;
      && |t| == |users|
      && (forall i :: 0 <= i < |users| ==> t[i].role == users[i].role)
      && (forall i :: 0 <= i < |users| && (caller.Anonymous? || i != caller.pk) ==> t[i] == users[i])
    ensures Me(s, users, caller, request).mail == None
  {
  }

  /** GET and every refused request change nothing; GET answers the caller's
      own row; the anonymous caller gets 401. */
  lemma MeReadsOwnRow(s: Settings, users: seq<User>, caller: Caller, request: MeRequest)
    requires CallerInTable(users, caller)
    ensures caller.Anonymous? ==> Me(s, users, caller, request) == Effect(users, None, Unauthorized)
    ensures caller.Authenticated? && request.MeGet? ==>
      Me(s, users, caller, request) == Effect(users, None, Success(Profile(users[caller.pk])))
    ensures !Me(s, users, caller, request).response.Success? ==> Me(s, users, caller, request).users == users
  {
  }

  /** A user-role account that sends `{"role": "admin"}` is answered 200 and
      is still a plain user afterwards. */
  lemma MeCannotSelfPromote(s: Settings, users: seq<User>, caller: Caller)
    requires CallerInTable(users, caller) && caller.Authenticated? && caller.account.role == Member
    ensures var e := Me(s, users, caller, MePatch(ProfilePatch(None, None, None, None, None, Some("admin"))));
      && e.response.Success?
      && e.users[caller.pk].role == "user"
      && !IsAdmin(e.users[caller.pk])
  {
  }

  /** A PATCH whose every sent field passes its column's checks, and whose
      username and e-mail no other row holds, is answered 200 with the
      caller's row as saved: each sent field replaces the stored one, each
      omitted field and the role are kept, and no other row changes. */
  lemma MePatchAccepted(s: Settings, users: seq<User>, caller: Caller, patch: ProfilePatch)
    requires CallerInTable(users, caller) && caller.Authenticated?
    requires patch.username.Some? ==>
      && ModelUsernameValid(s, patch.username.value)
      && forall i :: 0 <= i < |users| && i != caller.pk ==> users[i].username != patch.username.value
    requires patch.email.Some? ==>
      && patch.email.value != "" && |patch.email.value| <= EmailColumnMax
      && s.isEmailAddress(patch.email.value)
      && forall i :: 0 <= i < |users| && i != caller.pk ==> users[i].email != patch.email.value
    requires patch.firstName.Some? ==> |patch.firstName.value| <= PersonNameMax
    requires patch.lastName.Some? ==> |patch.lastName.value| <= PersonNameMax
    requires patch.role.Some? ==> patch.role.value in Roles
    ensures var e := Me(s, users, caller, MePatch(patch));
      var row := e.users[caller.pk];
      && e.response == Success(Profile(row))
      && |e.users| == |users|
      && (forall i :: 0 <= i < |users| && i != caller.pk ==> e.users[i] == users[i])
      && row.role == users[caller.pk].role && row.isSuperuser == users[caller.pk].isSuperuser
      && row.username == (if patch.username.Some? then patch.username.value else users[caller.pk].username)
      && row.email == (if patch.email.Some? then patch.email.value else users[caller.pk].email)
      && row.firstName == (if patch.firstName.Some? then patch.firstName.value else users[caller.pk].firstName)
      && row.lastName == (if patch.lastName.Some? then patch.lastName.value else users[caller.pk].lastName)
      && row.bio == (if patch.bio.Some? then patch.bio.value else users[caller.pk].bio)
  {
    assert ProfileErrors(s, users, caller.pk, patch) == {};
  }

  /** The `me` endpoint keeps the account table consistent. */
  lemma MeKeepsConsistent(s: Settings, users: seq<User>, caller: Caller, request: MeRequest)
    requires Consistent(users) && CallerInTable(users, caller)
    ensures Consistent(Me(s, users, caller, request).users)
  {
    if caller.Authenticated? && request.MePatch? && ProfileErrors(s, users, caller.pk, request.patch) == {} {
      ProfileUpdateKeepsConsistent(s, users, caller.pk, request.patch);
    }
  }
}
