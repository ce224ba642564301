/** The running service as one object: the account table and the review
    table it updates in place, and the mails it has sent, kept as a ghost
    outbox. Each endpoint is a method proved to produce exactly the table,
    the mail and the response its specification function in Views gives. */
module Api {
  import opened Common
  import opened Users
  import opened Reviews
  import opened Serializers
  import opened Views

  /** The mails one request sends: none or one. */
  function MailsOf(mail: Option<Mail>): (r: seq<Mail>)
    ensures |r| <= 1
    ensures |r| == 1 <==> mail.Some?
    ensures mail.Some? ==> r[0] == mail.value
  {
    match mail
    case None => []
    case Some(m) => [m]
  }

  class Site {
    var users: seq<User>
    var reviews: seq<Review>
    ghost var outbox: seq<Mail>
    const settings: Settings
    const tokens: TokenGenerator
    /** MAX_NAME_LENGTH, the limit of a review's text. */
    const maxReviewText: nat

    /** The constraints of the store hold of both tables. */
    ghost predicate Valid()
      reads this
    {
      Consistent(users) && ReviewTableValid(reviews)
    }

    constructor(settings: Settings, tokens: TokenGenerator, maxReviewText: nat)
      ensures this.settings == settings && this.tokens == tokens && this.maxReviewText == maxReviewText
      ensures users == [] && reviews == [] && outbox == []
      ensures Valid()
    {
      this.settings := settings;
      this.tokens := tokens;
      this.maxReviewText := maxReviewText;
      users := [];
      reviews := [];
      outbox := [];
    }

    /** send_message_to_user of api/v1/views.py: one mail, nothing else. */
    method SendMessageToUser(username: string, email: string, code: string)
      modifies this
      ensures outbox == old(outbox) + [MessageToUser(username, email, code)]
      ensures users == old(users) && reviews == old(reviews)
    {
      outbox := outbox + [MessageToUser(username, email, code)];
    }

    /** UserSignUpSerializer.create: insert the account, or report the
        store's integrity error by returning false with nothing changed. */
    method CreateAccount(name: string, email: string) returns (created: bool)
      requires Valid() && name != ReservedName
      modifies this
      ensures Valid()
      ensures created <==> CreateUser(old(users), name, email).Some?
      ensures users == if created then CreateUser(old(users), name, email).value else old(users)
      ensures reviews == old(reviews) && outbox == old(outbox)
    {
      CreateUserAddsOneRow(users, name, email);
      if FindUsername(users, name).Some? || FindEmail(users, email).Some? {
        return false;
      }
      users := users + [NewUser(name, email)];
      created := true;
    }

    /** UserSignUpViewSet.create of api/views.py. */
    method SignUpViewSet(data: SignUpData) returns (response: Response)
      requires Valid()
      modifies this
      ensures Valid()
      ensures var e := ViewSetSignUp(settings, tokens, old(users), data);
        users == e.users && outbox == old(outbox) + MailsOf(e.mail) && response == e.response
      ensures reviews == old(reviews)
    {
      ViewSetSignUpKeepsConsistent(settings, tokens, users, data);
      var errors := SignUpErrors(settings, data);
      if errors != {} {
        return BadRequest(errors);
      }
      SignUpAcceptance(settings, data);
      var name, email := data.username.value, data.email.value;
      var found := FindAccount(users, name, email);
      var account: User;
      if found.Some? {
        account := users[found.value];
      } else {
        var created := CreateAccount(name, email);
        if !created {
          return BadRequest(if FindUsername(users, name).Some? then {"username"} else {"email"});
        }
        account := users[|users| - 1];
      }
      outbox := outbox + [ConfirmationMail(None, account.username, account.email, tokens.makeCode(account))];
      response := Success(Credentials(name, email));
    }

    /** UserSignUpAPIView.post of api/v1/views.py; an integrity error on the
        create is answered ServerError. */
    method SignUpApiView(data: SignUpData) returns (response: Response)
      requires Valid()
      modifies this
      ensures Valid()
      ensures var e := ApiViewSignUp(settings, tokens, old(users), data);
        users == e.users && outbox == old(outbox) + MailsOf(e.mail) && response == e.response
      ensures reviews == old(reviews)
    {
      var errors := SignUpErrors(settings, data);
      if errors != {} {
        return BadRequest(errors);
      }
      SignUpAcceptance(settings, data);
      var name, email := data.username.value, data.email.value;
      var created := CreateAccount(name, email);
      if !created {
        return ServerError;
      }
      var found := FindEmail(users, email);
      if found.None? {
        return ServerError;
      }
      var account := users[found.value];
      SendMessageToUser(account.username, account.email, tokens.makeCode(account));
      response := Success(Credentials(name, email));
    }

    /** UserGetTokenViewSet.create of api/views.py: reads the table only. */
    method ObtainTokenViewSet(data: TokenData) returns (response: Response)
      ensures response == ViewSetToken(tokens, users, data)
    {
      var check := CheckGetTokenData(data);
      if check.TokenFieldErrors? {
        return BadRequest(check.errors);
      } else if check.UnknownUsername? {
        return NotFound;
      }
      var found := FindUsername(users, check.username);
      if found.None? {
        return NotFound;
      }
      var account := users[found.value];
      if tokens.checkCode(account, check.code) {
        response := Success(AccessToken(tokens.accessToken(account)));
      } else {
        response := BadRequest({"confirmation_code"});
      }
    }

    /** UserGetTokenAPIView.post of api/v1/views.py: reads the table only. */
    method ObtainTokenApiView(data: TokenData) returns (response: Response)
      ensures response == ApiViewToken(settings, tokens, users, data)
    {
      var check := CheckTokenData(settings, users, data);
      if check.UnknownUsername? {
        return NotFound;
      } else if check.TokenFieldErrors? {
        return BadRequest(check.errors);
      }
      var found := FindUsername(users, check.username);
      if found.None? {
        return NotFound;
      }
      var account := users[found.value];
      if tokens.checkCode(account, check.code) {
        response := Success(AccessToken(tokens.accessToken(account)));
      } else {
        response := BadRequest({});
      }
    }

    /** UserViewSet.me, the same in both versions. */
    method Me(caller: Permissions.Caller, request: MeRequest) returns (response: Response)
      requires Valid() && CallerInTable(users, caller)
      modifies this
      ensures Valid()
      ensures var e := Views.Me(settings, old(users), caller, request);
        users == e.users && response == e.response
      ensures outbox == old(outbox) && reviews == old(reviews)
    {
      MeKeepsConsistent(settings, users, caller, request);
      if caller.Anonymous? {
        return Unauthorized;
      }
      if request.MeGet? {
        return Success(Profile(caller.account));
      }
      var errors := ProfileErrors(settings, users, caller.pk, request.patch);
      if errors != {} {
        return BadRequest(errors);
      }
      var updated := UpdateProfile(caller.account, request.patch, caller.account.role);
      users := users[caller.pk := updated];
      response := Success(Profile(updated));
    }

    /** Posting a review through ReviewSerializer: the refused fields, or the
        review saved at the end of the table. */
    method CreateReview(title: nat, author: nat, text: string, score: int) returns (errors: set<string>)
      requires Valid()
      modifies this
      ensures Valid()
      ensures errors == ReviewErrors(maxReviewText, old(reviews), title, author, text, score)
      ensures reviews == if errors == {} then old(reviews) + [Review(title, author, text, score)] else old(reviews)
      ensures users == old(users) && outbox == old(outbox)
    {
      PostReviewKeepsTableValid(maxReviewText, reviews, title, author, text, score);
      errors := ReviewErrors(maxReviewText, reviews, title, author, text, score);
      if errors == {} {
        reviews := reviews + [Review(title, author, text, score)];
      }
    }
  }
}
