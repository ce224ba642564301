/** The permission classes of api/permissions.py: each is a yes/no decision
    over the request's verb, the caller and, at object level, the object's
    author. */
module Permissions {
  import opened Common
  import opened Users

  /** `request.user`: the anonymous user, or an authenticated account with
      its primary key. */
  datatype Caller = Anonymous | Authenticated(pk: nat, account: User)

  const SafeMethods: seq<string> := ["GET", "HEAD", "OPTIONS"]

  predicate IsSafe(verb: string)
  {
    verb in SafeMethods
  }

  /** `request.user.is_superuser`; the anonymous user answers false. */
  predicate IsSuperuser(c: Caller)
  {
    c.Authenticated? && c.account.isSuperuser
  }

  /** `obj.author == request.user`: the anonymous user is nobody's author. */
  predicate IsAuthor(c: Caller, authorPk: nat)
  {
    c.Authenticated? && c.pk == authorPk
  }

  /** IsAdminOrReadOnly.has_permission. */
  predicate AdminOrReadOnly(verb: string, c: Caller)
  {
    IsSafe(verb) || (c.Authenticated? && (IsAdmin(c.account) || IsSuperuser(c)))
  }

  /** IsAdminModeratorOwnerOrReadOnly.has_permission. */
  predicate AuthoredContentAccess(verb: string, c: Caller)
  {
    IsSafe(verb) || c.Authenticated?
  }

  /** IsAdminModeratorOwnerOrReadOnly.has_object_permission. The anonymous
      user has no `is_admin` attribute, so for an unsafe verb the check
      raises instead of answering: None stands for that error. */
  function AuthoredObjectAccess(verb: string, c: Caller, authorPk: nat): Option<bool>
  {
    if IsSafe(verb) then Some(true)
    else if c.Anonymous? then None
    else Some(IsAdmin(c.account) || IsModerator(c.account) || IsAuthor(c, authorPk))
  }

  /** IsAdmin.has_permission. */
  predicate AdminOnly(c: Caller)
  {
    c.Authenticated? && (IsAdmin(c.account) || IsSuperuser(c))
  }

  /** IsYourself.has_permission. Whether the request's URL contains the
      `/users/me/` route is an input bit; `roleSent` says whether `role` is a
      key of the request body. */
  predicate Yourself(verb: string, c: Caller, onMePath: bool, roleSent: bool)
  {
    c.Authenticated? && onMePath
    && (verb == "GET" || verb == "DELETE" || (verb == "PATCH" && !roleSent))
  }

  /** The role test IsUser repeats in both of its checks. */
  predicate HasKnownRole(c: Caller)
  {
    c.Authenticated? && (c.account.role == Member || c.account.role == Admin || c.account.role == Moderator)
  }

  /** IsUser.has_permission. */
  predicate UserAccess(c: Caller)
  {
    HasKnownRole(c)
  }

  /** IsUser.has_object_permission. */
  predicate UserObjectAccess(verb: string, c: Caller, authorPk: nat)
  {
    IsSafe(verb) || (IsAuthor(c, authorPk) && HasKnownRole(c))
  }

  /** The framework grants an object request when the view-level check passes
      and then the object-level check answers true. */
  predicate AuthoredContentGranted(verb: string, c: Caller, authorPk: nat)
  {
    AuthoredContentAccess(verb, c) && AuthoredObjectAccess(verb, c, authorPk) == Some(true)
  }

  // ----- Properties of the policy -----

  lemma SafeMethodsAlwaysRead(verb: string, c: Caller, authorPk: nat)
    requires IsSafe(verb)
    ensures AdminOrReadOnly(verb, c)
    ensures AuthoredContentAccess(verb, c)
    ensures AuthoredObjectAccess(verb, c, authorPk) == Some(true)
    ensures AuthoredContentGranted(verb, c, authorPk)
    ensures UserObjectAccess(verb, c, authorPk)
  {
  }

  lemma AdminOrReadOnlyWrites(verb: string, c: Caller)
    requires !IsSafe(verb)
    ensures AdminOrReadOnly(verb, c) <==> c.Authenticated? && (c.account.role == "admin" || c.account.isSuperuser)
  {
  }

  lemma AnonymousCannotWrite(verb: string, authorPk: nat)
    requires !IsSafe(verb)
    ensures !AuthoredContentAccess(verb, Anonymous)
    ensures !AdminOrReadOnly(verb, Anonymous)
    ensures !AuthoredContentGranted(verb, Anonymous, authorPk)
  {
  }

  /** At object level an authenticated caller may change a review or comment
      exactly when it is an admin, a moderator or the author. A superuser
      whose role is "user" is not among them. */
  lemma AuthoredObjectWrites(verb: string, c: Caller, authorPk: nat)
    requires !IsSafe(verb) && c.Authenticated?
    ensures AuthoredObjectAccess(verb, c, authorPk) == Some(true)
      <==> c.account.role == "admin" || c.account.role == "moderator" || c.pk == authorPk
    ensures AuthoredContentGranted(verb, c, authorPk) <==> AuthoredObjectAccess(verb, c, authorPk) == Some(true)
  {
  }

  /** The object-level check never reaches its error: whenever the view-level
      check lets a request through, the object-level check answers. */
  lemma ObjectCheckAnswersAfterViewCheck(verb: string, c: Caller, authorPk: nat)
    requires AuthoredContentAccess(verb, c)
    ensures AuthoredObjectAccess(verb, c, authorPk).Some?
  {
  }

  /** A plain user may not delete someone else's review; a moderator may. */
  lemma DeleteOthersReview(user: Caller, moderator: Caller, authorPk: nat)
    requires user.Authenticated? && user.account.role == "user" && user.pk != authorPk
    requires moderator.Authenticated? && moderator.account.role == "moderator"
    ensures !AuthoredContentGranted("DELETE", user, authorPk)
    ensures AuthoredContentGranted("DELETE", moderator, authorPk)
  {
  }

  lemma AdminOnlyIsStricter(verb: string, c: Caller)
    ensures !c.Authenticated? ==> !AdminOnly(c)
    ensures AdminOnly(c) ==> AdminOrReadOnly(verb, c)
  {
  }

  /** IsUser lets through exactly the authenticated accounts whose role is
      one of the declared choices. */
  lemma UserAccessIsDeclaredRole(c: Caller)
    ensures UserAccess(c) <==> c.Authenticated? && HasDeclaredRole(c.account)
    ensures c.Authenticated? && c.account.role == "user" ==> UserAccess(c)
  {
  }

  lemma UserObjectOnlyAuthorWrites(verb: string, c: Caller, authorPk: nat)
    requires !IsSafe(verb)
    ensures UserObjectAccess(verb, c, authorPk) ==> c.Authenticated? && c.pk == authorPk
    ensures c.Authenticated? && c.pk != authorPk ==> !UserObjectAccess(verb, c, authorPk)
  {
  }

  lemma YourselfRules(verb: string, c: Caller, onMePath: bool, roleSent: bool)
    ensures c.Anonymous? ==> !Yourself(verb, c, onMePath, roleSent)
    ensures c.Authenticated? && onMePath ==> (Yourself("PATCH", c, onMePath, roleSent) <==> !roleSent)
    ensures !onMePath ==> !Yourself(verb, c, onMePath, roleSent)
  {
  }
}
