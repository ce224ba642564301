/** The account model of user/models.py: the three roles and the two role
    properties, the validators attached to the `username` column, and the
    table of accounts, whose `username` and `email` columns are each unique. */
module Users {
  import opened Common

  const Admin: string := "admin"
  const Moderator: string := "moderator"
  const Member: string := "user"   // User.USER
  /** The declared role choices, in declaration order. */
  const Roles: seq<string> := [Admin, Moderator, Member]
  /** The one username both the model and the sign-up form refuse. */
  const ReservedName: string := "me"

  /** One account row: the columns the modelled flows read or write. */
  datatype User = User(
    username: string,
    email: string,
    role: string,
    firstName: string,
    lastName: string,
    bio: string,
    isSuperuser: bool)

  /** The `is_admin` property. */
  predicate IsAdmin(u: User)
  {
    u.role == Admin
  }

  /** The `is_moderator` property. */
  predicate IsModerator(u: User)
  {
    u.role == Moderator
  }

  predicate HasDeclaredRole(u: User)
  {
    u.role in Roles
  }

  /** The row `User.objects.create(username=..., email=...)` inserts: every
      other column takes its default. */
  function NewUser(username: string, email: string): (r: User)
    ensures r.username == username && r.email == email
    ensures r.role == "user" && HasDeclaredRole(r) && !r.isSuperuser
  {
    User(username, email, Member, "", "", "", false)
  }

  lemma RolesAreExclusive(u: User)
    ensures !(IsAdmin(u) && IsModerator(u))
    ensures IsAdmin(u) <==> u.role == "admin"
    ensures IsModerator(u) <==> u.role == "moderator"
  {
  }

  lemma NewUserHasDefaultRole(username: string, email: string)
    ensures NewUser(username, email).role == "user"
    ensures HasDeclaredRole(NewUser(username, email))
    ensures !IsAdmin(NewUser(username, email)) && !IsModerator(NewUser(username, email))
  {
  }

  /** Deployment parameters the sources import from a constants module that
      is not part of this model, and the two character-level tests that come
      from libraries: the `\w` class of the regular expressions and the
      address check of an e-mail field. */
  datatype Settings = Settings(
    signUpUsernameMax: nat,          // MAX_USERNAME_LENGHT of api_yamdb.constants
    signUpEmailMax: nat,             // MAX_EMAIL_LENGTH of api_yamdb.constants
    modelUsernameMax: nat,           // MAX_USERNAME_LENGHT of reviews.constants
    isWordChar: char -> bool,        // `\w`
    isEmailAddress: string -> bool)  // the e-mail field's address validator
  {
    /** Whatever else `\w` accepts, it accepts the ASCII letters, digits and `_`. */
    ghost predicate Valid()
    {
      forall c :: IsAsciiWordChar(c) ==> isWordChar(c)
    }
  }

  predicate IsAsciiWordChar(c: char)
  {
    'a' <= c <= 'z' || 'A' <= c <= 'Z' || '0' <= c <= '9' || c == '_'
  }

  /** One character of `[\w.@+-]`. */
  predicate IsSignChar(s: Settings, c: char)
  {
    s.isWordChar(c) || c == '.' || c == '@' || c == '+' || c == '-'
  }

  /** REGEX_SIGN, `^[\w.@+-]+\Z`: one or more characters, each of the class. */
  predicate MatchesSignPattern(s: Settings, name: string)
  {
    |name| > 0 && forall i :: 0 <= i < |name| ==> IsSignChar(s, name[i])
  }

  /** REGEX_ME, `[^m][^e]`, as the regex validator applies it: a search for
      two adjacent characters, the first not `m` and the second not `e`,
      anywhere in the name. */
  predicate MeSearch(name: string)
  {
    |name| >= 2 && ((name[0] != 'm' && name[1] != 'e') || MeSearch(name[1..]))
  }

  ghost predicate HasNonMePair(name: string)
  {
    exists i :: 0 <= i < |name| - 1 && name[i] != 'm' && name[i + 1] != 'e'
  }

  /** The search finds a match exactly when some adjacent pair fits the class. */
  lemma {:induction false} MeSearchFindsPair(name: string)
    ensures MeSearch(name) <==> HasNonMePair(name)
  {
    if |name| >= 2 {
      var rest := name[1..];
      MeSearchFindsPair(rest);
      if HasNonMePair(rest) {
        var i :| 0 <= i < |rest| - 1 && rest[i] != 'm' && rest[i + 1] != 'e';
        assert name[i + 1] == rest[i] && name[i + 2] == rest[i + 1];
      }
      if HasNonMePair(name) && !(name[0] != 'm' && name[1] != 'e') {
        var i :| 0 <= i < |name| - 1 && name[i] != 'm' && name[i + 1] != 'e';
        assert i > 0;
        assert rest[i - 1] == name[i] && rest[i] == name[i + 1];
      }
    }
  }

  /** Consequences of the search semantics: the reserved name and every name
      shorter than two characters fail REGEX_ME, and so does any name all of
      whose pairs start with `m` or end with `e`, such as "mae" or "Me". */
  lemma MeSearchRejections()
    ensures !MeSearch(ReservedName)
    ensures forall name: string :: |name| < 2 ==> !MeSearch(name)
    ensures !MeSearch("mae") && !MeSearch("mme")
    ensures !MeSearch("Me") && MeSearch("bob")
  {
    assert "mae"[1..] == "ae";
    assert "mme"[1..] == "me";
  }

  /** All the validators of the `username` column: the length limit, REGEX_SIGN
      and REGEX_ME. */
  predicate ModelUsernameValid(s: Settings, name: string)
  {
    |name| <= s.modelUsernameMax && MatchesSignPattern(s, name) && MeSearch(name)
  }

  lemma ModelUsernameRejectsReserved(s: Settings, name: string)
    requires ModelUsernameValid(s, name)
    ensures name != ReservedName && |name| >= 2
    ensures forall i :: 0 <= i < |name| ==> IsSignChar(s, name[i])
  {
    MeSearchRejections();
  }

  // ----- The account table -----

  ghost predicate UniqueUsernames(users: seq<User>)
  {
    forall i, j :: 0 <= i < j < |users| ==> users[i].username != users[j].username
  }

  ghost predicate UniqueEmails(users: seq<User>)
  {
    forall i, j :: 0 <= i < j < |users| ==> users[i].email != users[j].email
  }

  /** What holds of the table in every state the modelled flows reach: the two
      unique columns, a declared role in every row, and no row named "me". */
  ghost predicate Consistent(users: seq<User>)
  {
    && UniqueUsernames(users)
    && UniqueEmails(users)
    && (forall i :: 0 <= i < |users| ==> HasDeclaredRole(users[i]))
    && (forall i :: 0 <= i < |users| ==> users[i].username != ReservedName)
  }

  /** The query `User.objects.filter(username=name)`: the index of the row
      with that username, if any. */
  function FindUsername(users: seq<User>, name: string): (r: Option<nat>)
    ensures r.Some? ==> r.value < |users| && users[r.value].username == name
    ensures r.None? ==> forall i :: 0 <= i < |users| ==> users[i].username != name
  {
    if |users| == 0 then None
    else if users[0].username == name then Some(0)
    else match FindUsername(users[1..], name)
      case None => None
      case Some(k) => Some(k + 1)
  }

  /** The query `User.objects.filter(email=email)`. */
  function FindEmail(users: seq<User>, email: string): (r: Option<nat>)
    ensures r.Some? ==> r.value < |users| && users[r.value].email == email
    ensures r.None? ==> forall i :: 0 <= i < |users| ==> users[i].email != email
  {
    if |users| == 0 then None
    else if users[0].email == email then Some(0)
    else match FindEmail(users[1..], email)
      case None => None
      case Some(k) => Some(k + 1)
  }

  /** The query `User.objects.get(username=name, email=email)` that
      `get_or_create` starts with. */
  function FindAccount(users: seq<User>, name: string, email: string): (r: Option<nat>)
    ensures r.Some? ==> r.value < |users| && users[r.value].username == name && users[r.value].email == email
    ensures r.None? ==> forall i :: 0 <= i < |users| ==> users[i].username != name || users[i].email != email
  {
    if |users| == 0 then None
    else if users[0].username == name && users[0].email == email then Some(0)
    else match FindAccount(users[1..], name, email)
      case None => None
      case Some(k) => Some(k + 1)
  }

  /** In a table with unique usernames the query's answer is the only row
      with that username. */
  lemma FindUsernameIsOnlyRow(users: seq<User>, name: string, i: nat)
    requires UniqueUsernames(users)
    requires i < |users| && users[i].username == name
    ensures FindUsername(users, name) == Some(i)
  {
  }

  lemma FindEmailIsOnlyRow(users: seq<User>, email: string, i: nat)
    requires UniqueEmails(users)
    requires i < |users| && users[i].email == email
    ensures FindEmail(users, email) == Some(i)
  {
  }

  /** Inserting a row whose username and email are both free, with a declared
      role and a name other than "me", keeps the table consistent. */
  lemma AppendKeepsConsistent(users: seq<User>, u: User)
    requires Consistent(users)
    requires FindUsername(users, u.username).None? && FindEmail(users, u.email).None?
    requires HasDeclaredRole(u) && u.username != ReservedName
    ensures Consistent(users + [u])
  {
    var t := users + [u];
    forall i, j | 0 <= i < j < |t|
      ensures t[i].username != t[j].username && t[i].email != t[j].email
    {
      if j == |users| {
        assert t[i] == users[i];
      } else {
        assert t[i] == users[i] && t[j] == users[j];
      }
    }
  }

  /** Replacing row `k` by a row whose username and email no OTHER row holds,
      with a declared role and a name other than "me", keeps the table
      consistent. */
  lemma ReplaceKeepsConsistent(users: seq<User>, k: nat, u: User)
    requires Consistent(users) && k < |users|
    requires forall i :: 0 <= i < |users| && i != k ==> users[i].username != u.username
    requires forall i :: 0 <= i < |users| && i != k ==> users[i].email != u.email
    requires HasDeclaredRole(u) && u.username != ReservedName
    ensures Consistent(users[k := u])
  {
    var t := users[k := u];
    forall i, j | 0 <= i < j < |t|
      ensures t[i].username != t[j].username && t[i].email != t[j].email
    {
      if i == k {
        assert t[j] == users[j];
      } else if j == k {
        assert t[i] == users[i];
      } else {
        assert t[i] == users[i] && t[j] == users[j];
      }
    }
  }
}
