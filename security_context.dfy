/**
 * Authentication and authorization of the analytics web front end.
 *
 * Authorization is a first-match search over ordered endpoint groups (unsecured,
 * admin, writer, reader, cache reader) ending in a default deny. The login endpoint
 * checks a user name and password against the local users, then against LDAP under each
 * configured base DN. The request filter takes Basic credentials first and checks them
 * the same way; only a request without a Basic header is checked by its JWT cookie.
 *
 * The per-thread current user of the Java class is an explicit parameter here:
 * every operation that may change it takes the current user and returns the
 * new one. The LDAP and JWT validators are opaque functions held by the context.
 */
module Security {
  import opened Options

  /** The exceptions the context throws or lets escape. */
  datatype Error =
    | AuthenticationException(message: string)
      /** An AuthenticationException wrapping whatever the JWT check threw. */
    | TokenRejected
    | BadCredentialsException(message: string)
      /** The LDAP authenticator's failure when bound under the given DN. */
    | LdapFailure(dn: string)
    | AuthorizationException(message: string)
    | NullPointerException
    | ArrayIndexOutOfBoundsException
      /** Credentials in the Basic header that are not valid Base64. */
    | IllegalArgumentException

  datatype Result<T> = Ok(value: T) | Err(error: Error)

  datatype AccessLevel = ADMIN | WRITER | READER | CACHE

  /** The endpoint groups, each a list of endpoint names (the path without its leading "/"). */
  datatype Endpoints = Endpoints(
    unsecured: seq<string>,
    admin: seq<string>,
    writer: seq<string>,
    reader: seq<string>,
    cacheReader: seq<string>)

  /** The part of the security configuration the context reads. Local-only users map
      each name to its password. */
  datatype SecurityConfiguration = SecurityConfiguration(
    authorizationEnabled: bool,
    ldapBaseDns: seq<string>,
    adminUsers: set<string>,
    writeUsers: set<string>,
    readOnlyUsers: set<string>,
    cacheReaderUsers: set<string>,
    localOnlyUsers: map<string, string>)

  /** The user sets built from a configuration; init and refresh always replace them together. */
  datatype UserSets = UserSets(
    adminUsers: set<string>,
    writeUsers: set<string>,
    readOnlyUsers: set<string>,
    cacheReaderUsers: set<string>,
    localOnlyUsers: map<string, string>)

  function UserSetsOf(conf: SecurityConfiguration): UserSets {
    UserSets(conf.adminUsers, conf.writeUsers, conf.readOnlyUsers, conf.cacheReaderUsers,
             conf.localOnlyUsers)
  }

  /** What the context reads of an HTTP request: the request URI, the query parameters,
      the Authorization header and the JWT cookie. */
  datatype Request = Request(
    uri: string,
    params: map<string, string>,
    authorization: Option<string>,
    jwtCookie: Option<string>)

  function Param(req: Request, name: string): Option<string> {
    if name in req.params then Some(req.params[name]) else None
  }

  /** Whether the LDAP server accepts (resolved DN, user name, password). */
  type LdapValidator = (string, string, string) -> bool

  /** The profile id a JWT carries, or None when the token does not validate. */
  type TokenValidator = string -> Option<string>

  /** The current user of a thread nobody has authenticated. */
  const DefaultUser: string := "default_unsecured_user"

  const LoginPrefix: string := "/login"

  const BasicPrefix: string := "Basic "

  // ---------------------------------------------------------------------------
  // Authorization

  /** Whether uri starts with "/" followed by one of the endpoint names. */
  function MatchesAny(uri: string, names: seq<string>): (b: bool)
    ensures b <==> exists i :: 0 <= i < |names| && "/" + names[i] <= uri
  {
    if names == [] then false
    else if "/" + names[0] <= uri then true
    else MatchesAny(uri, names[1..])
  }

  /** An endpoint group and the users it admits. */
  datatype Category = Category(endpoints: seq<string>, members: set<string>)

  /** The secured groups in the order they are searched. */
  function Categories(eps: Endpoints, sets: UserSets): (cats: seq<Category>)
    ensures |cats| == 4
  {
    [Category(eps.admin, sets.adminUsers),
     Category(eps.writer, sets.writeUsers),
     Category(eps.reader, sets.readOnlyUsers),
     Category(eps.cacheReader, sets.cacheReaderUsers)]
  }

  /** The first group whose endpoints match uri decides, on its own members alone;
      when no group matches, the request is denied. */
  function FirstMatchAllows(uri: string, user: string, cats: seq<Category>): bool {
    if cats == [] then false
    else if MatchesAny(uri, cats[0].endpoints) then user in cats[0].members
    else FirstMatchAllows(uri, user, cats[1..])
  }

  /** Group i is the first whose endpoints match uri. */
  predicate FirstMatchAt(uri: string, cats: seq<Category>, i: nat) {
    && i < |cats|
    && MatchesAny(uri, cats[i].endpoints)
    && forall j :: 0 <= j < i ==> !MatchesAny(uri, cats[j].endpoints)
  }

  /** The first matching group decides: the request is allowed exactly when the user is one
      of that group's members; the groups after it are never consulted. */
  lemma {:induction false} FirstMatchDecides(uri: string, user: string, cats: seq<Category>, i: nat)
    requires FirstMatchAt(uri, cats, i)
    ensures FirstMatchAllows(uri, user, cats) <==> user in cats[i].members
    decreases i
  {
    if i > 0 {
      assert !MatchesAny(uri, cats[0].endpoints);
      assert FirstMatchAt(uri, cats[1..], i - 1) by {
        forall j | 0 <= j < i - 1 ensures !MatchesAny(uri, cats[1..][j].endpoints) {
          assert cats[1..][j] == cats[j + 1];
        }
      }
      FirstMatchDecides(uri, user, cats[1..], i - 1);
    }
  }

  /** A uri that matches no group's endpoints is denied. */
  lemma {:induction false} NoMatchDenies(uri: string, user: string, cats: seq<Category>)
    requires forall j :: 0 <= j < |cats| ==> !MatchesAny(uri, cats[j].endpoints)
    ensures !FirstMatchAllows(uri, user, cats)
    decreases |cats|
  {
    if cats != [] {
      assert !MatchesAny(uri, cats[0].endpoints);
      NoMatchDenies(uri, user, cats[1..]);
    }
  }

  /** Whatever allows a request is a first match whose group admits the user. */
  lemma {:induction false} AllowedOnlyByFirstMatch(uri: string, user: string, cats: seq<Category>)
    requires FirstMatchAllows(uri, user, cats)
    ensures exists i: nat :: FirstMatchAt(uri, cats, i) && user in cats[i].members
    decreases |cats|
  {
    if MatchesAny(uri, cats[0].endpoints) {
      assert FirstMatchAt(uri, cats, 0);
    } else {
      AllowedOnlyByFirstMatch(uri, user, cats[1..]);
      var i: nat :| FirstMatchAt(uri, cats[1..], i) && user in cats[1..][i].members;
      assert cats[1..][i] == cats[i + 1];
      assert FirstMatchAt(uri, cats, i + 1) by {
        forall j | 0 <= j < i + 1 ensures !MatchesAny(uri, cats[j].endpoints) {
          if j > 0 { assert cats[j] == cats[1..][j - 1]; }
        }
      }
    }
  }

  function Denial(user: string, uri: string): string {
    "User: " + user + ", is not authorized for URI: " + uri
  }

  /** The four slots of an access-level vector, in the order admin, writer, reader, cache. */
  function Levels(): (levels: seq<AccessLevel>)
    ensures |levels| == 4
  {
    [ADMIN, WRITER, READER, CACHE]
  }

  // ---------------------------------------------------------------------------
  // Authentication helpers

  /** The request's proxy user when it names one, else the current user unchanged. */
  function ProxyUser(req: Request, currentUser: string): (u: string)
    ensures Param(req, "proxy").Some? && Param(req, "proxy").value != "" ==> u == Param(req, "proxy").value
    ensures Param(req, "proxy").None? || Param(req, "proxy").value == "" ==> u == currentUser
  {
    var proxy := Param(req, "proxy");
    if proxy.Some? && proxy.value != "" then proxy.value else currentUser
  }

  /** Whether "%u" occurs somewhere in s. */
  predicate HasUserPlaceholder(s: string) {
    |s| >= 2 && ((s[0] == '%' && s[1] == 'u') || HasUserPlaceholder(s[1..]))
  }

  /** The base DN with every "%u" replaced by the user name, scanning left to right. */
  function ReplaceUser(baseDn: string, username: string): (dn: string)
    ensures !HasUserPlaceholder(baseDn) ==> dn == baseDn
  {
    if |baseDn| < 2 then baseDn
    else if baseDn[0] == '%' && baseDn[1] == 'u' then username + ReplaceUser(baseDn[2..], username)
    else [baseDn[0]] + ReplaceUser(baseDn[1..], username)
  }

  /** The LDAP server accepts the credentials under the j-th base DN. */
  predicate AcceptsAt(validate: LdapValidator, dns: seq<string>, username: string,
                      password: string, j: nat)
    requires j < |dns|
  {
    validate(ReplaceUser(dns[j], username), username, password)
  }

  /** The LDAP server accepts the credentials under some base DN. */
  predicate LdapAccepts(validate: LdapValidator, dns: seq<string>, username: string, password: string) {
    exists j :: 0 <= j < |dns| && AcceptsAt(validate, dns, username, password, j)
  }

  /** A user name substituted into a DN whose other text holds no placeholder lands exactly
      where the placeholder was. */
  lemma {:induction false} ReplaceUserSubstitutes(p: string, s: string, username: string)
    requires !HasUserPlaceholder(p) && !HasUserPlaceholder(s)
    ensures ReplaceUser(p + "%u" + s, username) == p + username + s
    decreases |p|
  {
    if p == [] {
      ReplaceUserAtPlaceholder(s, username);
      assert p + "%u" + s == "%u" + s;
    } else {
      var tail := p[1..] + "%u" + s;
      assert p + "%u" + s == [p[0]] + tail;
      assert tail[0] == (if |p| >= 2 then p[1] else '%');
      ReplaceUserPlainChar(p[0], tail, username);
      ReplaceUserSubstitutes(p[1..], s, username);
      assert [p[0]] + (p[1..] + username + s) == p + username + s;
    }
  }

  lemma ReplaceUserAtPlaceholder(s: string, username: string)
    ensures ReplaceUser("%u" + s, username) == username + ReplaceUser(s, username)
  {
    assert ("%u" + s)[2..] == s;
  }

  lemma ReplaceUserPlainChar(c: char, rest: string, username: string)
    requires rest != [] && !(c == '%' && rest[0] == 'u')
    ensures ReplaceUser([c] + rest, username) == [c] + ReplaceUser(rest, username)
  {
    assert ([c] + rest)[1..] == rest;
  }

  /** The pieces with a colon between each two of them. */
  function Join(parts: seq<string>): string {
    if parts == [] then ""
    else if |parts| == 1 then parts[0]
    else parts[0] + ":" + Join(parts[1..])
  }

  /** The pieces of s between colons, empty pieces included. */
  function SplitAtColons(s: string): (parts: seq<string>)
    ensures |parts| >= 1
    ensures forall i :: 0 <= i < |parts| ==> ':' !in parts[i]
  {
    if s == [] then [""]
    else
      var rest := SplitAtColons(s[1..]);
      if s[0] == ':' then [""] + rest else [[s[0]] + rest[0]] + rest[1..]
  }

  lemma JoinExtendFirst(a: string, rest: seq<string>)
    requires rest != []
    ensures Join([a + rest[0]] + rest[1..]) == a + Join(rest)
  {
    var parts := [a + rest[0]] + rest[1..];
    assert parts[1..] == rest[1..];
    if |rest| > 1 {
      assert a + rest[0] + ":" + Join(rest[1..]) == a + (rest[0] + ":" + Join(rest[1..]));
    }
  }

  /** Putting the colons back between the pieces gives back s. */
  lemma {:induction false} SplitJoin(s: string)
    ensures Join(SplitAtColons(s)) == s
    decreases |s|
  {
    if s != [] {
      var rest := SplitAtColons(s[1..]);
      SplitJoin(s[1..]);
      if s[0] == ':' {
        assert ([""] + rest)[1..] == rest;
        assert s == ":" + s[1..];
      } else {
        JoinExtendFirst([s[0]], rest);
        assert s == [s[0]] + s[1..];
      }
    }
  }

  lemma SplitWithoutColon(s: string)
    requires ':' !in s
    ensures SplitAtColons(s) == [s]
  {
    SplitJoin(s);
  }

  /** parts without its trailing empty strings. */
  function DropTrailingEmpty(parts: seq<string>): (r: seq<string>)
    ensures r <= parts
    ensures r != [] ==> r[|r| - 1] != ""
    ensures forall i :: |r| <= i < |parts| ==> parts[i] == ""
  {
    if parts == [] then []
    else if parts[|parts| - 1] == "" then DropTrailingEmpty(parts[..|parts| - 1])
    else parts
  }

  /** Java's String.split(":"): a string without a colon comes back whole; otherwise the
      pieces between colons, with the trailing empty pieces removed. */
  function JavaSplit(s: string): (parts: seq<string>)
    ensures ':' !in s ==> parts == [s]
    ensures ':' in s ==> forall i :: 0 <= i < |parts| ==> ':' !in parts[i]
    ensures ':' in s ==> parts == [] || parts[|parts| - 1] != ""
    ensures |parts| <= |SplitAtColons(s)|
    ensures Join(parts + seq(|SplitAtColons(s)| - |parts|, _ => "")) == s
  {
    var all := SplitAtColons(s);
    SplitJoin(s);
    if ':' !in s then
      SplitWithoutColon(s);
      assert [s] + seq(|all| - 1, _ => "") == all;
      [s]
    else
      var parts := DropTrailingEmpty(all);
      assert parts + seq(|all| - |parts|, _ => "") == all;
      parts
  }

  lemma {:induction false} SplitAfterName(u: string, t: string)
    requires ':' !in u
    ensures SplitAtColons(u + t) == [u + SplitAtColons(t)[0]] + SplitAtColons(t)[1..]
    decreases |u|
  {
    if u != [] {
      assert (u + t)[1..] == u[1..] + t;
      SplitAfterName(u[1..], t);
      assert [u[0]] + (u[1..] + SplitAtColons(t)[0]) == u + SplitAtColons(t)[0];
    } else {
      assert u + t == t;
      assert u + SplitAtColons(t)[0] == SplitAtColons(t)[0];
      assert SplitAtColons(t) == [SplitAtColons(t)[0]] + SplitAtColons(t)[1..];
    }
  }

  /** Decoded Basic credentials "name:password" followed by nothing or by another colon
      yield the name and the password; what follows a second colon is dropped. */
  lemma BasicCredentialFields(u: string, p: string, rest: string)
    requires ':' !in u && ':' !in p && p != ""
    requires rest == "" || rest[0] == ':'
    ensures |JavaSplit(u + ":" + p + rest)| >= 2
    ensures JavaSplit(u + ":" + p + rest)[0] == u
    ensures JavaSplit(u + ":" + p + rest)[1] == p
  {
    var s := u + ":" + p + rest;
    assert s == u + ([':'] + (p + rest));
    assert s[|u|] == ':';
    SplitAfterName(u, [':'] + (p + rest));
    assert ([':'] + (p + rest))[1..] == p + rest;
    SplitAfterName(p, rest);
    if rest != "" {
      assert rest == [':'] + rest[1..];
    }
    var parts := SplitAtColons(s);
    assert parts[0] == u && parts[1] == p;
  }

  /** Basic credentials "name:" with an empty password have fewer than two fields. */
  lemma EmptyPasswordHasNoField(u: string)
    requires ':' !in u
    ensures |JavaSplit(u + ":")| < 2
  {
    var s := u + ":";
    assert s[|u|] == ':';
    SplitAfterName(u, ":");
    assert SplitAtColons(":") == [""] + SplitAtColons("");
  }

  // ---------------------------------------------------------------------------
  // The context

  class SecurityContext {
    var securityConfiguration: Option<SecurityConfiguration>
    var jwtAuthenticator: Option<TokenValidator>
    /** Whether a JWT generator is configured; every successful login issues a token with it. */
    var jwtGenerator: bool
    var ldapAuthenticator: Option<LdapValidator>
    var userSets: Option<UserSets>
    var init: bool

    ghost predicate Valid()
      reads this
    {
      && (init <==> securityConfiguration.Some?)
      && (securityConfiguration.Some? ==> userSets.Some?)
      && (!init ==> ldapAuthenticator.None? && jwtAuthenticator.None? && !jwtGenerator)
    }

    constructor ()
      ensures Valid() && !init
      ensures securityConfiguration.None? && userSets.None?
      ensures jwtAuthenticator.None? && !jwtGenerator && ldapAuthenticator.None?
    {
      securityConfiguration := None;
      jwtAuthenticator := None;
      jwtGenerator := false;
      ldapAuthenticator := None;
      userSets := None;
      init := false;
    }

    method Init(secConf: SecurityConfiguration, jwtAuth: Option<TokenValidator>, jwtGen: bool,
                ldapAuth: Option<LdapValidator>)
      modifies this
      ensures Valid() && init
      ensures securityConfiguration == Some(secConf)
      ensures userSets == Some(UserSetsOf(secConf))
      ensures jwtAuthenticator == jwtAuth && jwtGenerator == jwtGen && ldapAuthenticator == ldapAuth
    {
      securityConfiguration := Some(secConf);
      jwtAuthenticator := jwtAuth;
      jwtGenerator := jwtGen;
      ldapAuthenticator := ldapAuth;
      userSets := Some(UserSetsOf(secConf));
      init := true;
    }

    /** Replaces the user sets only: the configuration read by authorization (whether it is
        enabled, the LDAP base DNs) stays the one given to Init. */
    method Refresh(secConf: SecurityConfiguration)
      requires Valid()
      modifies this
      ensures Valid()
      ensures userSets == Some(UserSetsOf(secConf))
      ensures securityConfiguration == old(securityConfiguration) && init == old(init)
      ensures jwtAuthenticator == old(jwtAuthenticator) && jwtGenerator == old(jwtGenerator)
      ensures ldapAuthenticator == old(ldapAuthenticator)
    {
      userSets := Some(UserSetsOf(secConf));
    }

    /** Authentication is on when some user can be authenticated beyond the local users:
        by LDAP, or by a token that can be both checked and reissued. */
    predicate IsAuthenticationEnabled(): (b: bool)
      reads this
      ensures ldapAuthenticator.Some? ==> b
      ensures jwtAuthenticator.Some? && jwtGenerator ==> b
      ensures b ==> ldapAuthenticator.Some? || jwtAuthenticator.Some?
      ensures ldapAuthenticator.None? && !jwtGenerator ==> !b
    {
      ldapAuthenticator.Some? || (jwtAuthenticator.Some? && jwtGenerator)
    }

    /** Whether user may call uri. Before Init there is no configuration to read. */
    function HandleAuthorization(eps: Endpoints, user: string, uri: string): (r: Result<()>)
      reads this
      requires Valid()
      ensures securityConfiguration.None? <==> r == Err(NullPointerException)
      ensures securityConfiguration.Some? && !securityConfiguration.value.authorizationEnabled
              ==> r == Ok(())
      ensures securityConfiguration.Some? && MatchesAny(uri, eps.unsecured) ==> r == Ok(())
      ensures securityConfiguration.Some? && r.Err?
              ==> r.error == AuthorizationException(Denial(user, uri))
    {
      if securityConfiguration.None? then Err(NullPointerException)
      else if !securityConfiguration.value.authorizationEnabled then Ok(())
      else if MatchesAny(uri, eps.unsecured) then Ok(())
      else if FirstMatchAllows(uri, user, Categories(eps, userSets.value)) then Ok(())
      else Err(AuthorizationException(Denial(user, uri)))
    }

    /** The access-level vector of user: slot i holds the i-th level exactly when the user
        is in the i-th user set. Before any user set is loaded there is nothing to read. */
    function GetAccessLevels(user: string): (r: Result<seq<Option<AccessLevel>>>)
      reads this
      ensures r.Ok? <==> userSets.Some?
      ensures r.Err? ==> r.error == NullPointerException
      ensures r.Ok? ==> |r.value| == 4
      ensures r.Ok? ==> forall i :: 0 <= i < 4 ==>
                (r.value[i].Some? <==> user in Categories(Endpoints([], [], [], [], []), userSets.value)[i].members)
      ensures r.Ok? ==> forall i :: 0 <= i < 4 && r.value[i].Some? ==> r.value[i].value == Levels()[i]
    {
      if userSets.None? then Err(NullPointerException)
      else
        var sets := userSets.value;
        Ok([if user in sets.adminUsers then Some(ADMIN) else None,
            if user in sets.writeUsers then Some(WRITER) else None,
            if user in sets.readOnlyUsers then Some(READER) else None,
            if user in sets.cacheReaderUsers then Some(CACHE) else None])
    }

    /** Local login: a local-only user succeeds with the stored password and fails with any
        other; for anyone else it declines so that LDAP may be tried. */
    function LocalLogin(username: string, password: string, currentUser: string)
      : (r: (Result<bool>, string))
      reads this
      ensures userSets.None? ==> r == (Err(NullPointerException), currentUser)
      ensures userSets.Some? ==>
                (r.0 == Ok(false) <==> username !in userSets.value.localOnlyUsers)
      ensures r.0 == Ok(true) ==> r.1 == username && userSets.Some? && jwtGenerator
                                  && username in userSets.value.localOnlyUsers
                                  && userSets.value.localOnlyUsers[username] == password
      ensures userSets.Some? && username in userSets.value.localOnlyUsers
              && userSets.value.localOnlyUsers[username] != password
              ==> r.0 == Err(BadCredentialsException("Invalid credentials for: " + username))
      ensures userSets.Some? && username in userSets.value.localOnlyUsers
              && userSets.value.localOnlyUsers[username] == password
              ==> r == (if jwtGenerator then (Ok(true), username)
                        else (Err(NullPointerException), currentUser))
      ensures r.0 != Ok(true) ==> r.1 == currentUser
    {
      if userSets.None? then (Err(NullPointerException), currentUser)
      else
        var local := userSets.value.localOnlyUsers;
        if username in local then
          if local[username] == password then
            if jwtGenerator then (Ok(true), username) else (Err(NullPointerException), currentUser)
          else (Err(BadCredentialsException("Invalid credentials for: " + username)), currentUser)
        else (Ok(false), currentUser)
    }

    /** LDAP login: binds under each base DN in turn and stops at the first that accepts;
        when all refuse, the last refusal is thrown; without an LDAP authenticator or base
        DNs it declines. attempts counts the DNs tried. */
    method LdapLogin(username: string, password: string, currentUser: string)
      returns (r: Result<bool>, user: string, ghost attempts: nat)
      requires Valid()
      ensures ldapAuthenticator.None? ==> r == Ok(false) && user == currentUser && attempts == 0
      ensures ldapAuthenticator.Some? ==>
        var validate, dns := ldapAuthenticator.value, securityConfiguration.value.ldapBaseDns;
        && attempts <= |dns|
        && (forall j :: 0 <= j < attempts - 1 ==> !AcceptsAt(validate, dns, username, password, j))
        && (LdapAccepts(validate, dns, username, password) ==>
              && 0 < attempts && AcceptsAt(validate, dns, username, password, attempts - 1)
              && r == (if jwtGenerator then Ok(true) else Err(NullPointerException)))
        && (!LdapAccepts(validate, dns, username, password) ==>
              && attempts == |dns|
              && r == (if dns == [] then Ok(false)
                       else Err(LdapFailure(ReplaceUser(dns[|dns| - 1], username)))))
      ensures r == Ok(true) ==> user == username
      ensures r != Ok(true) ==> user == currentUser
    {
      user, attempts := currentUser, 0;
      if ldapAuthenticator.None? {
        return Ok(false), user, attempts;
      }
      var validate := ldapAuthenticator.value;
      var dns := securityConfiguration.value.ldapBaseDns;
      var authFailed: Option<Error> := None;
      var i := 0;
      while i < |dns|
        invariant 0 <= i <= |dns|
        invariant forall j :: 0 <= j < i ==> !AcceptsAt(validate, dns, username, password, j)
        invariant authFailed == if i == 0 then None else Some(LdapFailure(ReplaceUser(dns[i - 1], username)))
      {
        var dn := ReplaceUser(dns[i], username);
        if validate(dn, username, password) {
          assert AcceptsAt(validate, dns, username, password, i);
          attempts := i + 1;
          if !jwtGenerator {
            return Err(NullPointerException), user, attempts;
          }
          return Ok(true), username, attempts;
        }
        authFailed := Some(LdapFailure(dn));
        i := i + 1;
      }
      attempts := |dns|;
      if authFailed.Some? {
        return Err(authFailed.value), user, attempts;
      }
      return Ok(false), user, attempts;
    }

    /** The outcome of checking a user name and password: local users first, LDAP for
        everyone else, and "Authentication required." when neither decides. */
    ghost predicate CredentialOutcome(username: string, password: string, currentUser: string,
                                      r: Result<()>, user: string, ldapAttempts: nat)
      reads this
      requires Valid()
    {
      && (r.Ok? ==> user == username)
      && (r.Err? ==> user == currentUser)
      && (userSets.None? ==> r == Err(NullPointerException))
      && (userSets.Some? && username in userSets.value.localOnlyUsers ==>
            && ldapAttempts == 0
            && (r.Ok? <==> userSets.value.localOnlyUsers[username] == password && jwtGenerator)
            && (userSets.value.localOnlyUsers[username] == password && !jwtGenerator ==>
                  r == Err(NullPointerException))
            && (userSets.value.localOnlyUsers[username] != password ==>
                  r == Err(BadCredentialsException("Invalid credentials for: " + username))))
      && (userSets.Some? && username !in userSets.value.localOnlyUsers ==>
            if ldapAuthenticator.None? then
              r == Err(AuthenticationException("Authentication required.")) && ldapAttempts == 0
            else
              var validate, dns := ldapAuthenticator.value, securityConfiguration.value.ldapBaseDns;
              && (r.Ok? <==> LdapAccepts(validate, dns, username, password) && jwtGenerator)
              && (LdapAccepts(validate, dns, username, password) && !jwtGenerator ==>
                    r == Err(NullPointerException))
              && (dns == [] ==> r == Err(AuthenticationException("Authentication required.")))
              && (dns != [] && !LdapAccepts(validate, dns, username, password) ==>
                    r == Err(LdapFailure(ReplaceUser(dns[|dns| - 1], username))))
              && (dns == [] ==> ldapAttempts == 0)
              && (dns != [] ==> 0 < ldapAttempts <= |dns|))
    }

    /** Local login, then LDAP login, then failure. */
    method CheckCredentials(username: string, password: string, currentUser: string)
      returns (r: Result<()>, user: string, ghost ldapAttempts: nat)
      requires Valid()
      ensures CredentialOutcome(username, password, currentUser, r, user, ldapAttempts)
    {
      var (local, localUser) := LocalLogin(username, password, currentUser);
      if local.Err? {
        return Err(local.error), localUser, 0;
      }
      if local.value {
        return Ok(()), localUser, 0;
      }
      var ldap, ldapUser, attempts := LdapLogin(username, password, currentUser);
      if ldap.Err? {
        return Err(ldap.error), ldapUser, attempts;
      }
      if ldap.value {
        return Ok(()), ldapUser, attempts;
      }
      return Err(AuthenticationException("Authentication required.")), currentUser, attempts;
    }

    /** The login endpoint: with authentication off it only adopts a proxy user; otherwise
        it checks the username and password parameters. */
    method Login(req: Request, currentUser: string)
      returns (r: Result<()>, user: string, ghost ldapAttempts: nat)
      requires Valid()
      ensures !IsAuthenticationEnabled() ==> r == Ok(()) && user == ProxyUser(req, currentUser)
      ensures IsAuthenticationEnabled() ==>
        var username, password := Param(req, "username"), Param(req, "password");
        if username.None? || username.value == "" || password.None? || password.value == "" then
          r == Err(AuthenticationException("Bad username / password provided."))
          && user == currentUser
        else
          CredentialOutcome(username.value, password.value, currentUser, r, user, ldapAttempts)
    {
      if !IsAuthenticationEnabled() {
        return Ok(()), ProxyUser(req, currentUser), 0;
      }
      var username := Param(req, "username");
      var password := Param(req, "password");
      if username.None? || username.value == "" || password.None? || password.value == "" {
        return Err(AuthenticationException("Bad username / password provided.")), currentUser, 0;
      }
      r, user, ldapAttempts := CheckCredentials(username.value, password.value, currentUser);
    }

    /** The filter run before every request. decode stands for trimming and Base64-decoding
        the credentials of a Basic header (None when they are not valid Base64). */
    method HandleAuthentication(req: Request, currentUser: string, decode: string -> Option<string>)
      returns (r: Result<()>, user: string, ghost ldapAttempts: nat)
      requires Valid()
      ensures !init ==> r == Err(AuthenticationException("Please wait for initialization."))
                        && user == currentUser
      ensures init && LoginPrefix <= req.uri ==> r == Ok(()) && user == currentUser
      ensures init && !(LoginPrefix <= req.uri) && !IsAuthenticationEnabled()
              ==> r == Ok(()) && user == ProxyUser(req, currentUser)
      ensures init && !(LoginPrefix <= req.uri) && IsAuthenticationEnabled() ==>
        if req.authorization.Some? && BasicPrefix <= req.authorization.value then
          var decoded := decode(req.authorization.value[|BasicPrefix|..]);
          if decoded.None? then r == Err(IllegalArgumentException) && user == currentUser
          else if |JavaSplit(decoded.value)| < 2 then
            r == Err(ArrayIndexOutOfBoundsException) && user == currentUser
          else
            var fields := JavaSplit(decoded.value);
            CredentialOutcome(fields[0], fields[1], currentUser, r, user, ldapAttempts)
        else if req.jwtCookie.Some? then
          if jwtAuthenticator.Some? && jwtAuthenticator.value(req.jwtCookie.value).Some?
             && jwtGenerator
          then r == Ok(()) && user == jwtAuthenticator.value(req.jwtCookie.value).value
          else r == Err(TokenRejected) && user == currentUser
        else
          r == Err(AuthenticationException("Authentication required.")) && user == currentUser
    {
      user, ldapAttempts := currentUser, 0;
      if !init {
        return Err(AuthenticationException("Please wait for initialization.")), user, 0;
      }
      if LoginPrefix <= req.uri {
        return Ok(()), user, 0;
      }
      if !IsAuthenticationEnabled() {
        return Ok(()), ProxyUser(req, currentUser), 0;
      }
      if req.authorization.Some? && BasicPrefix <= req.authorization.value {
        var decoded := decode(req.authorization.value[|BasicPrefix|..]);
        if decoded.None? {
          return Err(IllegalArgumentException), user, 0;
        }
        var split := JavaSplit(decoded.value);
        if |split| < 2 {
          return Err(ArrayIndexOutOfBoundsException), user, 0;
        }
        r, user, ldapAttempts := CheckCredentials(split[0], split[1], currentUser);
        return;
      }
      if req.jwtCookie.Some? {
        var token := req.jwtCookie.value;
        if jwtAuthenticator.None? {
          return Err(TokenRejected), user, 0;
        }
        var profile := jwtAuthenticator.value(token);
        if profile.None? || !jwtGenerator {
          return Err(TokenRejected), user, 0;
        }
        return Ok(()), profile.value, 0;
      }
      return Err(AuthenticationException("Authentication required.")), user, 0;
    }
  }

  // ---------------------------------------------------------------------------
  // Properties of the context

  /** With authorization on, a request outside the unsecured endpoints is allowed exactly
      when the first matching group admits the user. */
  lemma AuthorizationByFirstMatch(c: SecurityContext, eps: Endpoints, user: string, uri: string, i: nat)
    requires c.Valid() && c.securityConfiguration.Some?
    requires c.securityConfiguration.value.authorizationEnabled
    requires !MatchesAny(uri, eps.unsecured)
    requires FirstMatchAt(uri, Categories(eps, c.userSets.value), i)
    ensures c.HandleAuthorization(eps, user, uri).Ok? <==> user in Categories(eps, c.userSets.value)[i].members
  {
    FirstMatchDecides(uri, user, Categories(eps, c.userSets.value), i);
  }

  /** An uninitialized context has no authenticator, so authentication is off: login and
      the request filter only adopt a proxy user. */
  lemma AuthenticationOffBeforeInit(c: SecurityContext)
    requires c.Valid() && !c.init
    ensures !c.IsAuthenticationEnabled()
  {
  }

  /** With authorization on, a uri matching no endpoint at all is denied. */
  lemma UnknownUriDenied(c: SecurityContext, eps: Endpoints, user: string, uri: string)
    requires c.Valid() && c.securityConfiguration.Some?
    requires c.securityConfiguration.value.authorizationEnabled
    requires !MatchesAny(uri, eps.unsecured) && !MatchesAny(uri, eps.admin)
    requires !MatchesAny(uri, eps.writer) && !MatchesAny(uri, eps.reader)
    requires !MatchesAny(uri, eps.cacheReader)
    ensures c.HandleAuthorization(eps, user, uri) == Err(AuthorizationException(Denial(user, uri)))
  {
    NoMatchDenies(uri, user, Categories(eps, c.userSets.value));
  }

  /** A request allowed through the secured group that decides it (the first whose endpoints
      match) comes from a user whose access-level vector holds that group's level. */
  lemma AllowedUserHasLevel(c: SecurityContext, eps: Endpoints, user: string, uri: string, i: nat)
    requires c.Valid() && c.securityConfiguration.Some?
    requires c.securityConfiguration.value.authorizationEnabled
    requires !MatchesAny(uri, eps.unsecured)
    requires FirstMatchAt(uri, Categories(eps, c.userSets.value), i)
    requires c.HandleAuthorization(eps, user, uri).Ok?
    ensures i < 4 && c.GetAccessLevels(user).value[i] == Some(Levels()[i])
  {
    FirstMatchDecides(uri, user, Categories(eps, c.userSets.value), i);
  }
}
