/** The keys under which users, credentials and external principals are stored. */
module AuthKeys {
  import opened Kv

  datatype Value =
    | UserV(username: string)
    | CredV(userID: string, accessKeyID: string, secret: string)
    | PrincipalV(id: string, userID: string)
    | IndexV(primaryKey: string)

  type Records = map<string, Value>

  const USERS_PREFIX := "users"
  const USERS_CREDENTIALS_PREFIX := "uCredentials"
  const CREDENTIALS_PREFIX := "credentials"
  const CREDENTIALS_INDEX_PREFIX := "credentialsIndex"
  const EXTERNAL_PRINCIPALS_PREFIX := "extPrincipals"
  const USER_EXTERNAL_PRINCIPALS_PREFIX := "uExtPrincipals"

  function UserPath(user: string): string {
    Path(USERS_PREFIX, user)
  }

  function CredentialPath(user: string, accessKeyID: string): string {
    Path(Path(Path(USERS_CREDENTIALS_PREFIX, user), CREDENTIALS_PREFIX), accessKeyID)
  }

  function CredentialsIndexPath(accessKeyID: string): string {
    Path(CREDENTIALS_INDEX_PREFIX, accessKeyID)
  }

  function ExternalPrincipalPath(id: string): string {
    Path(EXTERNAL_PRINCIPALS_PREFIX, id)
  }

  function UserExternalPrincipalPath(user: string, id: string): string {
    Path(Path(Path(USER_EXTERNAL_PRINCIPALS_PREFIX, user), EXTERNAL_PRINCIPALS_PREFIX), id)
  }

  // ----- reading a key back -----

  /** The first component of a key, and the rest. */
  predicate InSection(k: string, section: string, rest: string) {
    Simple(section) && k == Path(section, rest)
  }

  lemma Sections(user: string, x: string)
    ensures InSection(UserPath(user), USERS_PREFIX, user)
    ensures InSection(CredentialsIndexPath(x), CREDENTIALS_INDEX_PREFIX, x)
    ensures InSection(ExternalPrincipalPath(x), EXTERNAL_PRINCIPALS_PREFIX, x)
    ensures InSection(CredentialPath(user, x), USERS_CREDENTIALS_PREFIX, Path(user, Path(CREDENTIALS_PREFIX, x)))
    ensures InSection(UserExternalPrincipalPath(user, x), USER_EXTERNAL_PRINCIPALS_PREFIX, Path(user, Path(EXTERNAL_PRINCIPALS_PREFIX, x)))
  {
    FromFront(USERS_CREDENTIALS_PREFIX, user, CREDENTIALS_PREFIX, x);
    FromFront(USER_EXTERNAL_PRINCIPALS_PREFIX, user, EXTERNAL_PRINCIPALS_PREFIX, x);
  }

  lemma FromFront(a: string, b: string, c: string, d: string)
    ensures Path(Path(Path(a, b), c), d) == Path(a, Path(b, Path(c, d)))
  {}

  lemma OneSection(k: string, a: string, x: string, b: string, y: string)
    requires InSection(k, a, x) && InSection(k, b, y)
    ensures a == b && x == y
  {
    CutFirst(a, x, b, y);
  }

  lemma CredentialPathIsInjective(u: string, x: string, v: string, y: string)
    requires Simple(u) && Simple(v) && CredentialPath(u, x) == CredentialPath(v, y)
    ensures u == v && x == y
  {
    Sections(u, x);
    Sections(v, y);
    OneSection(CredentialPath(u, x), USERS_CREDENTIALS_PREFIX, Path(u, Path(CREDENTIALS_PREFIX, x)),
               USERS_CREDENTIALS_PREFIX, Path(v, Path(CREDENTIALS_PREFIX, y)));
    CutFirst(u, Path(CREDENTIALS_PREFIX, x), v, Path(CREDENTIALS_PREFIX, y));
    CutFirst(CREDENTIALS_PREFIX, x, CREDENTIALS_PREFIX, y);
  }

  lemma UserPrincipalPathIsInjective(u: string, x: string, v: string, y: string)
    requires Simple(u) && Simple(v) && UserExternalPrincipalPath(u, x) == UserExternalPrincipalPath(v, y)
    ensures u == v && x == y
  {
    Sections(u, x);
    Sections(v, y);
    OneSection(UserExternalPrincipalPath(u, x), USER_EXTERNAL_PRINCIPALS_PREFIX, Path(u, Path(EXTERNAL_PRINCIPALS_PREFIX, x)),
               USER_EXTERNAL_PRINCIPALS_PREFIX, Path(v, Path(EXTERNAL_PRINCIPALS_PREFIX, y)));
    CutFirst(u, Path(EXTERNAL_PRINCIPALS_PREFIX, x), v, Path(EXTERNAL_PRINCIPALS_PREFIX, y));
    CutFirst(EXTERNAL_PRINCIPALS_PREFIX, x, EXTERNAL_PRINCIPALS_PREFIX, y);
  }

  lemma SingleIsInjective(section: string, x: string, y: string)
    requires Path(section, x) == Path(section, y)
    ensures x == y
  {
    assert x == Path(section, x)[|section| + 1..] == y;
  }

  // ----- keys and values that belong together -----

  ghost predicate Keyed(k: string, v: Value) {
    match v
    case UserV(u) => Simple(u) && u != "" && k == UserPath(u)
    case CredV(u, ak, _) => Simple(u) && k == CredentialPath(u, ak)
    case PrincipalV(id, u) => Simple(u) && k == ExternalPrincipalPath(id)
    case IndexV(p) =>
      || (exists u: string, ak: string :: IndexesCredential(k, p, u, ak))
      || (exists u: string, id: string :: IndexesPrincipal(k, p, u, id))
  }

  predicate IndexesCredential(k: string, p: string, user: string, ak: string) {
    Simple(user) && k == CredentialsIndexPath(ak) && p == CredentialPath(user, ak)
  }

  predicate IndexesPrincipal(k: string, p: string, user: string, id: string) {
    Simple(user) && k == UserExternalPrincipalPath(user, id) && p == ExternalPrincipalPath(id)
  }

  /** The section of a key fixes the kind of its value. */
  lemma KeyedSection(k: string, v: Value) returns (section: string, rest: string)
    requires Keyed(k, v)
    ensures InSection(k, section, rest)
    ensures v.UserV? <==> section == USERS_PREFIX
    ensures v.CredV? <==> section == USERS_CREDENTIALS_PREFIX
    ensures v.PrincipalV? <==> section == EXTERNAL_PRINCIPALS_PREFIX
    ensures v.IndexV? <==> section == CREDENTIALS_INDEX_PREFIX || section == USER_EXTERNAL_PRINCIPALS_PREFIX
    ensures section == CREDENTIALS_INDEX_PREFIX ==> exists u: string :: IndexesCredential(k, v.primaryKey, u, rest)
    ensures section == USER_EXTERNAL_PRINCIPALS_PREFIX ==> exists u: string, id: string :: IndexesPrincipal(k, v.primaryKey, u, id)
  {
    match v
    case UserV(u) =>
      Sections(u, "");
      section, rest := USERS_PREFIX, u;
    case CredV(u, ak, _) =>
      Sections(u, ak);
      section, rest := USERS_CREDENTIALS_PREFIX, Path(u, Path(CREDENTIALS_PREFIX, ak));
    case PrincipalV(id, u) =>
      Sections(u, id);
      section, rest := EXTERNAL_PRINCIPALS_PREFIX, id;
    case IndexV(p) =>
      if u: string, ak: string :| IndexesCredential(k, p, u, ak) {
        Sections(u, ak);
        section, rest := CREDENTIALS_INDEX_PREFIX, ak;
      } else {
        var u: string, id: string :| IndexesPrincipal(k, p, u, id);
        Sections(u, id);
        section, rest := USER_EXTERNAL_PRINCIPALS_PREFIX, Path(u, Path(EXTERNAL_PRINCIPALS_PREFIX, id));
      }
  }

  /** What may be stored at each kind of key. */
  lemma AtUserPath(user: string, v: Value)
    requires Keyed(UserPath(user), v)
    ensures v == UserV(user) && Simple(user) && user != ""
  {
    var section, rest := KeyedSection(UserPath(user), v);
    Sections(user, "");
    OneSection(UserPath(user), USERS_PREFIX, user, section, rest);
    SingleIsInjective(USERS_PREFIX, user, v.username);
  }

  lemma AtCredentialPath(user: string, ak: string, v: Value)
    requires Simple(user) && Keyed(CredentialPath(user, ak), v)
    ensures v.CredV? && v.userID == user && v.accessKeyID == ak
  {
    var section, rest := KeyedSection(CredentialPath(user, ak), v);
    Sections(user, ak);
    OneSection(CredentialPath(user, ak), USERS_CREDENTIALS_PREFIX, Path(user, Path(CREDENTIALS_PREFIX, ak)), section, rest);
    CredentialPathIsInjective(user, ak, v.userID, v.accessKeyID);
  }

  lemma AtIndexPath(ak: string, v: Value) returns (user: string)
    requires Keyed(CredentialsIndexPath(ak), v)
    ensures Simple(user) && v == IndexV(CredentialPath(user, ak))
  {
    var section, rest := KeyedSection(CredentialsIndexPath(ak), v);
    Sections("", ak);
    OneSection(CredentialsIndexPath(ak), CREDENTIALS_INDEX_PREFIX, ak, section, rest);
    user :| IndexesCredential(CredentialsIndexPath(ak), v.primaryKey, user, rest);
  }

  lemma AtPrincipalPath(id: string, v: Value)
    requires Keyed(ExternalPrincipalPath(id), v)
    ensures v.PrincipalV? && v.id == id && Simple(v.userID)
  {
    var section, rest := KeyedSection(ExternalPrincipalPath(id), v);
    Sections("", id);
    OneSection(ExternalPrincipalPath(id), EXTERNAL_PRINCIPALS_PREFIX, id, section, rest);
    SingleIsInjective(EXTERNAL_PRINCIPALS_PREFIX, id, v.id);
  }

  lemma AtUserPrincipalPath(user: string, id: string, v: Value)
    requires Simple(user) && Keyed(UserExternalPrincipalPath(user, id), v)
    ensures v == IndexV(ExternalPrincipalPath(id))
  {
    var section, rest := KeyedSection(UserExternalPrincipalPath(user, id), v);
    Sections(user, id);
    OneSection(UserExternalPrincipalPath(user, id), USER_EXTERNAL_PRINCIPALS_PREFIX, Path(user, Path(EXTERNAL_PRINCIPALS_PREFIX, id)), section, rest);
    var u: string, x: string :| IndexesPrincipal(UserExternalPrincipalPath(user, id), v.primaryKey, u, x);
    UserPrincipalPathIsInjective(user, id, u, x);
  }

  /** Keys of different kinds differ. */
  lemma KindsDiffer(u: string, x: string, v: string, y: string)
    ensures UserPath(u) != CredentialPath(v, y) && UserPath(u) != CredentialsIndexPath(y)
    ensures UserPath(u) != ExternalPrincipalPath(y) && UserPath(u) != UserExternalPrincipalPath(v, y)
    ensures CredentialPath(u, x) != CredentialsIndexPath(y) && CredentialPath(u, x) != ExternalPrincipalPath(y)
    ensures CredentialPath(u, x) != UserExternalPrincipalPath(v, y) && CredentialsIndexPath(x) != ExternalPrincipalPath(y)
    ensures CredentialsIndexPath(x) != UserExternalPrincipalPath(v, y) && ExternalPrincipalPath(x) != UserExternalPrincipalPath(v, y)
  {
    assert UserPath(u)[0..2] == "us" && CredentialPath(u, x)[0..2] == "uC" && CredentialPath(v, y)[0..2] == "uC";
    assert CredentialsIndexPath(x)[0..2] == "cr" && CredentialsIndexPath(y)[0..2] == "cr";
    assert ExternalPrincipalPath(x)[0..2] == "ex" && ExternalPrincipalPath(y)[0..2] == "ex";
    assert UserExternalPrincipalPath(v, y)[0..2] == "uE";
  }

  // ----- prefixes -----

  lemma UnderCredentialPath(user: string, p: string, k: string, v: Value)
    requires Simple(user) && Keyed(k, v) && HasPrefix(k, CredentialPath(user, p))
    ensures v.CredV? && v.userID == user && HasPrefix(v.accessKeyID, p)
  {
    PrefixIsSplit(k, CredentialPath(user, p));
    var x: string :| k == CredentialPath(user, p) + x;
    assert k == CredentialPath(user, p + x);
    AtCredentialPath(user, p + x, v);
    assert (p + x)[..|p|] == p;
  }

  lemma CredentialHasPrefix(user: string, ak: string)
    ensures HasPrefix(CredentialPath(user, ak), CredentialPath(user, ""))
  {
    assert CredentialPath(user, ak) == CredentialPath(user, "") + ak;
  }

  lemma UnderUserPrincipals(user: string, k: string, v: Value) returns (id: string)
    requires Simple(user) && Keyed(k, v) && HasPrefix(k, UserExternalPrincipalPath(user, ""))
    ensures k == UserExternalPrincipalPath(user, id) && v == IndexV(ExternalPrincipalPath(id))
  {
    PrefixIsSplit(k, UserExternalPrincipalPath(user, ""));
    var x: string :| k == UserExternalPrincipalPath(user, "") + x;
    id := x;
    assert k == UserExternalPrincipalPath(user, id);
    AtUserPrincipalPath(user, id, v);
  }

  lemma UserPrincipalHasPrefix(user: string, id: string)
    ensures HasPrefix(UserExternalPrincipalPath(user, id), UserExternalPrincipalPath(user, ""))
  {
    assert UserExternalPrincipalPath(user, id) == UserExternalPrincipalPath(user, "") + id;
  }
}
