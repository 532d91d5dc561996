/**
 * The database credentials (src/api.cpp): fixed host, port, database and timeout, a
 * user and password given at start-up, and the libpq key=value connection string built
 * from them.
 */
module Connection {
  import opened Wrappers

  const Host: string := "localhost"
  const Port: string := "5433"
  const DbName: string := "airport"
  const ConnectTimeout: string := "1"

  /** The credentials an API object carries; the other settings are shared constants. */
  datatype Api = Api(user: string, password: string)

  /** The copy constructor: a new object with the same credentials. */
  function Copy(api: Api): Api {
    Api(api.user, api.password)
  }

  /** Everything in the connection string before the user name. */
  function Prefix(): string {
    "host=" + Host + " port=" + Port + " dbname=" + DbName + " connect_timeout=" + ConnectTimeout + " user="
  }

  const PasswordKey: string := " password="

  /** getConnectionString: the fixed settings, then user and password, separated by spaces. */
  function ConnectionString(api: Api): (s: string)
    ensures |s| == |Prefix()| + |api.user| + |PasswordKey| + |api.password|
    ensures s[..|Prefix()|] == Prefix() && s[|s| - |api.password|..] == api.password
  {
    Prefix() + api.user + PasswordKey + api.password
  }

  /** The first space of `s`, or |s| when there is none. */
  function FirstSpace(s: string): (i: nat)
    ensures i <= |s|
    ensures forall j :: 0 <= j < i ==> s[j] != ' '
    ensures i < |s| ==> s[i] == ' '
  {
    if s == [] || s[0] == ' ' then 0 else 1 + FirstSpace(s[1..])
  }

  /**
   * Reads credentials back from a connection string: after the fixed settings, the user
   * runs to the next space, the rest must start with the password key, and everything
   * after " password=" is taken as the password.
   */
  function ParseConnection(s: string): (r: Option<Api>)
    ensures r.Some? ==> |s| >= |Prefix()| && s[..|Prefix()|] == Prefix() && ' ' !in r.value.user
  {
    var p := Prefix();
    if |s| < |p| || s[..|p|] != p then None
    else
      var rest := s[|p|..];
      var i := FirstSpace(rest);
      var tail := rest[i..];
      if |tail| < |PasswordKey| || tail[..|PasswordKey|] != PasswordKey then None
      else
        assert forall c :: c in rest[..i] ==> c != ' ';
        Some(Api(rest[..i], tail[|PasswordKey|..]))
  }

  /**
   * The connection string begins with the four fixed settings and carries the user and
   * password of the object; when the user name holds no space, reading it back gives
   * exactly the credentials it was built from.
   */
  lemma {:induction false} ConnectionRoundTrip(api: Api)
    requires ' ' !in api.user
    ensures ParseConnection(ConnectionString(api)) == Some(api)
  {
    var p := Prefix();
    var s := ConnectionString(api);
    assert s[..|p|] == p;
    var rest := s[|p|..];
    assert rest == api.user + PasswordKey + api.password;
    var i := FirstSpace(rest);
    assert forall j :: 0 <= j < |api.user| ==> rest[j] == api.user[j] && api.user[j] in api.user;
    assert rest[|api.user|] == ' ';
    assert i == |api.user|;
    assert rest[..i] == api.user;
    var tail := rest[i..];
    assert tail == PasswordKey + api.password;
    assert tail[..|PasswordKey|] == PasswordKey;
    assert tail[|PasswordKey|..] == api.password;
  }

  /** A copy connects with the same string. */
  lemma CopyConnects(api: Api)
    ensures ConnectionString(Copy(api)) == ConnectionString(api)
    ensures Copy(api) == api
  {
  }

  /**
   * Nothing quotes the user or password, so a user name with a space can make two
   * different credential pairs give the same connection string.
   */
  lemma UnquotedCredentialsCollide(a: Api, b: Api)
    requires a == Api("ops password=x", "y") && b == Api("ops", "x password=y")
    ensures a != b && ConnectionString(a) == ConnectionString(b)
  {
    assert a.user + PasswordKey + a.password == b.user + PasswordKey + b.password;
  }
}
