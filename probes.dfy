/**
 * The two probes, `telnet` (a TCP connect) and `http_get` (an HTTP GET with
 * optional basic authentication). The network calls themselves are
 * parameters; what is modelled is how their answers become status codes and
 * how the `auth` text becomes credentials.
 */
module Probes {
  import opened Wrappers
  import opened Text
  import opened Status

  /** Basic-auth credentials handed to the HTTP client. */
  datatype Credentials = Credentials(user: string, password: string)

  /** `http_get` raises ValueError, which nothing catches, on a non-empty `auth` without a colon. */
  datatype ProbeError = AuthWithoutColon(auth: string)

  /**
   * The TCP connect of `telnet(ip, port)`: true when `connect_ex` returns 0,
   * false when it returns an error code or times out after 3 seconds.
   */
  type TcpProbe = (string, string) -> bool

  /**
   * `requests.get(target, auth=credentials, timeout=3).ok`: true for a response
   * below 400, false for any other response and for every RequestException.
   */
  type HttpProbe = (string, Option<Credentials>) -> bool

  /** A network call the checker makes, in the order it makes them. */
  datatype Probe = Tcp(ip: string, port: string) | Http(target: string, credentials: Option<Credentials>)

  /** The credentials `http_get` builds from `auth`: split at the first colon, none when `auth` is empty. */
  function SplitAuth(auth: string): Result<Option<Credentials>, ProbeError> {
    if auth == "" then Ok(None)
    else
      match IndexOf(auth, ':')
      case None => Err(AuthWithoutColon(auth))
      case Some(i) => Ok(Some(Credentials(auth[..i], auth[i + 1..])))
  }

  /**
   * Empty `auth` means no credentials; a non-empty one without a colon is an
   * error; otherwise the user name is colon-free and user, colon and password
   * give back `auth`.
   */
  lemma SplitAuthCases(auth: string)
    ensures SplitAuth(auth) == Ok(None) <==> auth == ""
    ensures SplitAuth(auth).Err? <==> auth != "" && ':' !in auth
    ensures SplitAuth(auth).Err? ==> SplitAuth(auth).error == AuthWithoutColon(auth)
    ensures SplitAuth(auth).Ok? && SplitAuth(auth).value.Some? ==>
      var c := SplitAuth(auth).value.value;
      ':' !in c.user && c.user + ":" + c.password == auth
  {
    IndexOfShape(auth, ':');
    if auth != "" && ':' in auth {
      var i := IndexOf(auth, ':').value;
      assert auth == auth[..i] + [auth[i]] + auth[i + 1..];
    }
  }

  /** A colon-free user name and any password, colons included, are split back apart. */
  lemma SplitAuthOf(user: string, password: string)
    requires ':' !in user
    ensures SplitAuth(user + ":" + password) == Ok(Some(Credentials(user, password)))
  {
    var auth := user + ":" + password;
    assert auth[..|user|] == user;
    IndexOfAt(auth, ':', |user|);
    assert auth[|user| + 1..] == password;
  }

  /** `admin:p:w` is user `admin` with password `p:w`. */
  lemma SplitAuthExample()
    ensures SplitAuth("admin:p:w") == Ok(Some(Credentials("admin", "p:w")))
  {
    SplitAuthOf("admin", "p:w");
    assert "admin" + ":" + "p:w" == "admin:p:w";
  }

  /** The URL `http_get` requests. */
  function Target(ip: string, port: string, url: string): string {
    "http://" + ip + ":" + port + url
  }

  /** `telnet`: the status code of one TCP connect. */
  function Telnet(ip: string, port: string, tcp: TcpProbe): Code {
    if tcp(ip, port) then L4Pass else L4Failed
  }

  /** `http_get`: the status code of one HTTP GET, or the error its credential split raises. */
  function HttpGet(ip: string, port: string, url: string, auth: string, http: HttpProbe): Result<Code, ProbeError> {
    match SplitAuth(auth)
    case Err(e) => Err(e)
    case Ok(creds) => Ok(if http(Target(ip, port, url), creds) then L7Pass else L7Failed)
  }

  /** The request `http_get` sends: none when the credential split raises before it. */
  function HttpCalls(ip: string, port: string, url: string, auth: string): seq<Probe> {
    match SplitAuth(auth)
    case Err(_) => []
    case Ok(creds) => [Http(Target(ip, port, url), creds)]
  }

  /**
   * `telnet` always answers an L4 code and `http_get` an L7 code; `http_get`
   * fails only on a malformed `auth`, and then sends no request.
   */
  lemma ProbeCodes(ip: string, port: string, url: string, auth: string, tcp: TcpProbe, http: HttpProbe)
    ensures Telnet(ip, port, tcp) == L4Pass <==> tcp(ip, port)
    ensures Telnet(ip, port, tcp) in {L4Pass, L4Failed}
    ensures HttpGet(ip, port, url, auth, http).Err? <==> auth != "" && ':' !in auth
    ensures HttpGet(ip, port, url, auth, http).Err? <==> HttpCalls(ip, port, url, auth) == []
    ensures HttpGet(ip, port, url, auth, http).Ok? ==>
      HttpGet(ip, port, url, auth, http).value in {L7Pass, L7Failed} &&
      (HttpGet(ip, port, url, auth, http).value == L7Pass <==>
        http(Target(ip, port, url), SplitAuth(auth).value))
  {
    SplitAuthCases(auth);
  }
}
