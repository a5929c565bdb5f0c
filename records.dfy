/**
 * The load-balancer record built from one input row (`LoadBalancer.parse`),
 * with its `Endpoint`s and `HealthCheck`.
 */
module Records {
  import opened Wrappers
  import opened Text
  import IpRanges

  /** An address and a port, both kept as text. */
  datatype Endpoint = Endpoint(ip: string, port: string)

  /** The health-check path (empty: no L7 probe) and the basic-auth text (empty: none). */
  datatype HealthCheck = HealthCheck(url: string, auth: string)

  datatype LoadBalancer = LoadBalancer(name: string, frontend: Endpoint, backends: seq<Endpoint>, healthCheck: HealthCheck)

  /** Why a row gives no record: the seven-way unpacking or the range expansion raised. */
  datatype RowError = WrongFieldCount(count: nat) | BadRange(error: IpRanges.RangeError)

  /** Each address paired with the one backend port, in order. */
  function WithPort(ips: seq<string>, port: string): seq<Endpoint> {
    if ips == [] then [] else WithPort(ips[..|ips| - 1], port) + [Endpoint(ips[|ips| - 1], port)]
  }

  /** One endpoint per address, the k-th on the k-th address, all on the given port. */
  lemma {:induction false} WithPortShape(ips: seq<string>, port: string)
    ensures |WithPort(ips, port)| == |ips|
    ensures forall k :: 0 <= k < |ips| ==> WithPort(ips, port)[k] == Endpoint(ips[k], port)
  {
    if ips != [] {
      WithPortShape(ips[..|ips| - 1], port);
    }
  }

  /**
   * What `LoadBalancer.parse(row)` returns or raises. The row is unpacked into
   * name, frontend ip and port, health-check url, backend ranges, backend port
   * and auth; every field is stripped before use.
   */
  function Record(row: seq<string>): Result<LoadBalancer, RowError> {
    if |row| != 7 then Err(WrongFieldCount(|row|))
    else
      match IpRanges.Expansion(Strip(row[4]))
      case Err(e) => Err(BadRange(e))
      case Ok(ips) =>
        Ok(LoadBalancer(Strip(row[0]), Endpoint(Strip(row[1]), Strip(row[2])),
                        WithPort(ips, Strip(row[5])), HealthCheck(Strip(row[3]), Strip(row[6]))))
  }

  /** `LoadBalancer.parse`: unpacks the row, expands the backend ranges and appends one endpoint per address. */
  method Parse(row: seq<string>) returns (r: Result<LoadBalancer, RowError>)
    ensures r == Record(row)
  {
    if |row| != 7 {
      return Err(WrongFieldCount(|row|));
    }
    var name, frontendIp, frontendPort, url, ranges, backendPort, auth :=
      row[0], row[1], row[2], row[3], row[4], row[5], row[6];
    var healthCheck := HealthCheck(Strip(url), Strip(auth));
    var frontend := Endpoint(Strip(frontendIp), Strip(frontendPort));
    var backends: seq<Endpoint> := [];
    var expanded := IpRanges.Parse(Strip(ranges));
    if expanded.Err? {
      return Err(BadRange(expanded.error));
    }
    var ips := expanded.value;
    var k := 0;
    while k < |ips|
      invariant 0 <= k <= |ips|
      invariant backends == WithPort(ips[..k], Strip(backendPort))
    {
      assert ips[..k + 1][..k] == ips[..k];
      backends := backends + [Endpoint(ips[k], Strip(backendPort))];
      k := k + 1;
    }
    assert ips[..k] == ips;
    return Ok(LoadBalancer(Strip(name), frontend, backends, healthCheck));
  }

  /**
   * A row gives a record exactly when it has seven fields and its backend
   * ranges expand; the record holds the stripped fields and one backend per
   * expanded address, in order, each on the stripped backend port.
   */
  lemma RecordShape(row: seq<string>)
    ensures |row| != 7 ==> Record(row) == Err(WrongFieldCount(|row|))
    ensures |row| == 7 && IpRanges.Expansion(Strip(row[4])).Err? ==>
      Record(row) == Err(BadRange(IpRanges.Expansion(Strip(row[4])).error))
    ensures Record(row).Ok? <==> |row| == 7 && IpRanges.Expansion(Strip(row[4])).Ok?
    ensures Record(row).Ok? ==>
      var lb := Record(row).value;
      var ips := IpRanges.Expansion(Strip(row[4])).value;
      lb.name == Strip(row[0]) &&
      lb.frontend == Endpoint(Strip(row[1]), Strip(row[2])) &&
      lb.healthCheck == HealthCheck(Strip(row[3]), Strip(row[6])) &&
      |lb.backends| == |ips| &&
      forall k :: 0 <= k < |ips| ==> lb.backends[k] == Endpoint(ips[k], Strip(row[5]))
  {
    if Record(row).Ok? {
      WithPortShape(IpRanges.Expansion(Strip(row[4])).value, Strip(row[5]));
    }
  }

  /** Every text a record holds is stripped, and no backend address contains `:` or `,`. */
  lemma RecordStripped(row: seq<string>)
    requires Record(row).Ok?
    ensures var lb := Record(row).value;
      Strip(lb.name) == lb.name &&
      Strip(lb.frontend.ip) == lb.frontend.ip && Strip(lb.frontend.port) == lb.frontend.port &&
      Strip(lb.healthCheck.url) == lb.healthCheck.url && Strip(lb.healthCheck.auth) == lb.healthCheck.auth &&
      forall b :: b in lb.backends ==>
        Strip(b.ip) == b.ip && ':' !in b.ip && ',' !in b.ip && Strip(b.port) == b.port
  {
    RecordShape(row);
    StripIdempotent(row[0]);
    StripIdempotent(row[1]);
    StripIdempotent(row[2]);
    StripIdempotent(row[3]);
    StripIdempotent(row[5]);
    StripIdempotent(row[6]);
    var ips := IpRanges.Expansion(Strip(row[4])).value;
    IpRanges.AddressesAreLiteral(Strip(row[4]));
    var lb := Record(row).value;
    forall b | b in lb.backends
      ensures Strip(b.ip) == b.ip && ':' !in b.ip && ',' !in b.ip && Strip(b.port) == b.port
    {
      var k :| 0 <= k < |lb.backends| && lb.backends[k] == b;
      assert ips[k] in ips;
    }
  }

  /** Stripping keeps a subsequence: no character appears in the result that was not in the text. */
  lemma StripKeeps(s: string, c: char)
    requires c !in s
    ensures c !in Strip(s)
  {
    StripShape(s);
    var i := |s| - |TrimStart(s)|;
    assert Strip(s) == s[i..i + |Strip(s)|];
  }

  /**
   * A row whose backend field is a single address gives exactly one backend,
   * on the declared backend port.
   */
  lemma SingleBackend(row: seq<string>)
    requires |row| == 7
    requires ':' !in row[4] && ',' !in row[4]
    ensures Record(row).Ok?
    ensures Record(row).value.backends == [Endpoint(Strip(row[4]), Strip(row[5]))]
  {
    var x := Strip(row[4]);
    StripKeeps(row[4], ':');
    StripKeeps(row[4], ',');
    StripShape(row[4]);
    IpRanges.LiteralItem(x);
    IpRanges.ExpansionOfOne(x);
    assert WithPort([x], Strip(row[5])) == [Endpoint(x, Strip(row[5]))];
  }
}
