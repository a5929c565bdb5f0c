/**
 * The `check` driver: for every data row, parse a record, probe its frontend
 * once, then probe each backend in order and emit one report row per backend.
 * Probe answers are parameters; the report rows are the arguments of the
 * `print_lb_status` calls, and the probes made are recorded in order.
 */
module Check {
  import opened Wrappers
  import opened Text
  import opened Status
  import opened Probes
  import opened Records

  /**
   * The arguments of one `print_lb_status` call. A follow-on row in compact
   * mode passes the empty string as frontend status; `",".join("")` is the
   * empty string, as is the join of the empty status list used for it here.
   */
  datatype Row = Row(
    name: string, frontendIp: string, frontendPort: string, frontendStatus: seq<Code>,
    backendIp: string, backendPort: string, backendStatus: seq<Code>,
    healthCheck: string, auth: string)

  /** The exceptions that end a run: no header row, a row `LoadBalancer.parse` rejects, a malformed `auth`. */
  datatype Failure = NoHeader | BadRow(rowError: RowError) | BadAuth(probeError: ProbeError)

  /** What a run, or part of one, printed and probed, in order, and the exception that ended it, if any. */
  datatype Run = Run(rows: seq<Row>, probes: seq<Probe>, failure: Option<Failure>)

  /** The status list of one endpoint: the L4 code, then the L7 code when the health check has a URL. */
  function EndpointStatus(e: Endpoint, hc: HealthCheck, tcp: TcpProbe, http: HttpProbe): Result<seq<Code>, ProbeError> {
    var l4 := Telnet(e.ip, e.port, tcp);
    if hc.url == "" then Ok([l4])
    else
      match HttpGet(e.ip, e.port, hc.url, hc.auth, http)
      case Err(err) => Err(err)
      case Ok(l7) => Ok([l4, l7])
  }

  /** The probes made for one endpoint: the TCP connect, then the HTTP request when there is one. */
  function EndpointProbes(e: Endpoint, hc: HealthCheck): seq<Probe> {
    [Tcp(e.ip, e.port)] + if hc.url == "" then [] else HttpCalls(e.ip, e.port, hc.url, hc.auth)
  }

  /** Builds one endpoint's status list by appending, as `check` does for the frontend and for each backend. */
  method CheckEndpoint(e: Endpoint, hc: HealthCheck, tcp: TcpProbe, http: HttpProbe)
    returns (status: Result<seq<Code>, ProbeError>, probes: seq<Probe>)
    ensures status == EndpointStatus(e, hc, tcp, http)
    ensures probes == EndpointProbes(e, hc)
  {
    var list := [Telnet(e.ip, e.port, tcp)];
    probes := [Tcp(e.ip, e.port)];
    if hc.url != "" {
      probes := probes + HttpCalls(e.ip, e.port, hc.url, hc.auth);
      var l7 := HttpGet(e.ip, e.port, hc.url, hc.auth, http);
      if l7.Err? {
        return Err(l7.error), probes;
      }
      list := list + [l7.value];
      assert list == [Telnet(e.ip, e.port, tcp), l7.value];
    } else {
      assert EndpointProbes(e, hc) == [Tcp(e.ip, e.port)] + [];
    }
    return Ok(list), probes;
  }

  /** The health check can be run on every endpoint: no URL, or an `auth` that splits. */
  predicate Runnable(hc: HealthCheck) {
    hc.url == "" || SplitAuth(hc.auth).Ok?
  }

  /**
   * A status list is one L4 code, followed by one L7 code exactly when the
   * health check has a URL, whatever the L4 probe answered; it is missing
   * only when the credential split raises.
   */
  lemma StatusListShape(e: Endpoint, hc: HealthCheck, tcp: TcpProbe, http: HttpProbe)
    ensures EndpointStatus(e, hc, tcp, http).Ok? <==> Runnable(hc)
    ensures EndpointStatus(e, hc, tcp, http).Err? ==> EndpointStatus(e, hc, tcp, http).error == AuthWithoutColon(hc.auth)
    ensures EndpointStatus(e, hc, tcp, http).Ok? ==>
      var s := EndpointStatus(e, hc, tcp, http).value;
      |s| == (if hc.url == "" then 1 else 2) &&
      s[0] == (if tcp(e.ip, e.port) then L4Pass else L4Failed) &&
      (|s| == 2 ==> s[1] == (if http(Target(e.ip, e.port, hc.url), SplitAuth(hc.auth).value) then L7Pass else L7Failed))
    ensures EndpointProbes(e, hc)[0] == Tcp(e.ip, e.port)
    ensures |EndpointProbes(e, hc)| == if Runnable(hc) && hc.url != "" then 2 else 1
  {
    ProbeCodes(e.ip, e.port, hc.url, hc.auth, tcp, http);
    SplitAuthCases(hc.auth);
  }

  /**
   * An endpoint is reported "passing" exactly when its TCP connect succeeded
   * and, if the health check has a URL, its HTTP request succeeded too.
   */
  lemma EndpointVerdict(e: Endpoint, hc: HealthCheck, tcp: TcpProbe, http: HttpProbe)
    requires Runnable(hc)
    ensures var s := EndpointStatus(e, hc, tcp, http).value;
      IsPassing(s) <==>
        tcp(e.ip, e.port) && (hc.url == "" || http(Target(e.ip, e.port, hc.url), SplitAuth(hc.auth).value))
  {
    StatusListShape(e, hc, tcp, http);
    PassingExactly(EndpointStatus(e, hc, tcp, http).value);
  }

  /** The L7 probe runs even after a failed L4 probe, so `L4:F,L7:P` can be reported. */
  lemma L4FailL7PassReachable(e: Endpoint)
    ensures var hc := HealthCheck("/health", "");
      EndpointStatus(e, hc, (ip, port) => false, (target, creds) => true) == Ok([L4Failed, L7Pass]) &&
      StatusCell([L4Failed, L7Pass]) == Cell(false, "L4:F,L7:P")
  {
    FailingExamples();
  }

  /**
   * The row `print_lb_status` is called with for the backend at `index`: in
   * compact mode only the first row carries the record's name, frontend and
   * health check; later rows leave them empty.
   */
  function ReportRow(lb: LoadBalancer, frontendStatus: seq<Code>, index: nat, backend: Endpoint,
                     backendStatus: seq<Code>, verbose: bool): Row
  {
    if !verbose && index != 0 then
      Row("", "", "", [], backend.ip, backend.port, backendStatus, "", "")
    else
      Row(lb.name, lb.frontend.ip, lb.frontend.port, frontendStatus, backend.ip, backend.port, backendStatus,
          lb.healthCheck.url, lb.healthCheck.auth)
  }

  /** The first `n` backends checked in order, after a frontend with the given status list. */
  function BackendsRun(lb: LoadBalancer, frontendStatus: seq<Code>, verbose: bool, tcp: TcpProbe, http: HttpProbe, n: nat): Run
    requires n <= |lb.backends|
  {
    if n == 0 then Run([], [], None)
    else
      var prev := BackendsRun(lb, frontendStatus, verbose, tcp, http, n - 1);
      if prev.failure.Some? then prev
      else
        var b := lb.backends[n - 1];
        var probes := prev.probes + EndpointProbes(b, lb.healthCheck);
        match EndpointStatus(b, lb.healthCheck, tcp, http)
        case Err(err) => Run(prev.rows, probes, Some(BadAuth(err)))
        case Ok(status) => Run(prev.rows + [ReportRow(lb, frontendStatus, n - 1, b, status, verbose)], probes, None)
  }

  /** What `check` prints and probes for one record. */
  function RecordRun(lb: LoadBalancer, verbose: bool, tcp: TcpProbe, http: HttpProbe): Run {
    var probes := EndpointProbes(lb.frontend, lb.healthCheck);
    match EndpointStatus(lb.frontend, lb.healthCheck, tcp, http)
    case Err(err) => Run([], probes, Some(BadAuth(err)))
    case Ok(frontendStatus) =>
      var rest := BackendsRun(lb, frontendStatus, verbose, tcp, http, |lb.backends|);
      Run(rest.rows, probes + rest.probes, rest.failure)
  }

  /** Once checking a backend raised, checking more backends changes nothing. */
  lemma {:induction false} BackendsRunSticks(lb: LoadBalancer, frontendStatus: seq<Code>, verbose: bool,
                                             tcp: TcpProbe, http: HttpProbe, m: nat, n: nat)
    requires m <= n <= |lb.backends|
    requires BackendsRun(lb, frontendStatus, verbose, tcp, http, m).failure.Some?
    ensures BackendsRun(lb, frontendStatus, verbose, tcp, http, n) == BackendsRun(lb, frontendStatus, verbose, tcp, http, m)
    decreases n
  {
    if m < n {
      BackendsRunSticks(lb, frontendStatus, verbose, tcp, http, m, n - 1);
    }
  }

  /** The loop over `enumerate(lb.backends)`: one status list and one report row per backend. */
  method CheckBackends(lb: LoadBalancer, frontendStatus: seq<Code>, verbose: bool, tcp: TcpProbe, http: HttpProbe)
    returns (run: Run)
    ensures run == BackendsRun(lb, frontendStatus, verbose, tcp, http, |lb.backends|)
  {
    var rows: seq<Row> := [];
    var probes: seq<Probe> := [];
    var index := 0;
    while index < |lb.backends|
      invariant 0 <= index <= |lb.backends|
      invariant BackendsRun(lb, frontendStatus, verbose, tcp, http, index) == Run(rows, probes, None)
    {
      var backend := lb.backends[index];
      var backendStatus, backendProbes := CheckEndpoint(backend, lb.healthCheck, tcp, http);
      probes := probes + backendProbes;
      if backendStatus.Err? {
        run := Run(rows, probes, Some(BadAuth(backendStatus.error)));
        BackendsRunSticks(lb, frontendStatus, verbose, tcp, http, index + 1, |lb.backends|);
        return;
      }
      rows := rows + [ReportRow(lb, frontendStatus, index, backend, backendStatus.value, verbose)];
      index := index + 1;
    }
    return Run(rows, probes, None);
  }

  /** The frontend's status list once, then every backend's. */
  method CheckRecord(lb: LoadBalancer, verbose: bool, tcp: TcpProbe, http: HttpProbe) returns (run: Run)
    ensures run == RecordRun(lb, verbose, tcp, http)
  {
    var frontendStatus, probes := CheckEndpoint(lb.frontend, lb.healthCheck, tcp, http);
    if frontendStatus.Err? {
      return Run([], probes, Some(BadAuth(frontendStatus.error)));
    }
    var rest := CheckBackends(lb, frontendStatus.value, verbose, tcp, http);
    return Run(rest.rows, probes + rest.probes, rest.failure);
  }

  /** The probes of a sequence of backends, one endpoint after the other. */
  function BackendProbes(backends: seq<Endpoint>, hc: HealthCheck): seq<Probe> {
    if backends == [] then []
    else BackendProbes(backends[..|backends| - 1], hc) + EndpointProbes(backends[|backends| - 1], hc)
  }

  /** One more backend under a runnable health check adds its probes and its row. */
  lemma BackendsRunStep(lb: LoadBalancer, frontendStatus: seq<Code>, verbose: bool,
                        tcp: TcpProbe, http: HttpProbe, n: nat)
    requires 0 < n <= |lb.backends|
    requires Runnable(lb.healthCheck)
    requires BackendsRun(lb, frontendStatus, verbose, tcp, http, n - 1).failure == None
    ensures var prev, b := BackendsRun(lb, frontendStatus, verbose, tcp, http, n - 1), lb.backends[n - 1];
      EndpointStatus(b, lb.healthCheck, tcp, http).Ok? &&
      BackendsRun(lb, frontendStatus, verbose, tcp, http, n) ==
        Run(prev.rows + [ReportRow(lb, frontendStatus, n - 1, b, EndpointStatus(b, lb.healthCheck, tcp, http).value, verbose)],
            prev.probes + EndpointProbes(b, lb.healthCheck), None)
  {
    StatusListShape(lb.backends[n - 1], lb.healthCheck, tcp, http);
  }

  /** With a runnable health check, the first `n` backends never raise and are probed in order. */
  lemma {:induction false} BackendsRunOk(lb: LoadBalancer, frontendStatus: seq<Code>, verbose: bool,
                                         tcp: TcpProbe, http: HttpProbe, n: nat)
    requires n <= |lb.backends|
    requires Runnable(lb.healthCheck)
    ensures var run := BackendsRun(lb, frontendStatus, verbose, tcp, http, n);
      run.failure == None && |run.rows| == n && run.probes == BackendProbes(lb.backends[..n], lb.healthCheck)
  {
    if n > 0 {
      BackendsRunOk(lb, frontendStatus, verbose, tcp, http, n - 1);
      BackendsRunStep(lb, frontendStatus, verbose, tcp, http, n);
      assert lb.backends[..n][..n - 1] == lb.backends[..n - 1];
    }
  }

  /** With a runnable health check, row `k` is the report of backend `k`, however many backends follow. */
  lemma {:induction false} BackendsRunRow(lb: LoadBalancer, frontendStatus: seq<Code>, verbose: bool,
                                          tcp: TcpProbe, http: HttpProbe, n: nat, k: nat)
    requires k < n <= |lb.backends|
    requires Runnable(lb.healthCheck)
    ensures EndpointStatus(lb.backends[k], lb.healthCheck, tcp, http).Ok?
    ensures var run := BackendsRun(lb, frontendStatus, verbose, tcp, http, n);
      k < |run.rows| &&
      run.rows[k] == ReportRow(lb, frontendStatus, k, lb.backends[k],
                               EndpointStatus(lb.backends[k], lb.healthCheck, tcp, http).value, verbose)
  {
    BackendsRunOk(lb, frontendStatus, verbose, tcp, http, n - 1);
    BackendsRunStep(lb, frontendStatus, verbose, tcp, http, n);
    if k < n - 1 {
      BackendsRunRow(lb, frontendStatus, verbose, tcp, http, n - 1, k);
    }
  }

  /** With a runnable health check, the first `n` backends give `n` rows, in order, and never raise. */
  lemma BackendsRunShape(lb: LoadBalancer, frontendStatus: seq<Code>, verbose: bool,
                         tcp: TcpProbe, http: HttpProbe, n: nat)
    requires n <= |lb.backends|
    requires Runnable(lb.healthCheck)
    ensures var run := BackendsRun(lb, frontendStatus, verbose, tcp, http, n);
      run.failure == None &&
      run.probes == BackendProbes(lb.backends[..n], lb.healthCheck) &&
      |run.rows| == n &&
      forall k :: 0 <= k < n ==>
        EndpointStatus(lb.backends[k], lb.healthCheck, tcp, http).Ok? &&
        run.rows[k] == ReportRow(lb, frontendStatus, k, lb.backends[k],
                                 EndpointStatus(lb.backends[k], lb.healthCheck, tcp, http).value, verbose)
  {
    BackendsRunOk(lb, frontendStatus, verbose, tcp, http, n);
    forall k | 0 <= k < n
      ensures EndpointStatus(lb.backends[k], lb.healthCheck, tcp, http).Ok?
      ensures BackendsRun(lb, frontendStatus, verbose, tcp, http, n).rows[k] ==
        ReportRow(lb, frontendStatus, k, lb.backends[k], EndpointStatus(lb.backends[k], lb.healthCheck, tcp, http).value, verbose)
    {
      BackendsRunRow(lb, frontendStatus, verbose, tcp, http, n, k);
    }
  }

  /**
   * For one record: when the frontend's `auth` is malformed, only the frontend
   * is probed and nothing is printed. Otherwise the frontend is probed first,
   * then each backend in declared order; there is one row per backend (none
   * for a record without backends), carrying the backend's address, port and
   * status list; the name, frontend and health-check fields and the frontend
   * status are on every row in verbose mode and on the first row only in
   * compact mode.
   */
  lemma RecordRunShape(lb: LoadBalancer, verbose: bool, tcp: TcpProbe, http: HttpProbe)
    ensures var run := RecordRun(lb, verbose, tcp, http);
      !Runnable(lb.healthCheck) ==>
        run == Run([], EndpointProbes(lb.frontend, lb.healthCheck), Some(BadAuth(AuthWithoutColon(lb.healthCheck.auth))))
    ensures var run := RecordRun(lb, verbose, tcp, http);
      Runnable(lb.healthCheck) ==>
        var fs := EndpointStatus(lb.frontend, lb.healthCheck, tcp, http).value;
        run.failure == None &&
        run.probes == EndpointProbes(lb.frontend, lb.healthCheck) + BackendProbes(lb.backends, lb.healthCheck) &&
        |run.rows| == |lb.backends| &&
        forall k :: 0 <= k < |lb.backends| ==>
          var row, b := run.rows[k], lb.backends[k];
          EndpointStatus(b, lb.healthCheck, tcp, http).Ok? &&
          row.backendIp == b.ip && row.backendPort == b.port &&
          row.backendStatus == EndpointStatus(b, lb.healthCheck, tcp, http).value &&
          (verbose || k == 0 ==>
            row.name == lb.name && row.frontendIp == lb.frontend.ip && row.frontendPort == lb.frontend.port &&
            row.frontendStatus == fs && row.healthCheck == lb.healthCheck.url && row.auth == lb.healthCheck.auth) &&
          (!verbose && k > 0 ==>
            row.name == "" && row.frontendIp == "" && row.frontendPort == "" &&
            row.frontendStatus == [] && row.healthCheck == "" && row.auth == "")
  {
    StatusListShape(lb.frontend, lb.healthCheck, tcp, http);
    if Runnable(lb.healthCheck) {
      var fs := EndpointStatus(lb.frontend, lb.healthCheck, tcp, http).value;
      BackendsRunShape(lb, fs, verbose, tcp, http, |lb.backends|);
      assert lb.backends[..|lb.backends|] == lb.backends;
    }
  }

  /** The work for one data row: nothing for an empty row, otherwise parse the record and check it. */
  function RowRun(row: seq<string>, verbose: bool, tcp: TcpProbe, http: HttpProbe): Run {
    if row == [] then Run([], [], None)
    else
      match Record(row)
      case Err(e) => Run([], [], Some(BadRow(e)))
      case Ok(lb) => RecordRun(lb, verbose, tcp, http)
  }

  /** `a` followed by `b`, unless `a` ended in an exception. */
  function Then(a: Run, b: Run): Run {
    if a.failure.Some? then a else Run(a.rows + b.rows, a.probes + b.probes, b.failure)
  }

  /** The data rows processed in order. */
  function RowsRun(rows: seq<seq<string>>, verbose: bool, tcp: TcpProbe, http: HttpProbe): Run {
    if rows == [] then Run([], [], None)
    else Then(RowsRun(rows[..|rows| - 1], verbose, tcp, http), RowRun(rows[|rows| - 1], verbose, tcp, http))
  }

  /** What `check(file)` prints and probes, given the rows the CSV reader yields; the first is the header. */
  function CheckRun(file: seq<seq<string>>, verbose: bool, tcp: TcpProbe, http: HttpProbe): Run {
    if file == [] then Run([], [], Some(NoHeader)) else RowsRun(file[1..], verbose, tcp, http)
  }

  /** Once a row raised, later rows are neither parsed, probed nor printed. */
  lemma {:induction false} RowsRunSticks(rows: seq<seq<string>>, n: nat, verbose: bool, tcp: TcpProbe, http: HttpProbe)
    requires n <= |rows|
    requires RowsRun(rows[..n], verbose, tcp, http).failure.Some?
    ensures RowsRun(rows, verbose, tcp, http) == RowsRun(rows[..n], verbose, tcp, http)
    decreases |rows| - n
  {
    if n < |rows| {
      assert rows[..n + 1][..n] == rows[..n];
      RowsRunSticks(rows, n + 1, verbose, tcp, http);
    } else {
      assert rows[..n] == rows;
    }
  }

  /** One more row extends the run of the rows before it, as long as those did not raise. */
  lemma RowsRunStep(rows: seq<seq<string>>, k: nat, verbose: bool, tcp: TcpProbe, http: HttpProbe)
    requires k < |rows|
    requires RowsRun(rows[..k], verbose, tcp, http).failure.None?
    ensures var before, row := RowsRun(rows[..k], verbose, tcp, http), RowRun(rows[k], verbose, tcp, http);
      RowsRun(rows[..k + 1], verbose, tcp, http) == Run(before.rows + row.rows, before.probes + row.probes, row.failure)
  {
    assert rows[..k + 1][..k] == rows[..k];
  }

  /** The body of the loop in `check`: an empty row is skipped, any other is parsed and checked. */
  method CheckRow(row: seq<string>, verbose: bool, tcp: TcpProbe, http: HttpProbe) returns (run: Run)
    ensures run == RowRun(row, verbose, tcp, http)
  {
    if row == [] {
      return Run([], [], None);
    }
    var lb := Parse(row);
    if lb.Err? {
      return Run([], [], Some(BadRow(lb.error)));
    }
    run := CheckRecord(lb.value, verbose, tcp, http);
  }

  /** `check`: skips the header, then parses and checks every non-empty row in turn. */
  method Check(file: seq<seq<string>>, verbose: bool, tcp: TcpProbe, http: HttpProbe) returns (run: Run)
    ensures run == CheckRun(file, verbose, tcp, http)
  {
    if file == [] {
      return Run([], [], Some(NoHeader));
    }
    var data := file[1..];
    var rows: seq<Row> := [];
    var probes: seq<Probe> := [];
    var k := 0;
    while k < |data|
      invariant 0 <= k <= |data|
      invariant RowsRun(data[..k], verbose, tcp, http) == Run(rows, probes, None)
    {
      var result := CheckRow(data[k], verbose, tcp, http);
      RowsRunStep(data, k, verbose, tcp, http);
      rows := rows + result.rows;
      probes := probes + result.probes;
      if result.failure.Some? {
        RowsRunSticks(data, k + 1, verbose, tcp, http);
        return Run(rows, probes, result.failure);
      }
      k := k + 1;
    }
    assert data[..k] == data;
    return Run(rows, probes, None);
  }

  /** Running parts one after the other does not depend on how they are grouped. */
  lemma ThenAssociative(x: Run, y: Run, z: Run)
    ensures Then(Then(x, y), z) == Then(x, Then(y, z))
  {
    if x.failure.None? && y.failure.None? {
      assert (x.rows + y.rows) + z.rows == x.rows + (y.rows + z.rows);
      assert (x.probes + y.probes) + z.probes == x.probes + (y.probes + z.probes);
    }
  }

  /**
   * Rows are handled in file order: running `a` then `b` is running `a`,
   * then, unless it raised, `b`.
   */
  lemma {:induction false} RowsRunAppend(a: seq<seq<string>>, b: seq<seq<string>>, verbose: bool, tcp: TcpProbe, http: HttpProbe)
    ensures RowsRun(a + b, verbose, tcp, http) == Then(RowsRun(a, verbose, tcp, http), RowsRun(b, verbose, tcp, http))
    decreases |b|
  {
    var ra := RowsRun(a, verbose, tcp, http);
    if b == [] {
      assert a + b == a;
      if ra.failure.None? {
        assert ra.rows + [] == ra.rows && ra.probes + [] == ra.probes;
      }
    } else {
      var init, last := b[..|b| - 1], b[|b| - 1];
      assert (a + b)[..|a + b| - 1] == a + init;
      assert (a + b)[|a + b| - 1] == last;
      RowsRunAppend(a, init, verbose, tcp, http);
      ThenAssociative(ra, RowsRun(init, verbose, tcp, http), RowRun(last, verbose, tcp, http));
    }
  }

  /** An empty row is skipped: it is neither parsed nor probed and prints nothing. */
  lemma EmptyRowSkipped(rows: seq<seq<string>>, verbose: bool, tcp: TcpProbe, http: HttpProbe)
    ensures RowsRun(rows + [[]], verbose, tcp, http) == RowsRun(rows, verbose, tcp, http)
  {
    var r := RowsRun(rows, verbose, tcp, http);
    assert (rows + [[]])[..|rows|] == rows;
    if r.failure.None? {
      assert r.rows + [] == r.rows && r.probes + [] == r.probes;
    }
  }

  /**
   * A row with the wrong number of fields or a malformed backend range ends
   * the whole run: the rows before it are reported, nothing after it is.
   */
  lemma BadRowStopsRun(rows: seq<seq<string>>, k: nat, verbose: bool, tcp: TcpProbe, http: HttpProbe)
    requires k < |rows|
    requires rows[k] != [] && Record(rows[k]).Err?
    requires RowsRun(rows[..k], verbose, tcp, http).failure.None?
    ensures var before := RowsRun(rows[..k], verbose, tcp, http);
      RowsRun(rows, verbose, tcp, http) == Run(before.rows, before.probes, Some(BadRow(Record(rows[k]).error)))
  {
    var before := RowsRun(rows[..k], verbose, tcp, http);
    var bad := RowRun(rows[k], verbose, tcp, http);
    assert bad == Run([], [], Some(BadRow(Record(rows[k]).error)));
    var upTo := rows[..k + 1];
    assert upTo[..k] == rows[..k] && upTo[k] == rows[k];
    assert RowsRun(upTo, verbose, tcp, http) == Then(before, bad);
    assert before.rows + [] == before.rows && before.probes + [] == before.probes;
    RowsRunSticks(rows, k + 1, verbose, tcp, http);
  }

  /** An empty file raises on its missing header; a header alone gives an empty report. */
  lemma HeaderOnly(header: seq<string>, verbose: bool, tcp: TcpProbe, http: HttpProbe)
    ensures CheckRun([], verbose, tcp, http).failure == Some(NoHeader)
    ensures CheckRun([header], verbose, tcp, http) == Run([], [], None)
  {
    assert [header][1..] == [];
  }

  /**
   * A header and one record with a single backend address and no health-check
   * URL, every TCP connect succeeding: one row, frontend and backend each
   * reported with status `L4:P`, shown as "passing".
   */
  lemma SingleRecordEndToEnd(header: seq<string>, row: seq<string>, tcp: TcpProbe, http: HttpProbe)
    requires |row| == 7 && row[3] == ""
    requires ':' !in row[4] && ',' !in row[4]
    requires forall ip, port :: tcp(ip, port)
    ensures var run := CheckRun([header, row], false, tcp, http);
      run == Run(
        [Row(Strip(row[0]), Strip(row[1]), Strip(row[2]), [L4Pass], Strip(row[4]), Strip(row[5]), [L4Pass], "", Strip(row[6]))],
        [Tcp(Strip(row[1]), Strip(row[2])), Tcp(Strip(row[4]), Strip(row[5]))],
        None) &&
      StatusCell(run.rows[0].frontendStatus) == Cell(true, "passing")
  {
    SingleBackend(row);
    RecordShape(row);
    var lb := Record(row).value;
    assert lb.healthCheck.url == "";
    assert [header, row][1..] == [row];
    assert RowsRun([row], false, tcp, http) == RowRun(row, false, tcp, http);
    var fs := EndpointStatus(lb.frontend, lb.healthCheck, tcp, http);
    assert fs == Ok([L4Pass]);
    var b := lb.backends[0];
    assert EndpointStatus(b, lb.healthCheck, tcp, http) == Ok([L4Pass]);
    assert BackendsRun(lb, [L4Pass], false, tcp, http, 1) ==
      Run([ReportRow(lb, [L4Pass], 0, b, [L4Pass], false)], [Tcp(b.ip, b.port)], None);
    PassingExamples();
  }
}
