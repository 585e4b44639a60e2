/** The reachability scan of scripts/6.1_fast_scan.py: each source row is fetched up to
    `RETRY_LIMIT` times, the row is stamped with the round-trip time and status code of
    the first accepted response (or with an empty time), and the stamped rows are split
    into a reachable and an unreachable list. The HTTP client is an oracle: attempt `k`
    of row `i` yields `fetch(i, k)`. */
module FastScan {
  import opened Common
  import Text

  const RETRY_LIMIT: nat := 2
  const SUCCESS_STATUS: set<int> := {200, 206, 301, 302, 403, 429}

  /** Column names the stage reads and adds. */
  const ADDRESS: string := "地址"
  const CHECK_TIME: string := "检测时间"
  const STATUS_CODE: string := "状态码"

  /** A status that counts as reachable: one of the allowed codes, or any server error. */
  predicate Accepted(status: int)
  {
    status in SUCCESS_STATUS || 500 <= status <= 599
  }

  /** Forbidden and service-unavailable pass; not-found fails. */
  lemma AcceptedExamples()
    ensures Accepted(403) && Accepted(503) && Accepted(429)
    ensures !Accepted(404) && !Accepted(600) && !Accepted(499)
  {
  }

  /** What one GET gave: an exception (timeout, refused connection, ...), or a response
      with its status and the elapsed milliseconds. */
  datatype Response = Raised | Responded(status: int, rtt: nat)

  /** `fetch_url`: the triple (ok, rtt, status). */
  function FetchUrl(resp: Response): (r: (bool, Option<nat>, Option<int>))
    ensures resp.Raised? ==> r == (false, None, None)
    ensures resp.Responded? ==> r.2 == Some(resp.status)
    ensures r.0 <==> resp.Responded? && Accepted(resp.status)
    ensures r.1.Some? <==> r.0
    ensures r.0 ==> r.1 == Some(resp.rtt)
  {
    match resp
    case Raised => (false, None, None)
    case Responded(status, rtt) =>
      if Accepted(status) then (true, Some(rtt), Some(status)) else (false, None, Some(status))
  }

  /** The first attempt at or after `k`, and before `RETRY_LIMIT`, whose response is
      accepted. */
  function FirstAccepted(fetch: nat -> Response, k: nat): (r: Option<nat>)
    ensures r.Some? ==> k <= r.value < RETRY_LIMIT && FetchUrl(fetch(r.value)).0
    ensures r.Some? ==> forall j :: k <= j < r.value ==> !FetchUrl(fetch(j)).0
    ensures r.None? ==> forall j :: k <= j < RETRY_LIMIT ==> !FetchUrl(fetch(j)).0
    decreases RETRY_LIMIT - k
  {
    if k >= RETRY_LIMIT then None
    else if FetchUrl(fetch(k)).0 then Some(k)
    else FirstAccepted(fetch, k + 1)
  }

  /** A status as a cell: `None` stays `None`. */
  function StatusCell(status: Option<int>): Cell
  {
    match status
    case None => Null
    case Some(s) => Int(s)
  }

  /** The row `check_source` returns for the attempts `fetch`. */
  function Checked(row: Row, fetch: nat -> Response): Row
  {
    match FirstAccepted(fetch, 0)
    case Some(k) => row[CHECK_TIME := Int(fetch(k).rtt)][STATUS_CODE := Int(fetch(k).status)]
    case None => row[CHECK_TIME := Str("")][STATUS_CODE := StatusCell(FetchUrl(fetch(RETRY_LIMIT - 1)).2)]
  }

  /** The seconds slept after failed attempt `k` (counted from 0). */
  function Backoff(k: nat): (d: real)
    ensures d >= 0.2
  {
    0.2 * (k + 1) as real
  }

  /** Each retry waits longer than the one before. */
  lemma BackoffIncreasing(k: nat, j: nat)
    requires k < j
    ensures Backoff(k) < Backoff(j)
  {
  }

  /** The waits after the first `n` attempts. */
  function Backoffs(n: nat): (ds: seq<real>)
    ensures |ds| == n && forall k :: 0 <= k < n ==> ds[k] == Backoff(k)
  {
    seq(n, k requires 0 <= k < n => Backoff(k))
  }

  /** A stamped row keeps every other column, and gains exactly the two stamp columns. */
  lemma CheckedKeepsRow(row: Row, fetch: nat -> Response)
    ensures Checked(row, fetch).Keys == row.Keys + {CHECK_TIME, STATUS_CODE}
    ensures forall c :: c in row && c != CHECK_TIME && c != STATUS_CODE ==> Checked(row, fetch)[c] == row[c]
  {
  }

  /** A row is stamped with a time exactly when some attempt was accepted, and then its
      status is an accepted one; otherwise its status is the last attempt's, if any. */
  lemma {:induction false} CheckedOkIff(row: Row, fetch: nat -> Response)
    ensures IsOk(Checked(row, fetch)) <==> exists j :: 0 <= j < RETRY_LIMIT && FetchUrl(fetch(j)).0
    ensures IsOk(Checked(row, fetch)) ==>
      Checked(row, fetch)[STATUS_CODE].Int? && Accepted(Checked(row, fetch)[STATUS_CODE].i)
    ensures !IsOk(Checked(row, fetch)) ==>
      Checked(row, fetch)[STATUS_CODE] == StatusCell(FetchUrl(fetch(RETRY_LIMIT - 1)).2)
  {
    var first := FirstAccepted(fetch, 0);
    if first.Some? {
      assert FetchUrl(fetch(first.value)).0;
    }
  }

  /** One source checked: the stamped row, how many attempts were made and the waits
      slept between and after them. */
  method CheckSource(row: Row, fetch: nat -> Response) returns (result: Row, attempts: nat, sleeps: seq<real>)
    ensures result == Checked(row, fetch)
    ensures 1 <= attempts <= RETRY_LIMIT
    ensures FirstAccepted(fetch, 0).Some? ==>
      attempts == FirstAccepted(fetch, 0).value + 1 && sleeps == Backoffs(attempts - 1)
    ensures FirstAccepted(fetch, 0).None? ==> attempts == RETRY_LIMIT && sleeps == Backoffs(RETRY_LIMIT)
  {
    var status: Option<int> := None;
    sleeps := [];
    var attempt := 0;
    while attempt < RETRY_LIMIT
      invariant attempt <= RETRY_LIMIT
      invariant FirstAccepted(fetch, 0) == FirstAccepted(fetch, attempt)
      invariant sleeps == Backoffs(attempt)
      invariant attempt > 0 ==> status == FetchUrl(fetch(attempt - 1)).2
    {
      var r := FetchUrl(fetch(attempt));
      status := r.2;
      if r.0 {
        result := row[CHECK_TIME := Int(r.1.value)][STATUS_CODE := Int(r.2.value)];
        attempts := attempt + 1;
        return;
      }
      sleeps := sleeps + [Backoff(attempt)];
      attempt := attempt + 1;
    }
    result := row[CHECK_TIME := Str("")][STATUS_CODE := StatusCell(status)];
    attempts := attempt;
  }

  /** The split test: `r.get("检测时间") != ""`; a missing column reads as `None`. */
  predicate IsOk(r: Row)
  {
    GetOr(r, CHECK_TIME, Null) != Str("")
  }

  predicate IsNotOk(r: Row)
  {
    !IsOk(r)
  }

  /** The attempts of row `i`. */
  function AttemptsOf(fetch: (nat, nat) -> Response, i: nat): nat -> Response
  {
    (k: nat) => fetch(i, k)
  }

  /** Every input row, stamped. */
  function Results(rows: seq<Row>, fetch: (nat, nat) -> Response): (rs: seq<Row>)
    ensures |rs| == |rows|
    ensures forall i :: 0 <= i < |rows| ==> rs[i] == Checked(rows[i], AttemptsOf(fetch, i))
  {
    seq(|rows|, i requires 0 <= i < |rows| => Checked(rows[i], AttemptsOf(fetch, i)))
  }

  /** Every stamped row lands on exactly one side. */
  lemma SplitComplete(results: seq<Row>)
    ensures multiset(Filter(results, IsOk)) + multiset(Filter(results, IsNotOk)) == multiset(results)
    ensures forall r :: r in results ==> (r in Filter(results, IsOk) <==> r !in Filter(results, IsNotOk))
  {
    FilterPartition(results, IsOk, IsNotOk);
  }

  /** `run_all` without the client and the writers: every row checked, the results
      split, and the output header. The rows are checked in input order; the source
      collects them in completion order, which `SplitOrderFree` shows does not matter. */
  method RunAll(rows: seq<Row>, fieldnames: seq<string>, fetch: (nat, nat) -> Response)
    returns (okRows: seq<Row>, notRows: seq<Row>, outputFields: seq<string>)
    ensures okRows == Filter(Results(rows, fetch), IsOk)
    ensures notRows == Filter(Results(rows, fetch), IsNotOk)
    ensures multiset(okRows) + multiset(notRows) == multiset(Results(rows, fetch))
    ensures outputFields == fieldnames + [CHECK_TIME, STATUS_CODE]
  {
    var results: seq<Row> := [];
    var i := 0;
    while i < |rows|
      invariant i <= |rows|
      invariant results == Results(rows, fetch)[..i]
    {
      var r, _, _ := CheckSource(rows[i], AttemptsOf(fetch, i));
      results := results + [r];
      i := i + 1;
    }
    assert results == Results(rows, fetch);
    okRows, notRows := SplitBy(results, IsOk, IsNotOk);
    SplitComplete(results);
    outputFields := fieldnames + [CHECK_TIME, STATUS_CODE];
  }

  /** Whatever order the checks complete in, the same rows land on each side. */
  lemma SplitOrderFree(a: seq<Row>, b: seq<Row>)
    requires multiset(a) == multiset(b)
    ensures multiset(Filter(a, IsOk)) == multiset(Filter(b, IsOk))
    ensures multiset(Filter(a, IsNotOk)) == multiset(Filter(b, IsNotOk))
  {
    FilterPermutation(a, b, IsOk);
    FilterPermutation(a, b, IsNotOk);
  }

  /** `read_csv`'s test: the address column, or `""` when missing, starts with "http". */
  predicate IsHttp(r: Row)
  {
    var url := GetOr(r, ADDRESS, Str(""));
    url.Str? && Text.StartsWith(url.s, "http")
  }

  /** The reading loop of `read_csv`: only rows with an http address are kept, in order. */
  method ReadCsv(records: seq<Row>) returns (rows: seq<Row>)
    ensures rows == Filter(records, IsHttp)
    ensures forall r :: r in rows <==> r in records && IsHttp(r)
  {
    rows := [];
    assert records[..0] == [];
    for i := 0 to |records|
      invariant rows == Filter(records[..i], IsHttp)
    {
      FilterNext(records, i, IsHttp, rows);
      if IsHttp(records[i]) {
        rows := rows + [records[i]];
      }
    }
    assert records[..|records|] == records;
  }
}
