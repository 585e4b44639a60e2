/** The fingerprint capture of scripts/6.3_hash_scan.py: for each http address, frames
    are grabbed at the three `GRAB_TIMES` offsets and hashed; an attempt that fails at any
    offset is retried from scratch, and a source whose every attempt fails records three
    null hashes per algorithm and the last error. Grabbing and hashing one frame is an
    oracle: capture `t` of attempt `k` of task `i` yields `grab(i, k, t)`. */
module HashScan {
  import opened Common
  import Text

  const GRAB_TIMES: seq<nat> := [2, 5, 20]

  /** One frame grabbed and hashed (the three hex strings), or the message of the
      exception that `fetch_frame` or `calc_hashes` raised. */
  datatype Capture = Failed(msg: string) | Hashed(p: string, a: string, d: string)

  /** The per-URL record written to the JSON output. */
  datatype Record = Record(phash: seq<Option<string>>, ahash: seq<Option<string>>, dhash: seq<Option<string>>,
                           error: Option<string>)

  /** Every offset of attempt `k` captured. */
  predicate AttemptOk(grab: (nat, nat) -> Capture, k: nat)
  {
    forall t :: 0 <= t < |GRAB_TIMES| ==> grab(k, t).Hashed?
  }

  /** The first offset at or after `t` whose capture fails in attempt `k`. */
  function FirstFailure(grab: (nat, nat) -> Capture, k: nat, t: nat): (f: Option<nat>)
    ensures f.Some? ==> t <= f.value < |GRAB_TIMES| && grab(k, f.value).Failed?
    ensures f.Some? ==> forall u :: t <= u < f.value ==> grab(k, u).Hashed?
    ensures f.None? ==> forall u :: t <= u < |GRAB_TIMES| ==> grab(k, u).Hashed?
    decreases |GRAB_TIMES| - t
  {
    if t >= |GRAB_TIMES| then None
    else if grab(k, t).Failed? then Some(t)
    else FirstFailure(grab, k, t + 1)
  }

  /** The number of attempts `range(retries + 1)` allows. */
  function AttemptCount(retries: int): nat
  {
    if retries + 1 < 0 then 0 else retries + 1
  }

  /** The first successful attempt at or after `k`, below `n`. */
  function FirstGood(grab: (nat, nat) -> Capture, k: nat, n: nat): (g: Option<nat>)
    ensures g.Some? ==> k <= g.value < n && AttemptOk(grab, g.value)
    ensures g.Some? ==> forall j :: k <= j < g.value ==> !AttemptOk(grab, j)
    ensures g.None? ==> forall j :: k <= j < n ==> !AttemptOk(grab, j)
    decreases n - k
  {
    if k >= n then None
    else if AttemptOk(grab, k) then Some(k)
    else FirstGood(grab, k + 1, n)
  }

  /** The hashes of one algorithm over the offsets of a good attempt. */
  function Column(grab: (nat, nat) -> Capture, k: nat, which: nat): (col: seq<Option<string>>)
    requires AttemptOk(grab, k) && which < 3
    ensures |col| == |GRAB_TIMES| && forall t :: 0 <= t < |col| ==> col[t].Some?
  {
    seq(|GRAB_TIMES|, t requires 0 <= t < |GRAB_TIMES| =>
      var c := grab(k, t); Some(if which == 0 then c.p else if which == 1 then c.a else c.d))
  }

  const NONES: seq<Option<string>> := [None, None, None]

  /** The record `process_url` returns, with the number of one-second waits. */
  function Processed(grab: (nat, nat) -> Capture, retries: int): (Record, nat)
  {
    var n := AttemptCount(retries);
    match FirstGood(grab, 0, n)
    case Some(k) => (Record(Column(grab, k, 0), Column(grab, k, 1), Column(grab, k, 2), None), k)
    case None =>
      if n == 0 then (Record([], [], [], None), 0)
      else
        var f := FirstFailure(grab, n - 1, 0);
        assert !AttemptOk(grab, n - 1);
        assert f.Some?;
        (Record(NONES, NONES, NONES, Some(grab(n - 1, f.value).msg)), n - 1)
  }

  /** Hashes are all present or all null: a record holds three hashes per algorithm from
      one fully captured attempt and no error, or three nulls each and the error of the
      last attempt (only a negative retry count gives empty lists). */
  lemma ProcessedAllOrNothing(grab: (nat, nat) -> Capture, retries: int)
    requires retries >= 0
    ensures var r := Processed(grab, retries).0;
      |r.phash| == 3 && |r.ahash| == 3 && |r.dhash| == 3 &&
      ((r.error.None? && forall t :: 0 <= t < 3 ==> r.phash[t].Some? && r.ahash[t].Some? && r.dhash[t].Some?) ||
       (r.error.Some? && r.phash == NONES && r.ahash == NONES && r.dhash == NONES))
    ensures Processed(grab, retries).0.error.None? <==> exists k :: 0 <= k <= retries && AttemptOk(grab, k)
  {
    var n := AttemptCount(retries);
    var g := FirstGood(grab, 0, n);
    if g.Some? {
      assert AttemptOk(grab, g.value);
    }
  }

  /** A successful record's hashes are those of the first fully captured attempt, in
      `GRAB_TIMES` order, and one wait preceded each earlier attempt's retry. */
  lemma ProcessedFromFirstGood(grab: (nat, nat) -> Capture, retries: int, k: nat)
    requires k <= retries && AttemptOk(grab, k)
    requires forall j :: 0 <= j < k ==> !AttemptOk(grab, j)
    ensures Processed(grab, retries).1 == k
    ensures forall t :: 0 <= t < 3 ==>
      Processed(grab, retries).0.phash[t] == Some(grab(k, t).p) &&
      Processed(grab, retries).0.ahash[t] == Some(grab(k, t).a) &&
      Processed(grab, retries).0.dhash[t] == Some(grab(k, t).d)
  {
    var g := FirstGood(grab, 0, AttemptCount(retries));
    assert g.Some?;
  }

  /** Waits only come between attempts: never more than `retries`, and none after the
      last attempt. */
  lemma ProcessedWaits(grab: (nat, nat) -> Capture, retries: int)
    requires retries >= 0
    ensures Processed(grab, retries).1 <= retries
    ensures Processed(grab, retries).0.error.Some? ==> Processed(grab, retries).1 == retries
  {
  }

  /** One attempt of `process_url`: the capture loop over `GRAB_TIMES`, which stops at
      the first capture that raises. */
  method CaptureAttempt(grab: (nat, nat) -> Capture, attempt: nat)
    returns (phashes: seq<Option<string>>, ahashes: seq<Option<string>>, dhashes: seq<Option<string>>,
             failure: Option<string>)
    ensures failure.None? <==> AttemptOk(grab, attempt)
    ensures failure.None? ==>
      phashes == Column(grab, attempt, 0) && ahashes == Column(grab, attempt, 1) &&
      dhashes == Column(grab, attempt, 2)
    ensures failure.Some? ==>
      FirstFailure(grab, attempt, 0).Some? &&
      failure.value == grab(attempt, FirstFailure(grab, attempt, 0).value).msg
  {
    phashes, ahashes, dhashes := [], [], [];
    failure := None;
    var t := 0;
    while t < |GRAB_TIMES| && failure.None?
      invariant t <= |GRAB_TIMES|
      invariant failure.None? ==> FirstFailure(grab, attempt, 0) == FirstFailure(grab, attempt, t)
      invariant failure.None? ==> |phashes| == |ahashes| == |dhashes| == t
      invariant failure.None? ==> forall u :: 0 <= u < t ==>
        grab(attempt, u).Hashed? && phashes[u] == Some(grab(attempt, u).p) &&
        ahashes[u] == Some(grab(attempt, u).a) && dhashes[u] == Some(grab(attempt, u).d)
      invariant failure.Some? ==> (FirstFailure(grab, attempt, 0).Some? &&
        failure.value == grab(attempt, FirstFailure(grab, attempt, 0).value).msg)
      decreases |GRAB_TIMES| - t + (if failure.None? then 1 else 0)
    {
      match grab(attempt, t)
      case Failed(msg) =>
        failure := Some(msg);
      case Hashed(p, a, d) =>
        phashes := phashes + [Some(p)];
        ahashes := ahashes + [Some(a)];
        dhashes := dhashes + [Some(d)];
        t := t + 1;
    }
    if failure.None? {
      assert phashes == Column(grab, attempt, 0);
      assert ahashes == Column(grab, attempt, 1);
      assert dhashes == Column(grab, attempt, 2);
    }
  }

  /** `process_url` after the semaphore: the retry loop around `CaptureAttempt`. */
  method ProcessUrl(grab: (nat, nat) -> Capture, retries: int) returns (record: Record, waits: nat)
    ensures (record, waits) == Processed(grab, retries)
  {
    var phashes: seq<Option<string>> := [];
    var ahashes: seq<Option<string>> := [];
    var dhashes: seq<Option<string>> := [];
    var error: Option<string> := None;
    waits := 0;
    var n := AttemptCount(retries);
    var attempt := 0;
    while attempt < n
      invariant attempt <= n && (n == 0 || attempt < n)
      invariant FirstGood(grab, 0, n) == FirstGood(grab, attempt, n)
      invariant waits == attempt
      invariant attempt == 0 ==> phashes == ahashes == dhashes == [] && error.None?
    {
      var failure: Option<string>;
      phashes, ahashes, dhashes, failure := CaptureAttempt(grab, attempt);
      if failure.None? {
        record := Record(phashes, ahashes, dhashes, None);
        return;
      }
      error := failure;
      if attempt < n - 1 {
        waits := waits + 1;
      } else {
        phashes, ahashes, dhashes := NONES, NONES, NONES;
        record := Record(phashes, ahashes, dhashes, error);
        return;
      }
      attempt := attempt + 1;
    }
    record := Record(phashes, ahashes, dhashes, error);
  }

  const ADDRESS: string := "地址"

  /** `row.get("地址", "").strip()`. */
  function UrlOf(row: Row): string
  {
    var c := GetOr(row, ADDRESS, Str(""));
    if c.Str? then Text.Strip(c.s) else ""
  }

  /** The stripped address of every row. */
  function Addresses(rows: seq<Row>): (us: seq<string>)
    ensures |us| == |rows| && forall i :: 0 <= i < |rows| ==> us[i] == UrlOf(rows[i])
  {
    seq(|rows|, i requires 0 <= i < |rows| => UrlOf(rows[i]))
  }

  predicate IsHttp(u: string)
  {
    Text.StartsWith(u, "http")
  }

  /** The addresses `main` reads: stripped, and only those starting with "http". */
  function Urls(rows: seq<Row>): seq<string>
  {
    Filter(Addresses(rows), IsHttp)
  }

  /** Every address read starts with "http" and carries no surrounding whitespace, and
      every row whose stripped address starts with "http" contributes it. */
  lemma UrlsAreHttp(rows: seq<Row>)
    ensures |Urls(rows)| <= |rows|
    ensures forall u :: u in Urls(rows) ==> Text.StartsWith(u, "http") && Text.IsStripped(u)
    ensures forall i :: 0 <= i < |rows| && Text.StartsWith(UrlOf(rows[i]), "http") ==> UrlOf(rows[i]) in Urls(rows)
  {
    forall u | u in Urls(rows) ensures Text.IsStripped(u) {
      var i :| 0 <= i < |rows| && Addresses(rows)[i] == u;
      var c := GetOr(rows[i], ADDRESS, Str(""));
      if c.Str? {
        assert u == Text.Strip(c.s);
      }
    }
    forall i | 0 <= i < |rows| && Text.StartsWith(UrlOf(rows[i]), "http") ensures UrlOf(rows[i]) in Urls(rows) {
      assert Addresses(rows)[i] == UrlOf(rows[i]);
    }
  }

  /** The reading loop of `main`: each address stripped, and kept when it starts with
      "http". */
  method ReadUrls(rows: seq<Row>) returns (urls: seq<string>)
    ensures urls == Urls(rows)
  {
    urls := FilterBy(Addresses(rows), IsHttp);
  }

  /** The attempts of task `i`. */
  function TaskGrab(grab: (nat, nat, nat) -> Capture, i: nat): (nat, nat) -> Capture
  {
    (k: nat, t: nat) => grab(i, k, t)
  }

  /** `main` without the files: one task per address, the results keyed by address. Tasks
      are collected in input order, so for a repeated address the later task's record is
      kept. */
  method HashScan(rows: seq<Row>, retries: int, grab: (nat, nat, nat) -> Capture)
    returns (urls: seq<string>, results: map<string, Record>)
    ensures urls == Urls(rows)
    ensures forall u :: u in results <==> u in urls
    ensures forall u :: u in results ==> results[u] == Processed(TaskGrab(grab, LastIndex(urls, u)), retries).0
  {
    urls := ReadUrls(rows);
    var records := ProcessAll(|urls|, retries, grab);
    results := Collect(urls, records);
  }

  /** The task loop: one record per address, in address order. */
  method ProcessAll(n: nat, retries: int, grab: (nat, nat, nat) -> Capture) returns (records: seq<Record>)
    ensures |records| == n
    ensures forall j :: 0 <= j < n ==> records[j] == Processed(TaskGrab(grab, j), retries).0
  {
    records := [];
    var i := 0;
    while i < n
      invariant i <= n && |records| == i
      invariant forall j :: 0 <= j < i ==> records[j] == Processed(TaskGrab(grab, j), retries).0
    {
      var record, _ := ProcessUrl(TaskGrab(grab, i), retries);
      records := records + [record];
      i := i + 1;
    }
  }
}
