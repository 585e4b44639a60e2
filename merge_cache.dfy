/** The rolling three-day total cache of scripts/D_merge_cache.py. The store maps
    URL -> date (YYYYMMDD) -> timepoint -> hash entry. A run drops every date outside
    today and the two days before, merges the chunk files of the recent date directories
    into the store, overwriting entries at the same key, and writes the store out sorted
    by URL and date, with timepoints in a fixed order. */
module MergeCache {
  import opened Common
  import opened Text

  /** The timepoints written out, in output order. */
  const TIME_KEYS: seq<string> := ["0811", "1612", "2113"]

  /** A chunk's record for one timepoint: a JSON object of arbitrary keys. */
  type Hashes = map<string, Cell>

  /** One merged entry: exactly these four keys, each `None` when the chunk lacked it. */
  datatype Entry = Entry(phash: Cell, ahash: Cell, dhash: Cell, error: Cell)

  /** timepoint -> entry */
  type Bucket = map<string, Entry>

  /** date -> bucket */
  type Dated = map<string, Bucket>

  /** URL -> dated buckets */
  type Store = map<string, Dated>

  /** A chunk file's content: URL -> timepoint -> record. */
  type ChunkData = map<string, map<string, Hashes>>

  /** Reading a chunk file either fails (the exception is caught) or gives its content. */
  datatype ChunkFile = Unreadable | Loaded(data: ChunkData)

  /** The cache directory: each sub-directory's name with its listing (file name, file). */
  type CacheDir = map<string, seq<(string, ChunkFile)>>

  /** The total cache file: absent, not valid JSON, or a parsed store. */
  datatype TotalCache = NoTotal | CorruptTotal | TotalDoc(store: Store)

  /** The written document: URLs, dates and timepoints as lists of pairs, in file order. */
  type Doc = seq<(string, seq<(string, seq<(string, Entry)>)>)>

  /** What a run does. `Crashed` is the uncaught exception `json.load` raises on a corrupt
      total file. */
  datatype Outcome = NoCacheDir | NoRecentDates | Crashed | Written(doc: Doc, lastMerged: string)

  /** The entry stored for one chunk record: `hashes.get(...)` of the four keys. */
  function Project(h: Hashes): Entry
  {
    Entry(GetOr(h, "phash", Null), GetOr(h, "ahash", Null), GetOr(h, "dhash", Null), GetOr(h, "error", Null))
  }

  // ---------------------------------------------------------------- recent dates

  /** `recent_exist_dates`: the recent dates, in their given order, that name an all-digit
      entry of the cache directory. */
  function RecentExisting(recent: seq<string>, names: set<string>): (r: seq<string>)
    ensures forall d :: d in r <==> d in recent && d in names && AllDigits(d)
    ensures |r| <= |recent|
  {
    if |recent| == 0 then []
    else
      (if recent[0] in names && AllDigits(recent[0]) then [recent[0]] else [])
      + RecentExisting(recent[1..], names)
  }

  /** Each element strictly greater than every later one (newest first). */
  predicate StrictlyDescending(s: seq<string>)
  {
    forall i, j :: 0 <= i < j < |s| ==> LexLess(s[j], s[i])
  }

  /** Filtering a newest-first list keeps it newest first. */
  lemma {:induction false} RecentExistingDescending(recent: seq<string>, names: set<string>)
    requires StrictlyDescending(recent)
    ensures StrictlyDescending(RecentExisting(recent, names))
  {
    if |recent| > 0 {
      var rest := RecentExisting(recent[1..], names);
      RecentExistingDescending(recent[1..], names);
      if recent[0] in names && AllDigits(recent[0]) {
        var r := [recent[0]] + rest;
        forall i, j | 0 <= i < j < |r| ensures LexLess(r[j], r[i]) {
          assert r[j] == rest[j - 1];
          if i > 0 {
            assert r[i] == rest[i - 1];
          } else {
            assert rest[j - 1] in recent[1..];
            var k :| 0 <= k < |recent[1..]| && recent[1..][k] == rest[j - 1];
            assert recent[k + 1] == rest[j - 1];
          }
        }
      }
    }
  }

  /** The date recorded as `last_merged_date` is the last recent date present; when the
      recent dates are listed newest first, it is the oldest of them. */
  lemma LastMergedIsOldest(recent: seq<string>, names: set<string>)
    requires StrictlyDescending(recent)
    requires RecentExisting(recent, names) != []
    ensures var r := RecentExisting(recent, names);
      forall d :: d in r && d != r[|r| - 1] ==> LexLess(r[|r| - 1], d)
  {
    RecentExistingDescending(recent, names);
    var r := RecentExisting(recent, names);
    forall d | d in r && d != r[|r| - 1] ensures LexLess(r[|r| - 1], d) {
      var i :| 0 <= i < |r| && r[i] == d;
    }
  }

  // ---------------------------------------------------------------- pruning

  /** A URL's buckets restricted to the recent dates. */
  function PrunedDates(dd: Dated, recent: seq<string>): Dated
  {
    map d | d in dd && d in recent :: dd[d]
  }

  /** The store after pruning: old dates gone, URLs left without dates gone. */
  function Pruned(store: Store, recent: seq<string>): Store
  {
    map u | u in store && PrunedDates(store[u], recent) != map[] :: PrunedDates(store[u], recent)
  }

  /** The inner pruning loop: delete every date key of one URL that is not recent. */
  method PruneDates(dd: Dated, recent: seq<string>) returns (r: Dated)
    ensures r == PrunedDates(dd, recent)
    ensures forall d :: d in r <==> d in dd && d in recent
    ensures forall d :: d in r ==> r[d] == dd[d]
  {
    r := dd;
    var todo := dd.Keys;
    while todo != {}
      invariant todo <= dd.Keys
      invariant forall d :: d in r <==> d in dd && (d in todo || d in recent)
      invariant forall d :: d in r ==> r[d] == dd[d]
      decreases |todo|
    {
      var d :| d in todo;
      if d !in recent {
        r := r - {d};
      }
      todo := todo - {d};
    }
    assert r.Keys == PrunedDates(dd, recent).Keys;
  }

  /** The outer loop's invariant: the URLs outside `todo` are pruned, and dropped when
      left without dates; the URLs in `todo` are as stored. */
  ghost predicate PrunedSoFar(store: Store, recent: seq<string>, todo: set<string>, p: Store)
  {
    (forall u :: u in p <==> u in store && (u in todo || PrunedDates(store[u], recent) != map[])) &&
    forall u :: u in p ==> p[u] == if u in todo then store[u] else PrunedDates(store[u], recent)
  }

  /** One turn of the outer loop: the URL taken is still stored whole, and replacing or
      dropping it by its pruned dates keeps the invariant. */
  lemma PruneStep(store: Store, recent: seq<string>, todo: set<string>, p: Store, u: string)
    requires todo <= store.Keys && u in todo && PrunedSoFar(store, recent, todo, p)
    ensures u in p && p[u] == store[u]
    ensures var dd := PrunedDates(store[u], recent);
      PrunedSoFar(store, recent, todo - {u}, if dd == map[] then p - {u} else p[u := dd])
  {
  }

  /** The outer pruning loop: prune every URL and delete the ones left empty. Afterwards
      every date is recent, no URL is empty, and what survives is unchanged. */
  method Prune(store: Store, recent: seq<string>) returns (p: Store)
    ensures p == Pruned(store, recent)
    ensures forall u, d :: u in p && d in p[u] ==> d in recent && d in store[u] && p[u][d] == store[u][d]
    ensures forall u :: u in p ==> p[u] != map[]
    ensures forall u, d :: u in store && d in store[u] && d in recent ==> u in p && d in p[u]
  {
    p := PruneLoop(store, recent);
    PrunedFacts(store, recent);
  }

  method PruneLoop(store: Store, recent: seq<string>) returns (p: Store)
    ensures p == Pruned(store, recent)
  {
    p := store;
    var todo := store.Keys;
    while todo != {}
      invariant todo <= store.Keys
      invariant PrunedSoFar(store, recent, todo, p)
      decreases |todo|
    {
      var u :| u in todo;
      PruneStep(store, recent, todo, p, u);
      var dd := PruneDates(p[u], recent);
      if dd == map[] {
        p := p - {u};
      } else {
        p := p[u := dd];
      }
      todo := todo - {u};
    }
    PointwisePruned(store, recent, p);
  }

  /** After pruning every date is recent, no URL is empty, what survives is unchanged and
      every recent date survives. */
  lemma PrunedFacts(store: Store, recent: seq<string>)
    ensures var p := Pruned(store, recent);
      forall u, d :: u in p && d in p[u] ==> d in recent && d in store[u] && p[u][d] == store[u][d]
    ensures forall u :: u in Pruned(store, recent) ==> Pruned(store, recent)[u] != map[]
    ensures forall u, d :: u in store && d in store[u] && d in recent ==>
      u in Pruned(store, recent) && d in Pruned(store, recent)[u]
  {
    forall u, d | u in store && d in store[u] && d in recent
      ensures u in Pruned(store, recent) && d in Pruned(store, recent)[u]
    {
      assert d in PrunedDates(store[u], recent);
    }
  }

  lemma PointwisePruned(store: Store, recent: seq<string>, p: Store)
    requires forall u :: u in p <==> u in store && PrunedDates(store[u], recent) != map[]
    requires forall u :: u in p ==> p[u] == PrunedDates(store[u], recent)
    ensures p == Pruned(store, recent)
  {
    var q := Pruned(store, recent);
    assert p.Keys == q.Keys;
    forall u | u in p ensures p[u] == q[u] {
    }
  }

  // ---------------------------------------------------------------- merging one chunk file

  /** The chunk records of one URL, projected to entries. */
  function Projected(tps: map<string, Hashes>): Bucket
  {
    map tp | tp in tps :: Project(tps[tp])
  }

  /** One URL's buckets after merging its chunk records under `date`. */
  function MergedUrl(dd: Dated, date: string, tps: map<string, Hashes>): Dated
  {
    dd[date := GetOr(dd, date, map[]) + Projected(tps)]
  }

  /** The store after merging one chunk file under `date`. */
  function MergedFile(store: Store, date: string, data: ChunkData): Store
  {
    map u | u in store.Keys + data.Keys ::
      if u in data then MergedUrl(GetOr(store, u, map[]), date, data[u]) else store[u]
  }

  /** The innermost loop: write each timepoint's entry, overwriting any entry already
      there; other timepoints are kept. */
  method MergeTimepoints(b: Bucket, tps: map<string, Hashes>) returns (r: Bucket)
    ensures r == b + Projected(tps)
    ensures forall tp :: tp in r <==> tp in b || tp in tps
    ensures forall tp :: tp in tps ==> r[tp] == Project(tps[tp])
    ensures forall tp :: tp in r && tp !in tps ==> r[tp] == b[tp]
  {
    r := b;
    var todo := tps.Keys;
    while todo != {}
      invariant todo <= tps.Keys
      invariant forall tp :: tp in r <==> tp in b || (tp in tps && tp !in todo)
      invariant forall tp :: tp in r ==> r[tp] == if tp in tps && tp !in todo then Project(tps[tp]) else b[tp]
      decreases |todo|
    {
      var tp :| tp in todo;
      r := r[tp := Project(tps[tp])];
      todo := todo - {tp};
    }
    PointwiseUnion(b, tps, r);
  }

  lemma PointwiseUnion(b: Bucket, tps: map<string, Hashes>, r: Bucket)
    requires forall tp :: tp in r <==> tp in b || tp in tps
    requires forall tp :: tp in r ==> r[tp] == if tp in tps then Project(tps[tp]) else b[tp]
    ensures r == b + Projected(tps)
  {
    var m := b + Projected(tps);
    assert r.Keys == m.Keys;
    forall tp | tp in r ensures r[tp] == m[tp] {
    }
  }

  /** The loop over one chunk file's URLs (`setdefault`, then the timepoint loop). Every
      URL of the chunk ends up with a bucket for `date`; the buckets of other dates and
      the URLs outside the chunk are unchanged. */
  method MergeFile(store: Store, date: string, data: ChunkData) returns (r: Store)
    ensures r == MergedFile(store, date, data)
    ensures forall u :: u in data ==> u in r && date in r[u]
    ensures forall u, d :: u in data && d in r[u] && d != date ==> u in store && d in store[u] && r[u][d] == store[u][d]
    ensures forall u :: u !in data ==> (u in r <==> u in store) && (u in r ==> r[u] == store[u])
  {
    r := MergeFileLoop(store, date, data);
    MergedFileEffect(store, date, data);
  }

  /** What MergedFile does to the URLs of the chunk and to the others. */
  lemma MergedFileEffect(store: Store, date: string, data: ChunkData)
    ensures forall u :: u in data ==> u in MergedFile(store, date, data) && date in MergedFile(store, date, data)[u]
    ensures forall u, d :: u in data && d in MergedFile(store, date, data)[u] && d != date ==>
      u in store && d in store[u] && MergedFile(store, date, data)[u][d] == store[u][d]
    ensures forall u :: u !in data ==>
      (u in MergedFile(store, date, data) <==> u in store) &&
      (u in MergedFile(store, date, data) ==> MergedFile(store, date, data)[u] == store[u])
  {
  }

  /** The URL loop's invariant: the URLs of `data` outside `todo` are merged, the rest of
      the store is as it was. */
  ghost predicate MergedSoFar(store: Store, date: string, data: ChunkData, todo: set<string>, r: Store)
  {
    (forall u :: u in r <==> u in store || (u in data && u !in todo)) &&
    forall u :: u in r ==>
      r[u] == if u in data && u !in todo then MergedUrl(GetOr(store, u, map[]), date, data[u]) else store[u]
  }

  /** One turn of the URL loop: the URL taken still holds its stored buckets, and storing
      its merged buckets keeps the invariant. */
  lemma MergeFileStep(store: Store, date: string, data: ChunkData, todo: set<string>, r: Store, u: string)
    requires todo <= data.Keys && u in todo && MergedSoFar(store, date, data, todo, r)
    ensures GetOr(r, u, map[]) == GetOr(store, u, map[])
    ensures MergedSoFar(store, date, data, todo - {u}, r[u := MergedUrl(GetOr(store, u, map[]), date, data[u])])
  {
  }

  method MergeFileLoop(store: Store, date: string, data: ChunkData) returns (r: Store)
    ensures r == MergedFile(store, date, data)
  {
    r := store;
    var todo := data.Keys;
    while todo != {}
      invariant todo <= data.Keys
      invariant MergedSoFar(store, date, data, todo, r)
      decreases |todo|
    {
      var u :| u in todo;
      MergeFileStep(store, date, data, todo, r, u);
      var dd := GetOr(r, u, map[]);
      var b := MergeTimepoints(GetOr(dd, date, map[]), data[u]);
      r := r[u := dd[date := b]];
      todo := todo - {u};
    }
    PointwiseMergedFile(store, date, data, r);
  }

  lemma PointwiseMergedFile(store: Store, date: string, data: ChunkData, r: Store)
    requires forall u :: u in r <==> u in store || u in data
    requires forall u :: u in r ==>
      r[u] == if u in data then MergedUrl(GetOr(store, u, map[]), date, data[u]) else store[u]
    ensures r == MergedFile(store, date, data)
  {
    var m := MergedFile(store, date, data);
    assert r.Keys == m.Keys;
    forall u | u in r ensures r[u] == m[u] {
    }
  }

  /** Writing the same records twice into a bucket is writing them once. */
  lemma UnionIdempotent(b: Bucket, p: Bucket)
    ensures (b + p) + p == b + p
  {
    var once := b + p;
    var twice := once + p;
    assert twice.Keys == once.Keys;
    forall tp | tp in once ensures twice[tp] == once[tp] {
    }
  }

  lemma MergedUrlIdempotent(dd: Dated, date: string, tps: map<string, Hashes>)
    ensures MergedUrl(MergedUrl(dd, date, tps), date, tps) == MergedUrl(dd, date, tps)
  {
    var once := MergedUrl(dd, date, tps);
    UnionIdempotent(GetOr(dd, date, map[]), Projected(tps));
    assert GetOr(once, date, map[]) == GetOr(dd, date, map[]) + Projected(tps);
  }

  /** Merging the same chunk file twice adds nothing to merging it once. */
  lemma MergedFileIdempotent(store: Store, date: string, data: ChunkData)
    ensures MergedFile(MergedFile(store, date, data), date, data) == MergedFile(store, date, data)
  {
    var once := MergedFile(store, date, data);
    var twice := MergedFile(once, date, data);
    assert twice.Keys == once.Keys;
    forall u | u in once ensures twice[u] == once[u] {
      if u in data {
        MergedUrlIdempotent(GetOr(store, u, map[]), date, data[u]);
      }
    }
  }

  // ---------------------------------------------------------------- merging the recent dates

  /** A listing entry that is merged: its name ends in `_cache.json` and it loaded. */
  predicate Merged(f: (string, ChunkFile))
  {
    EndsWith(f.0, "_cache.json") && f.1.Loaded?
  }

  /** The store after merging one date directory's files in listing order. */
  function MergedFiles(store: Store, date: string, files: seq<(string, ChunkFile)>): Store
    decreases |files|
  {
    if |files| == 0 then store
    else MergedFiles(if Merged(files[0]) then MergedFile(store, date, files[0].1.data) else store, date, files[1..])
  }

  /** The store after merging the given date directories in order; a directory that is
      not there is skipped. */
  function MergedDates(store: Store, dates: seq<string>, dir: CacheDir): Store
    decreases |dates|
  {
    if |dates| == 0 then store
    else MergedDates(if dates[0] in dir then MergedFiles(store, dates[0], dir[dates[0]]) else store, dates[1..], dir)
  }

  /** A file that is skipped (wrong name or unreadable) changes nothing, wherever it is. */
  lemma {:induction false} SkippedFileIgnored(store: Store, date: string, a: seq<(string, ChunkFile)>, f: (string, ChunkFile), b: seq<(string, ChunkFile)>)
    requires !Merged(f)
    ensures MergedFiles(store, date, a + [f] + b) == MergedFiles(store, date, a + b)
    decreases |a|
  {
    if |a| == 0 {
      assert ([f] + b)[1..] == b;
      assert a + [f] + b == [f] + b && a + b == b;
    } else {
      var next := if Merged(a[0]) then MergedFile(store, date, a[0].1.data) else store;
      assert (a + [f] + b)[1..] == a[1..] + [f] + b;
      assert (a + b)[1..] == a[1..] + b;
      SkippedFileIgnored(next, date, a[1..], f, b);
    }
  }

  /** Every date of every URL is one of `recent`, and no URL is left without dates. */
  predicate InWindow(store: Store, recent: seq<string>)
  {
    (forall u, d :: u in store && d in store[u] ==> d in recent) &&
    (forall u :: u in store ==> store[u] != map[])
  }

  lemma MergedFileInWindow(store: Store, date: string, data: ChunkData, recent: seq<string>)
    requires InWindow(store, recent) && date in recent
    ensures InWindow(MergedFile(store, date, data), recent)
  {
    var m := MergedFile(store, date, data);
    forall u | u in m ensures m[u] != map[] {
      if u in data {
        assert date in m[u];
      }
    }
  }

  lemma {:induction false} MergedFilesInWindow(store: Store, date: string, files: seq<(string, ChunkFile)>, recent: seq<string>)
    requires InWindow(store, recent) && date in recent
    ensures InWindow(MergedFiles(store, date, files), recent)
    decreases |files|
  {
    if |files| > 0 {
      var next := if Merged(files[0]) then MergedFile(store, date, files[0].1.data) else store;
      if Merged(files[0]) {
        MergedFileInWindow(store, date, files[0].1.data, recent);
      }
      MergedFilesInWindow(next, date, files[1..], recent);
    }
  }

  lemma {:induction false} MergedDatesInWindow(store: Store, dates: seq<string>, dir: CacheDir, recent: seq<string>)
    requires InWindow(store, recent)
    requires forall d :: d in dates ==> d in recent
    ensures InWindow(MergedDates(store, dates, dir), recent)
    decreases |dates|
  {
    if |dates| > 0 {
      var next := if dates[0] in dir then MergedFiles(store, dates[0], dir[dates[0]]) else store;
      if dates[0] in dir {
        MergedFilesInWindow(store, dates[0], dir[dates[0]], recent);
      }
      MergedDatesInWindow(next, dates[1..], dir, recent);
    }
  }

  /** In a store within the window, a URL has at most as many dates as the window has,
      so at most three. */
  lemma WindowBound(store: Store, recent: seq<string>, u: string)
    requires InWindow(store, recent) && u in store
    ensures |store[u]| <= |recent|
  {
    assert store[u].Keys <= set d | d in recent;
    SubsetSize(store[u].Keys, set d | d in recent);
    SeqSetSize(recent);
  }

  /** The store a run writes, before ordering. */
  function Final(recent: seq<string>, dir: CacheDir, total: Store): Store
  {
    MergedDates(Pruned(total, recent), RecentExisting(recent, dir.Keys), dir)
  }

  /** Every URL of the written store has between one and |recent| dates, all recent. */
  lemma FinalInWindow(recent: seq<string>, dir: CacheDir, total: Store)
    ensures InWindow(Final(recent, dir, total), recent)
    ensures forall u :: u in Final(recent, dir, total) ==> |Final(recent, dir, total)[u]| <= |recent|
  {
    var p := Pruned(total, recent);
    MergedDatesInWindow(p, RecentExisting(recent, dir.Keys), dir, recent);
    var f := Final(recent, dir, total);
    forall u | u in f ensures |f[u]| <= |recent| {
      WindowBound(f, recent, u);
    }
  }

  /** The loop over one date directory's listing. */
  method MergeDateDir(store: Store, date: string, files: seq<(string, ChunkFile)>) returns (r: Store)
    ensures r == MergedFiles(store, date, files)
  {
    r := store;
    var i := 0;
    while i < |files|
      invariant 0 <= i <= |files|
      invariant MergedFiles(r, date, files[i..]) == MergedFiles(store, date, files)
    {
      assert files[i..][1..] == files[i + 1..];
      var (name, f) := files[i];
      if EndsWith(name, "_cache.json") && f.Loaded? {
        r := MergeFile(r, date, f.data);
      }
      i := i + 1;
    }
  }

  // ---------------------------------------------------------------- ordered output

  /** The keys of `ks` that `b` holds, in the order of `ks`. */
  function KeysIn(ks: seq<string>, b: Bucket): (r: seq<string>)
    ensures forall k :: k in r <==> k in ks && k in b
  {
    if |ks| == 0 then []
    else KeysIn(ks[..|ks| - 1], b) + (if ks[|ks| - 1] in b then [ks[|ks| - 1]] else [])
  }

  /** The timepoints listed for a bucket follow TIME_KEYS, each once, with its entry. */
  predicate OrderedBucket(t: seq<(string, Entry)>, b: Bucket)
  {
    Firsts(t) == KeysIn(TIME_KEYS, b) &&
    forall k :: 0 <= k < |t| ==> t[k].0 in b && t[k].1 == b[t[k].0]
  }

  /** The dates listed for a URL are its dates, ascending, each with its ordered bucket. */
  ghost predicate OrderedDated(ds: seq<(string, seq<(string, Entry)>)>, dd: Dated)
  {
    StrictlySorted(Firsts(ds)) &&
    (forall d :: d in Firsts(ds) <==> d in dd) &&
    forall k :: 0 <= k < |ds| ==> ds[k].0 in dd && OrderedBucket(ds[k].1, dd[ds[k].0])
  }

  /** The document lists the store's URLs, ascending, each with its ordered dates. */
  ghost predicate OrderedStore(doc: Doc, store: Store)
  {
    StrictlySorted(Firsts(doc)) &&
    (forall u :: u in Firsts(doc) <==> u in store) &&
    forall k :: 0 <= k < |doc| ==> doc[k].0 in store && OrderedDated(doc[k].1, store[doc[k].0])
  }

  /** The TIME_KEYS loop. */
  method OrderTimepoints(b: Bucket) returns (t: seq<(string, Entry)>)
    ensures OrderedBucket(t, b)
  {
    t := PickKeys(TIME_KEYS, b);
  }

  /** The entries of `b` under the keys of `ks` that it holds, in the order of `ks`. */
  method PickKeys(ks: seq<string>, b: Bucket) returns (t: seq<(string, Entry)>)
    ensures Firsts(t) == KeysIn(ks, b)
    ensures forall k :: 0 <= k < |t| ==> t[k].0 in b && t[k].1 == b[t[k].0]
  {
    t := [];
    for i := 0 to |ks|
      invariant Firsts(t) == KeysIn(ks[..i], b)
      invariant forall k :: 0 <= k < |t| ==> t[k].0 in b && t[k].1 == b[t[k].0]
    {
      PickStep(ks, i, b, t);
      if ks[i] in b {
        t := t + [(ks[i], b[ks[i]])];
      }
    }
    assert ks[..|ks|] == ks;
  }

  /** One turn of the key loop: the picked pairs keep following `ks`. */
  lemma PickStep(ks: seq<string>, i: nat, b: Bucket, t: seq<(string, Entry)>)
    requires i < |ks| && Firsts(t) == KeysIn(ks[..i], b)
    ensures ks[i] in b ==> Firsts(t + [(ks[i], b[ks[i]])]) == KeysIn(ks[..i + 1], b)
    ensures ks[i] !in b ==> Firsts(t) == KeysIn(ks[..i + 1], b)
  {
    assert ks[..i + 1][..i] == ks[..i];
    if ks[i] in b {
      FirstsSnoc(t, (ks[i], b[ks[i]]));
    }
  }

  /** The sorted-dates loop for one URL. */
  method OrderDates(dd: Dated) returns (ds: seq<(string, seq<(string, Entry)>)>)
    ensures OrderedDated(ds, dd)
  {
    var keys := SortedList(dd.Keys);
    ds := [];
    var i := 0;
    while i < |keys|
      invariant 0 <= i <= |keys|
      invariant Firsts(ds) == keys[..i]
      invariant forall k :: 0 <= k < |ds| ==> ds[k].0 in dd && OrderedBucket(ds[k].1, dd[ds[k].0])
    {
      var t := OrderTimepoints(dd[keys[i]]);
      ds := ds + [(keys[i], t)];
      i := i + 1;
    }
    assert keys[..i] == keys;
  }

  /** The sorted-URLs loop. */
  method OrderUrls(store: Store) returns (doc: Doc)
    ensures OrderedStore(doc, store)
  {
    var keys := SortedList(store.Keys);
    doc := [];
    var i := 0;
    while i < |keys|
      invariant 0 <= i <= |keys|
      invariant Firsts(doc) == keys[..i]
      invariant forall k :: 0 <= k < |doc| ==> doc[k].0 in store && OrderedDated(doc[k].1, store[doc[k].0])
    {
      var ds := OrderDates(store[keys[i]]);
      doc := doc + [(keys[i], ds)];
      i := i + 1;
    }
    assert keys[..i] == keys;
  }

  /** The ordering leaves no freedom: one store has exactly one ordered document. */
  lemma OrderedBucketUnique(t1: seq<(string, Entry)>, t2: seq<(string, Entry)>, b: Bucket)
    requires OrderedBucket(t1, b) && OrderedBucket(t2, b)
    ensures t1 == t2
  {
    assert |t1| == |Firsts(t1)| == |Firsts(t2)| == |t2|;
    forall k | 0 <= k < |t1| ensures t1[k] == t2[k] {
      assert t1[k].0 == Firsts(t1)[k] == Firsts(t2)[k] == t2[k].0;
    }
  }

  lemma OrderedDatedUnique(d1: seq<(string, seq<(string, Entry)>)>, d2: seq<(string, seq<(string, Entry)>)>, dd: Dated)
    requires OrderedDated(d1, dd) && OrderedDated(d2, dd)
    ensures d1 == d2
  {
    SortedUnique(Firsts(d1), Firsts(d2));
    assert |d1| == |d2|;
    forall k | 0 <= k < |d1| ensures d1[k] == d2[k] {
      assert d1[k].0 == Firsts(d1)[k] == Firsts(d2)[k] == d2[k].0;
      OrderedBucketUnique(d1[k].1, d2[k].1, dd[d1[k].0]);
    }
  }

  lemma OrderedStoreUnique(doc1: Doc, doc2: Doc, store: Store)
    requires OrderedStore(doc1, store) && OrderedStore(doc2, store)
    ensures doc1 == doc2
  {
    SortedUnique(Firsts(doc1), Firsts(doc2));
    assert |doc1| == |doc2|;
    forall k | 0 <= k < |doc1| ensures doc1[k] == doc2[k] {
      assert doc1[k].0 == Firsts(doc1)[k] == Firsts(doc2)[k] == doc2[k].0;
      OrderedDatedUnique(doc1[k].1, doc2[k].1, store[doc1[k].0]);
    }
  }

  // ---------------------------------------------------------------- the run

  function LoadTotal(total: TotalCache): Store
  {
    if total.TotalDoc? then total.store else map[]
  }

  /** `merge_caches` with the clock replaced by `recent` (today, yesterday, the day before,
      as YYYYMMDD) and the file system by `cacheDir` and `total`. */
  method MergeCaches(recent: seq<string>, cacheDir: Option<CacheDir>, total: TotalCache) returns (res: Outcome)
    ensures res.NoCacheDir? <==> cacheDir.None?
    ensures res.NoRecentDates? <==> cacheDir.Some? && RecentExisting(recent, cacheDir.value.Keys) == []
    ensures res.Crashed? <==>
      cacheDir.Some? && RecentExisting(recent, cacheDir.value.Keys) != [] && total.CorruptTotal?
    ensures res.Written? ==>
      var dates := RecentExisting(recent, cacheDir.value.Keys);
      OrderedStore(res.doc, Final(recent, cacheDir.value, LoadTotal(total))) &&
      res.lastMerged == dates[|dates| - 1]
    ensures res.Written? ==> forall k :: 0 <= k < |res.doc| ==>
      1 <= |res.doc[k].1| <= |recent| && forall d :: d in Firsts(res.doc[k].1) ==> d in recent
  {
    if cacheDir.None? {
      return NoCacheDir;
    }
    var dir := cacheDir.value;
    var dates := RecentExisting(recent, dir.Keys);
    if dates == [] {
      return NoRecentDates;
    }
    if total.CorruptTotal? {
      return Crashed;
    }
    var merged := Prune(LoadTotal(total), recent);
    var i := 0;
    while i < |dates|
      invariant 0 <= i <= |dates|
      invariant MergedDates(merged, dates[i..], dir) == Final(recent, dir, LoadTotal(total))
    {
      assert dates[i..][1..] == dates[i + 1..];
      if dates[i] in dir {
        merged := MergeDateDir(merged, dates[i], dir[dates[i]]);
      }
      i := i + 1;
    }
    var doc := OrderUrls(merged);
    FinalInWindow(recent, dir, LoadTotal(total));
    var f := Final(recent, dir, LoadTotal(total));
    forall k | 0 <= k < |doc|
      ensures 1 <= |doc[k].1| <= |recent| && forall d :: d in Firsts(doc[k].1) ==> d in recent
    {
      var dd := f[doc[k].0];
      assert |Firsts(doc[k].1)| == |dd| by {
        SortedWitnessSize(Firsts(doc[k].1), dd.Keys);
      }
    }
    res := Written(doc, dates[|dates| - 1]);
  }

  /** A strictly sorted list of the elements of a set has the set's size. */
  lemma SortedWitnessSize(s: seq<string>, ks: set<string>)
    requires StrictlySorted(s) && forall x :: x in s <==> x in ks
    ensures |s| == |ks|
  {
    var w := SortedWitness(ks);
    SortedUnique(s, w);
  }
}
