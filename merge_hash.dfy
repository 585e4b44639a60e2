/** The hash-history store of scripts/7.1_merge_hash.py. Each chunk maps a URL to its
    hash-scan result; the merge writes that result under the run's time tag and keeps at
    most MAX_HISTORY time tags per URL, dropping the lexicographically smallest ones
    (time tags are YYYYMMDDHHMM, so these are the oldest). */
module MergeHash {
  import opened Common
  import opened Text

  const MAX_HISTORY: nat := 6

  /** One URL's history: time tag to result. */
  type History<V> = map<string, V>

  /** The whole store: URL to history. */
  type Store<V> = map<string, History<V>>

  /** What reading the total file can give: no file, a file that is not valid JSON,
      or a parsed document. */
  datatype TotalFile<V> = Missing | Malformed | Parsed(doc: Store<V>)

  /** What one run does: nothing when the chunk directory holds no `.json` file,
      otherwise it writes the merged store back. */
  datatype RunResult<V> = NothingToMerge | Written(store: Store<V>)

  /** `load_json_safe`: a missing or unparseable file reads as the empty store. */
  function LoadJsonSafe<V>(f: TotalFile<V>): Store<V>
  {
    if f.Parsed? then f.doc else map[]
  }

  /** The tags of `ks` that sort after `k`. */
  function Newer(ks: set<string>, k: string): set<string>
  {
    set j | j in ks && LexLess(k, j)
  }

  /** The tags that survive trimming: those with fewer than MAX_HISTORY greater tags. */
  function Newest(ks: set<string>): set<string>
  {
    set k | k in ks && |Newer(ks, k)| < MAX_HISTORY
  }

  /** A history cut down to its newest tags, values unchanged. */
  function Trimmed<V>(h: History<V>): History<V>
  {
    map k | k in h && k in Newest(h.Keys) :: h[k]
  }

  /** The specification of writing `v` under `tag` into one URL's history. */
  function Insert<V>(h: History<V>, tag: string, v: V): History<V>
  {
    Trimmed(h[tag := v])
  }

  /** The elements of `s` from index `i` on. */
  function From(s: seq<string>, i: nat): set<string>
  {
    set j | i <= j < |s| :: s[j]
  }

  /** A strictly sorted sequence has no repeats, so its suffix from `i` holds
      `|s| - i` distinct elements. */
  lemma {:induction false} FromSize(s: seq<string>, i: nat)
    requires StrictlySorted(s) && i <= |s|
    ensures |From(s, i)| == |s| - i
    decreases |s| - i
  {
    if i == |s| {
      assert From(s, i) == {};
    } else {
      FromSize(s, i + 1);
      assert From(s, i) == {s[i]} + From(s, i + 1);
      if s[i] in From(s, i + 1) {
        var j :| i + 1 <= j < |s| && s[j] == s[i];
        LexIrreflexive(s[i]);
      }
    }
  }

  /** In an ascending enumeration of `ks`, the keys greater than `s[i]` are exactly the
      ones after position `i`. */
  lemma NewerInSorted(s: seq<string>, ks: set<string>, i: nat)
    requires StrictlySorted(s) && (forall x :: x in s <==> x in ks) && i < |s|
    ensures Newer(ks, s[i]) == From(s, i + 1)
    ensures |Newer(ks, s[i])| == |s| - 1 - i
  {
    forall x | x in ks ensures x in Newer(ks, s[i]) <==> x in From(s, i + 1) {
      var m :| 0 <= m < |s| && s[m] == x;
      if m == i {
        LexIrreflexive(x);
      } else if m < i {
        LexAsymmetric(s[m], s[i]);
      }
    }
    FromSize(s, i + 1);
  }

  /** With an ascending enumeration at hand, the newest tags are its last MAX_HISTORY
      elements. */
  lemma NewestInSorted(s: seq<string>, ks: set<string>)
    requires StrictlySorted(s) && (forall x :: x in s <==> x in ks) && |s| == |ks|
    ensures forall i :: 0 <= i < |s| ==> (s[i] in Newest(ks) <==> i + MAX_HISTORY >= |s|)
  {
    forall i | 0 <= i < |s| ensures s[i] in Newest(ks) <==> i + MAX_HISTORY >= |s| {
      NewerInSorted(s, ks, i);
    }
  }

  /** Trimming keeps min(MAX_HISTORY, n) of a history's n tags. */
  lemma TrimmedSize<V>(h: History<V>)
    ensures |Trimmed(h)| == if |h| < MAX_HISTORY then |h| else MAX_HISTORY
  {
    var s := SortedWitness(h.Keys);
    NewestInSorted(s, h.Keys);
    var cut := if |s| < MAX_HISTORY then 0 else |s| - MAX_HISTORY;
    assert Trimmed(h).Keys == From(s, cut) by {
      forall x | x in h.Keys ensures x in Trimmed(h).Keys <==> x in From(s, cut) {
        var m :| 0 <= m < |s| && s[m] == x;
      }
    }
    FromSize(s, cut);
  }

  /** Every tag that trimming keeps is greater than every tag it drops. */
  lemma TrimmedKeepsGreatest<V>(h: History<V>, kept: string, dropped: string)
    requires kept in Trimmed(h) && dropped in h && dropped !in Trimmed(h)
    ensures LexLess(dropped, kept)
  {
    var s := SortedWitness(h.Keys);
    NewestInSorted(s, h.Keys);
    var a :| 0 <= a < |s| && s[a] == kept;
    var b :| 0 <= b < |s| && s[b] == dropped;
  }

  /** After writing, a URL holds at most MAX_HISTORY tags; exactly MAX_HISTORY when the
      old tags together with the new one were that many or more. */
  lemma InsertCap<V>(h: History<V>, tag: string, v: V)
    ensures |Insert(h, tag, v)| <= MAX_HISTORY
    ensures |h.Keys + {tag}| >= MAX_HISTORY ==> |Insert(h, tag, v)| == MAX_HISTORY
  {
    assert h[tag := v].Keys == h.Keys + {tag};
    TrimmedSize(h[tag := v]);
  }

  /** Rewriting a tag that is already present never increases the tag count. */
  lemma InsertExistingTag<V>(h: History<V>, tag: string, v: V)
    requires tag in h
    ensures |Insert(h, tag, v)| <= |h|
  {
    assert h[tag := v].Keys == h.Keys;
    TrimmedSize(h[tag := v]);
  }

  /** Only the written tag takes a new value; every other surviving tag keeps its old one,
      and nothing but `tag` is added. */
  lemma InsertValues<V>(h: History<V>, tag: string, v: V)
    ensures Insert(h, tag, v).Keys <= h.Keys + {tag}
    ensures tag in Insert(h, tag, v) ==> Insert(h, tag, v)[tag] == v
    ensures forall k :: k in Insert(h, tag, v) && k != tag ==> Insert(h, tag, v)[k] == h[k]
  {
  }

  /** The written tag survives iff fewer than MAX_HISTORY existing tags are greater; so a
      manual tag older than MAX_HISTORY existing tags is evicted at once. */
  lemma InsertTagSurvives<V>(h: History<V>, tag: string, v: V)
    ensures tag in Insert(h, tag, v) <==> |Newer(h.Keys, tag)| < MAX_HISTORY
  {
    assert Newer(h[tag := v].Keys, tag) == Newer(h.Keys, tag) by {
      LexIrreflexive(tag);
    }
  }

  /** A URL seen for the first time gets a history holding only the new tag. */
  lemma InsertFresh<V>(tag: string, v: V)
    ensures Insert(map[], tag, v) == map[tag := v]
  {
    var h: History<V> := map[][tag := v];
    assert h.Keys == {tag};
    assert Newer({tag}, tag) == {} by {
      LexIrreflexive(tag);
    }
    assert tag in Newest(h.Keys);
  }

  /** The loop body of `main` for one URL: write the result under the tag, then, when
      there are too many tags, sort them and delete all but the last MAX_HISTORY. */
  method Record<V>(h: History<V>, tag: string, v: V) returns (r: History<V>)
    ensures r == Insert(h, tag, v)
  {
    r := h[tag := v];
    ghost var full := r;
    if |r| > MAX_HISTORY {
      var sortedKeys := SortedList(r.Keys);
      var n := |sortedKeys| - MAX_HISTORY;
      var i := 0;
      while i < n
        invariant 0 <= i <= n
        invariant forall k :: k in r <==> k in full && k !in sortedKeys[..i]
        invariant forall k :: k in r ==> r[k] == full[k]
      {
        assert sortedKeys[..i + 1] == sortedKeys[..i] + [sortedKeys[i]];
        r := r - {sortedKeys[i]};
        i := i + 1;
      }
      DropOldestIsTrimmed(full, sortedKeys, r);
    } else {
      SmallIsTrimmed(full);
    }
  }

  /** Deleting the first |s| - MAX_HISTORY keys of an ascending enumeration is trimming. */
  lemma DropOldestIsTrimmed<V>(full: History<V>, s: seq<string>, r: History<V>)
    requires StrictlySorted(s) && (forall x :: x in s <==> x in full.Keys)
    requires |s| >= MAX_HISTORY
    requires forall k :: k in r <==> k in full && k !in s[..|s| - MAX_HISTORY]
    requires forall k :: k in r ==> r[k] == full[k]
    ensures r == Trimmed(full)
  {
    var n := |s| - MAX_HISTORY;
    forall k | k in full ensures k in r <==> k in Newest(full.Keys) {
      var m :| 0 <= m < |s| && s[m] == k;
      KeptIffLate(s, full.Keys, m);
      PositionInSorted(s, n, m);
    }
    PointwiseTrimmed(full, r);
  }

  /** The element at position `m` of an ascending enumeration survives trimming iff it is
      among the last MAX_HISTORY. */
  lemma KeptIffLate(s: seq<string>, ks: set<string>, m: nat)
    requires StrictlySorted(s) && (forall x :: x in s <==> x in ks) && m < |s|
    ensures s[m] in Newest(ks) <==> m + MAX_HISTORY >= |s|
  {
    NewerInSorted(s, ks, m);
  }

  /** A history that agrees with Trimmed key by key is Trimmed. */
  lemma PointwiseTrimmed<V>(full: History<V>, r: History<V>)
    requires forall k :: k in r <==> k in full && k in Newest(full.Keys)
    requires forall k :: k in r ==> r[k] == full[k]
    ensures r == Trimmed(full)
  {
    var t := Trimmed(full);
    assert r.Keys == t.Keys;
    forall k | k in r ensures r[k] == t[k] {
    }
  }

  /** In a strictly sorted sequence, `s[m]` lies in the prefix of length `n` iff `m < n`. */
  lemma PositionInSorted(s: seq<string>, n: nat, m: nat)
    requires StrictlySorted(s) && n <= |s| && m < |s|
    ensures s[m] in s[..n] <==> m < n
  {
    if s[m] in s[..n] {
      var m' :| 0 <= m' < n && s[m'] == s[m];
      LexIrreflexive(s[m]);
      assert m' == m;
    }
  }

  /** A history of at most MAX_HISTORY tags is already trimmed. */
  lemma SmallIsTrimmed<V>(full: History<V>)
    requires |full| <= MAX_HISTORY
    ensures Trimmed(full) == full
  {
    forall k | k in full ensures k in Newest(full.Keys) {
      assert Newer(full.Keys, k) <= full.Keys - {k} by {
        LexIrreflexive(k);
      }
      SubsetSize(Newer(full.Keys, k), full.Keys - {k});
    }
  }

  /** The store after merging one chunk: every URL of the chunk gets its result written
      under the tag; every other URL is as before. */
  function MergedChunk<V>(store: Store<V>, chunk: map<string, V>, tag: string): Store<V>
  {
    map u | u in store.Keys + chunk.Keys ::
      if u in chunk then Insert(GetOr(store, u, map[]), tag, chunk[u]) else store[u]
  }

  /** A store that agrees with MergedChunk key by key is MergedChunk. */
  lemma PointwiseMergedChunk<V>(store: Store<V>, chunk: map<string, V>, tag: string, r: Store<V>)
    requires forall u :: u in r <==> u in store || u in chunk
    requires forall u :: u in r ==>
        r[u] == if u in chunk then Insert(GetOr(store, u, map[]), tag, chunk[u]) else store[u]
    ensures r == MergedChunk(store, chunk, tag)
  {
    var m := MergedChunk(store, chunk, tag);
    assert r.Keys == m.Keys;
    forall u | u in r ensures r[u] == m[u] {
    }
  }

  /** What MergedChunk does to a URL of the chunk and to any other URL. */
  lemma MergedChunkEffect<V>(store: Store<V>, chunk: map<string, V>, tag: string)
    ensures forall u :: u in chunk ==>
      u in MergedChunk(store, chunk, tag) && |MergedChunk(store, chunk, tag)[u]| <= MAX_HISTORY
    ensures forall u :: u !in chunk ==>
      (u in MergedChunk(store, chunk, tag) <==> u in store) &&
      (u in store ==> MergedChunk(store, chunk, tag)[u] == store[u])
  {
    forall u | u in chunk ensures |MergedChunk(store, chunk, tag)[u]| <= MAX_HISTORY {
      InsertCap(GetOr(store, u, map[]), tag, chunk[u]);
    }
  }

  /** The inner loop of `main`: every URL of one chunk, in any order (a chunk's URLs are
      distinct, so the order does not change the result). */
  method MergeChunk<V>(store: Store<V>, chunk: map<string, V>, tag: string) returns (r: Store<V>)
    ensures r == MergedChunk(store, chunk, tag)
    ensures forall u :: u in chunk ==> u in r && |r[u]| <= MAX_HISTORY
    ensures forall u :: u !in chunk ==> (u in r <==> u in store) && (u in store ==> r[u] == store[u])
  {
    r := store;
    var todo := chunk.Keys;
    while todo != {}
      invariant todo <= chunk.Keys
      invariant forall u :: u in r <==> u in store || u in chunk.Keys - todo
      invariant forall u :: u in r ==>
        r[u] == if u in chunk.Keys - todo then Insert(GetOr(store, u, map[]), tag, chunk[u]) else store[u]
      decreases |todo|
    {
      var u :| u in todo;
      var h' := Record(GetOr(r, u, map[]), tag, chunk[u]);
      r := r[u := h'];
      todo := todo - {u};
    }
    assert chunk.Keys - todo == chunk.Keys;
    PointwiseMergedChunk(store, chunk, tag, r);
    MergedChunkEffect(store, chunk, tag);
  }

  /** The chunks merged one after the other. */
  function MergedAll<V>(store: Store<V>, chunks: seq<map<string, V>>, tag: string): Store<V>
    decreases |chunks|
  {
    if |chunks| == 0 then store
    else MergedAll(MergedChunk(store, chunks[0], tag), chunks[1..], tag)
  }

  /** A URL that appears in no chunk keeps its history exactly, even one that already
      exceeds MAX_HISTORY tags. */
  lemma {:induction false} MergedAllUntouched<V>(store: Store<V>, chunks: seq<map<string, V>>, tag: string, u: string)
    requires forall i :: 0 <= i < |chunks| ==> u !in chunks[i]
    ensures u in MergedAll(store, chunks, tag) <==> u in store
    ensures u in store ==> MergedAll(store, chunks, tag)[u] == store[u]
    decreases |chunks|
  {
    if |chunks| > 0 {
      MergedAllUntouched(MergedChunk(store, chunks[0], tag), chunks[1..], tag, u);
    }
  }

  /** A URL that appears in some chunk ends up present with at most MAX_HISTORY tags. */
  lemma {:induction false} MergedAllCapped<V>(store: Store<V>, chunks: seq<map<string, V>>, tag: string, u: string)
    requires exists i :: 0 <= i < |chunks| && u in chunks[i]
    ensures u in MergedAll(store, chunks, tag)
    ensures |MergedAll(store, chunks, tag)[u]| <= MAX_HISTORY
    decreases |chunks|
  {
    var next := MergedChunk(store, chunks[0], tag);
    if u in chunks[0] {
      InsertCap(GetOr(store, u, map[]), tag, chunks[0][u]);
      if forall i :: 1 <= i < |chunks| ==> u !in chunks[i] {
        MergedAllUntouched(next, chunks[1..], tag, u);
      } else {
        var i :| 1 <= i < |chunks| && u in chunks[i];
        assert u in chunks[1..][i - 1];
        MergedAllCapped(next, chunks[1..], tag, u);
      }
    } else {
      var i :| 0 <= i < |chunks| && u in chunks[i];
      assert u in chunks[1..][i - 1];
      MergedAllCapped(next, chunks[1..], tag, u);
    }
  }

  /** The chunks of the directory listing: the contents of the entries whose name ends
      in `.json`, in listing order. */
  function JsonChunks<V>(dir: seq<(string, map<string, V>)>): seq<map<string, V>>
  {
    if |dir| == 0 then []
    else (if EndsWith(dir[0].0, ".json") then [dir[0].1] else []) + JsonChunks(dir[1..])
  }

  /** `main`: read the total file, and unless the chunk directory holds no `.json` file,
      merge every chunk into it under `tag` and write it back. */
  method Run<V>(total: TotalFile<V>, dir: seq<(string, map<string, V>)>, tag: string)
    returns (res: RunResult<V>)
    ensures res.NothingToMerge? <==> forall i :: 0 <= i < |dir| ==> !EndsWith(dir[i].0, ".json")
    ensures res.Written? ==> res.store == MergedAll(LoadJsonSafe(total), JsonChunks(dir), tag)
  {
    var store := LoadJsonSafe(total);
    var files: seq<map<string, V>> := [];
    var i := 0;
    while i < |dir|
      invariant 0 <= i <= |dir|
      invariant files == JsonChunks(dir[..i])
      invariant (|files| == 0) <==> forall k :: 0 <= k < i ==> !EndsWith(dir[k].0, ".json")
    {
      JsonChunksAppend(dir[..i], dir[i]);
      assert dir[..i + 1] == dir[..i] + [dir[i]];
      if EndsWith(dir[i].0, ".json") {
        files := files + [dir[i].1];
      }
      i := i + 1;
    }
    assert dir[..i] == dir;
    if |files| == 0 {
      return NothingToMerge;
    }
    var k := 0;
    while k < |files|
      invariant 0 <= k <= |files|
      invariant MergedAll(store, files[k..], tag) == MergedAll(LoadJsonSafe(total), files, tag)
    {
      assert files[k..][1..] == files[k + 1..];
      store := MergeChunk(store, files[k], tag);
      k := k + 1;
    }
    res := Written(store);
  }

  lemma {:induction false} JsonChunksAppend<V>(dir: seq<(string, map<string, V>)>, e: (string, map<string, V>))
    ensures JsonChunks(dir + [e]) == JsonChunks(dir) + (if EndsWith(e.0, ".json") then [e.1] else [])
    decreases |dir|
  {
    if |dir| > 0 {
      assert (dir + [e])[1..] == dir[1..] + [e];
      JsonChunksAppend(dir[1..], e);
    } else {
      assert JsonChunks([e]) == (if EndsWith(e.0, ".json") then [e.1] else []) + JsonChunks([]);
    }
  }
}
