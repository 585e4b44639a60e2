/** Values shared by every stage of the pipeline: optional values and the cells of the
    row dictionaries that the CSV stages pass from one script to the next. */
module Common {

  datatype Option<T> = None | Some(value: T)

  /** Python's `d.get(k, default)`. */
  function GetOr<K, V>(m: map<K, V>, k: K, default: V): V
  {
    if k in m then m[k] else default
  }

  /** One value of a row dictionary. The CSV reader produces strings, and `None` for the
      missing fields of a short row; the stages add integers (status codes, round-trip
      times), reals, booleans and `None`. */
  datatype Cell = Null | Str(s: string) | Int(i: int) | Real(r: real) | Bool(b: bool)

  /** Python truthiness of a cell: `None`, `""`, `0`, `0.0` and `False` are false. */
  predicate Truthy(c: Cell)
  {
    match c
    case Null => false
    case Str(s) => s != ""
    case Int(i) => i != 0
    case Real(r) => r != 0.0
    case Bool(b) => b
  }

  /** A subset is no larger than its superset. */
  lemma {:induction false} SubsetSize<T>(a: set<T>, b: set<T>)
    requires a <= b
    ensures |a| <= |b|
    decreases |b|
  {
    if a != {} {
      var x :| x in a;
      SubsetSize(a - {x}, b - {x});
    }
  }

  /** The distinct elements of a sequence are no more than its length. */
  lemma {:induction false} SeqSetSize<T>(s: seq<T>)
    ensures |set x | x in s| <= |s|
  {
    if |s| > 0 {
      SeqSetSize(s[1..]);
      assert (set x | x in s) <= (set x | x in s[1..]) + {s[0]};
      SubsetSize(set x | x in s, (set x | x in s[1..]) + {s[0]});
    }
  }

  /** The keys of a list of key/value pairs (a JSON object written in a chosen order). */
  function Firsts<A, B>(ps: seq<(A, B)>): (ks: seq<A>)
    ensures |ks| == |ps|
    ensures forall i :: 0 <= i < |ps| ==> ks[i] == ps[i].0
  {
    seq(|ps|, i requires 0 <= i < |ps| => ps[i].0)
  }

  lemma FirstsSnoc<A, B>(ps: seq<(A, B)>, p: (A, B))
    ensures Firsts(ps + [p]) == Firsts(ps) + [p.0]
  {
    assert |Firsts(ps + [p])| == |Firsts(ps) + [p.0]|;
    forall i | 0 <= i < |ps| + 1 ensures Firsts(ps + [p])[i] == (Firsts(ps) + [p.0])[i] {
    }
  }

  /** The elements of `s` that satisfy `p`, in order (a list comprehension with a
      condition, or an append loop guarded by `if`). */
  function Filter<T(!new)>(s: seq<T>, p: T -> bool): (r: seq<T>)
    ensures |r| <= |s|
    ensures forall x :: x in r <==> x in s && p(x)
  {
    if |s| == 0 then []
    else
      var init := s[..|s| - 1];
      assert s == init + [s[|s| - 1]];
      Filter(init, p) + (if p(s[|s| - 1]) then [s[|s| - 1]] else [])
  }

  /** One more element of the input adds it to the output when it passes. */
  lemma FilterStep<T(!new)>(s: seq<T>, i: nat, p: T -> bool)
    requires i < |s|
    ensures Filter(s[..i + 1], p) == Filter(s[..i], p) + (if p(s[i]) then [s[i]] else [])
  {
    assert s[..i + 1][..i] == s[..i];
  }

  /** A filter keeps every copy of a passing element and no copy of a failing one. */
  lemma {:induction false} FilterCount<T(!new)>(s: seq<T>, p: T -> bool)
    ensures forall x :: multiset(Filter(s, p))[x] == if p(x) then multiset(s)[x] else 0
  {
    if |s| > 0 {
      var init := s[..|s| - 1];
      assert s == init + [s[|s| - 1]];
      FilterCount(init, p);
    }
  }

  /** The image of each element of `s` under `f`, in order. */
  function MapAll<T, C>(s: seq<T>, f: T -> C): (r: seq<C>)
    ensures |r| == |s| && forall k :: 0 <= k < |s| ==> r[k] == f(s[k])
  {
    seq(|s|, k requires 0 <= k < |s| => f(s[k]))
  }

  /** Mapping the filter of one element more appends the image of that element when it
      passes. */
  lemma FilterMapSnoc<T(!new), C>(init: seq<T>, x: T, p: T -> bool, f: T -> C)
    ensures MapAll(Filter(init + [x], p), f) == MapAll(Filter(init, p), f) + (if p(x) then [f(x)] else [])
  {
    var s := init + [x];
    assert s[..|s| - 1] == init;
    assert Filter(s, p) == Filter(init, p) + (if p(x) then [x] else []);
  }

  /** One turn of an append loop guarded by `p`: the list built so far grows into the
      filter of one element more. */
  lemma FilterNext<T(!new)>(s: seq<T>, i: nat, p: T -> bool, r: seq<T>)
    requires i < |s| && r == Filter(s[..i], p)
    ensures (if p(s[i]) then r + [s[i]] else r) == Filter(s[..i + 1], p)
  {
    FilterStep(s, i, p);
  }

  /** The loop that appends each element that passes a test. */
  method FilterBy<T(!new)>(s: seq<T>, p: T -> bool) returns (r: seq<T>)
    ensures r == Filter(s, p)
  {
    r := [];
    assert s[..0] == [];
    for i := 0 to |s|
      invariant r == Filter(s[..i], p)
    {
      FilterNext(s, i, p, r);
      if p(s[i]) {
        r := r + [s[i]];
      }
    }
    assert s[..|s|] == s;
  }

  /** The loop that appends each element to one of two lists by a test. */
  method SplitBy<T(!new)>(s: seq<T>, p: T -> bool, q: T -> bool) returns (yes: seq<T>, no: seq<T>)
    requires forall x :: q(x) == !p(x)
    ensures yes == Filter(s, p) && no == Filter(s, q)
  {
    yes, no := [], [];
    assert s[..0] == [];
    for i := 0 to |s|
      invariant yes == Filter(s[..i], p) && no == Filter(s[..i], q)
    {
      FilterNext(s, i, p, yes);
      FilterNext(s, i, q, no);
      if p(s[i]) {
        yes := yes + [s[i]];
      } else {
        no := no + [s[i]];
      }
    }
    assert s[..|s|] == s;
  }

  /** Splitting by a test and by its negation loses and duplicates nothing. */
  lemma FilterPartition<T(!new)>(s: seq<T>, p: T -> bool, q: T -> bool)
    requires forall x :: q(x) == !p(x)
    ensures multiset(Filter(s, p)) + multiset(Filter(s, q)) == multiset(s)
  {
    FilterCount(s, p);
    FilterCount(s, q);
  }

  /** Splitting by a test and by its negation gives two lists as long as the input. */
  lemma {:induction false} FilterSizes<T(!new)>(s: seq<T>, p: T -> bool, q: T -> bool)
    requires forall x :: q(x) == !p(x)
    ensures |Filter(s, p)| + |Filter(s, q)| == |s|
  {
    if |s| > 0 {
      FilterSizes(s[..|s| - 1], p, q);
    }
  }

  /** What a filter keeps does not depend on the order of its input. */
  lemma FilterPermutation<T(!new)>(a: seq<T>, b: seq<T>, p: T -> bool)
    requires multiset(a) == multiset(b)
    ensures multiset(Filter(a, p)) == multiset(Filter(b, p))
  {
    FilterCount(a, p);
    FilterCount(b, p);
  }

  /** The position of the last occurrence of `x`. */
  function LastIndex<T(==)>(s: seq<T>, x: T): (k: nat)
    requires x in s
    ensures k < |s| && s[k] == x && forall j :: k < j < |s| ==> s[j] != x
  {
    if s[|s| - 1] == x then |s| - 1
    else
      assert x in s[..|s| - 1] by {
        var j :| 0 <= j < |s| && s[j] == x;
        assert s[..|s| - 1][j] == x;
      }
      LastIndex(s[..|s| - 1], x)
  }

  /** Moving the head of what is left onto what is done keeps the whole unchanged. */
  lemma MoveHead<T>(done: seq<T>, x: T, rest: seq<T>, all: seq<T>)
    requires all == [x] + rest
    ensures done + [x] + rest == done + all
  {
  }

  /** Appending an element makes it the last occurrence of itself and moves no other. */
  lemma LastIndexStep<T>(s: seq<T>, i: nat, x: T)
    requires i < |s| && x in s[..i + 1]
    ensures LastIndex(s[..i + 1], x) == if s[i] == x then i else LastIndex(s[..i], x)
  {
    assert s[..i + 1][..i] == s[..i];
  }

  /** A dictionary filled by `d[keys[i]] = vals[i]` in order: a repeated key keeps the
      value stored last. */
  method Collect<K(==), V>(keys: seq<K>, vals: seq<V>) returns (d: map<K, V>)
    requires |keys| == |vals|
    ensures forall k :: k in d <==> k in keys
    ensures forall k :: k in d ==> d[k] == vals[LastIndex(keys, k)]
  {
    d := map[];
    var i := 0;
    while i < |keys|
      invariant i <= |keys|
      invariant forall k :: k in d <==> k in keys[..i]
      invariant forall k :: k in d ==> d[k] == vals[LastIndex(keys[..i], k)]
    {
      forall k | k in keys[..i + 1]
        ensures LastIndex(keys[..i + 1], k) == if keys[i] == k then i else LastIndex(keys[..i], k)
      {
        LastIndexStep(keys, i, k);
      }
      assert forall k :: k in keys[..i + 1] <==> k in keys[..i] || k == keys[i];
      d := d[keys[i] := vals[i]];
      i := i + 1;
    }
    assert keys[..i] == keys;
  }

  /** A row dictionary keyed by column name. */
  type Row = map<string, Cell>
}
