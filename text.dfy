/** Python string operations used by the scripts (`strip`, `startswith`, `in`, `split`,
    `lower`), and the order in which Python compares strings together with a method that
    lists a set of strings in that order (`sorted`). */
module Text {
  import opened Common

  /** `str.isspace`, the test `str.strip()` uses: the ASCII controls 9-13 (tab, newline,
      vertical tab, form feed, carriage return) and 28-31 (the file, group, record and unit
      separators), space, and the Unicode space and line-break characters U+0085, U+00A0,
      U+1680, U+2000-U+200A, U+2028, U+2029, U+202F, U+205F and U+3000. */
  predicate IsSpace(c: char)
  {
    var n := c as int;
    9 <= n <= 13 || 28 <= n <= 32 || n == 0x85 || n == 0xA0 || n == 0x1680 ||
    0x2000 <= n <= 0x200A || n == 0x2028 || n == 0x2029 || n == 0x202F || n == 0x205F || n == 0x3000
  }

  predicate IsDigit(c: char)
  {
    '0' <= c <= '9'
  }

  /** `str.isdigit`: non-empty and every character a digit. */
  predicate AllDigits(s: string)
  {
    |s| > 0 && forall i :: 0 <= i < |s| ==> IsDigit(s[i])
  }

  /** `str.lstrip()`: the suffix left once the leading whitespace is gone. */
  function TrimLeft(s: string): (r: string)
    ensures |r| <= |s| && r == s[|s| - |r|..]
    ensures r == [] || !IsSpace(r[0])
    ensures forall i :: 0 <= i < |s| - |r| ==> IsSpace(s[i])
  {
    if |s| > 0 && IsSpace(s[0]) then TrimLeft(s[1..]) else s
  }

  /** `str.rstrip()`: the prefix left once the trailing whitespace is gone. */
  function TrimRight(s: string): (r: string)
    ensures |r| <= |s| && r == s[..|r|]
    ensures r == [] || !IsSpace(r[|r| - 1])
    ensures forall i :: |r| <= i < |s| ==> IsSpace(s[i])
  {
    if |s| > 0 && IsSpace(s[|s| - 1]) then TrimRight(s[..|s| - 1]) else s
  }

  /** `str.strip()`. */
  function Strip(s: string): (r: string)
    ensures |r| <= |s|
    ensures r == [] || (!IsSpace(r[0]) && !IsSpace(r[|r| - 1]))
  {
    TrimRight(TrimLeft(s))
  }

  /** A string that neither starts nor ends with whitespace. */
  predicate IsStripped(s: string)
  {
    s == [] || (!IsSpace(s[0]) && !IsSpace(s[|s| - 1]))
  }

  /** Stripping a string that has no surrounding whitespace leaves it as it is; in
      particular stripping twice is stripping once. */
  lemma StripStripped(s: string)
    requires IsStripped(s)
    ensures Strip(s) == s
  {
  }

  /** The first `n` strings of `parts`, each stripped. */
  function StripFirst(parts: seq<string>, n: nat): (r: seq<string>)
    requires n <= |parts|
    ensures |r| == n && forall k :: 0 <= k < n ==> r[k] == Strip(parts[k]) && IsStripped(r[k])
  {
    seq(n, k requires 0 <= k < n => Strip(parts[k]))
  }

  /** Stripping strings that are already stripped leaves them as they are. */
  lemma StripFirstStripped(parts: seq<string>, n: nat)
    requires n <= |parts| && forall k :: 0 <= k < n ==> IsStripped(parts[k])
    ensures StripFirst(parts, n) == parts[..n]
  {
    forall k | 0 <= k < n ensures StripFirst(parts, n)[k] == parts[k] {
      StripStripped(parts[k]);
    }
  }

  /** Stripping is the identity on its own results. */
  lemma StripIdempotent(s: string)
    ensures Strip(Strip(s)) == Strip(s)
  {
    StripStripped(Strip(s));
  }

  /** A string whose first character is not whitespace strips to something non-empty
      that starts with that character. */
  lemma StripKeepsFirst(s: string)
    requires |s| > 0 && !IsSpace(s[0])
    ensures |Strip(s)| > 0 && Strip(s)[0] == s[0]
  {
    assert TrimLeft(s) == s;
  }

  predicate StartsWith(s: string, prefix: string)
  {
    |prefix| <= |s| && s[..|prefix|] == prefix
  }

  predicate EndsWith(s: string, suffix: string)
  {
    |suffix| <= |s| && s[|s| - |suffix|..] == suffix
  }

  /** `needle` occurs in `s` starting at index `i`. */
  predicate OccursAt<T(==)>(s: seq<T>, needle: seq<T>, i: int)
  {
    0 <= i && i + |needle| <= |s| && s[i..i + |needle|] == needle
  }

  /** Substring test, Python's `needle in s`. */
  predicate Contains(s: string, needle: string)
  {
    exists i :: 0 <= i <= |s| && OccursAt(s, needle, i)
  }

  /** `str.lower()` on ASCII letters. */
  function Lower(s: string): (r: string)
    ensures |r| == |s|
    ensures forall i :: 0 <= i < |s| ==>
      r[i] == (if 'A' <= s[i] <= 'Z' then (s[i] as int + 32) as char else s[i])
  {
    seq(|s|, i requires 0 <= i < |s| => if 'A' <= s[i] <= 'Z' then (s[i] as int + 32) as char else s[i])
  }

  /** Index of the first occurrence of `c`, as `str.find` with a one-character needle. */
  function IndexOf(s: string, c: char): (r: Option<nat>)
    ensures r.None? ==> c !in s
    ensures r.Some? ==> r.value < |s| && s[r.value] == c && c !in s[..r.value]
  {
    if |s| == 0 then None
    else if s[0] == c then Some(0)
    else match IndexOf(s[1..], c)
      case None => None
      case Some(k) => Some(k + 1)
  }

  /** The first occurrence of `needle` at or after `i`, or -1, as `str.find(needle, i)`;
      `FindFromFirst` states that it is the first. */
  function FindFrom<T(==)>(s: seq<T>, needle: seq<T>, i: nat): (r: int)
    ensures r == -1 || (i <= r && r + |needle| <= |s|)
    decreases |s| + 1 - i
  {
    if i + |needle| > |s| then -1
    else if s[i..i + |needle|] == needle then i
    else FindFrom(s, needle, i + 1)
  }

  /** `find` reports an occurrence with none before it, and -1 when there is none. */
  lemma {:induction false} FindFromFirst<T>(s: seq<T>, needle: seq<T>, i: nat)
    ensures FindFrom(s, needle, i) >= 0 ==>
      OccursAt(s, needle, FindFrom(s, needle, i)) &&
      forall j :: i <= j < FindFrom(s, needle, i) ==> !OccursAt(s, needle, j)
    ensures FindFrom(s, needle, i) == -1 ==> forall j :: i <= j ==> !OccursAt(s, needle, j)
    decreases |s| + 1 - i
  {
    if i + |needle| <= |s| && s[i..i + |needle|] != needle {
      FindFromFirst(s, needle, i + 1);
    }
  }

  /** An occurrence with none before it is the one `find` reports. */
  lemma FindFirst<T>(s: seq<T>, needle: seq<T>, i: nat)
    requires OccursAt(s, needle, i)
    requires forall j :: 0 <= j < i ==> !OccursAt(s, needle, j)
    ensures FindFrom(s, needle, 0) == i
  {
    FindFromFirst(s, needle, 0);
  }

  /** An occurrence of `a + b` is an occurrence of `a` followed by `b` and the rest. */
  lemma OccursAtConcat<T>(s: seq<T>, a: seq<T>, b: seq<T>, i: nat)
    requires OccursAt(s, a + b, i)
    ensures OccursAt(s, a, i)
    ensures s[i + |a|..] == b + s[i + |a| + |b|..]
  {
    assert s[i..i + |a|] == s[i..i + |a| + |b|][..|a|];
    assert s[i + |a|..i + |a| + |b|] == s[i..i + |a| + |b|][|a|..];
    assert s[i + |a|..] == s[i + |a|..i + |a| + |b|] + s[i + |a| + |b|..];
  }

  /** Index of the last occurrence of `c`, as `str.rfind` with a one-character needle. */
  function LastIndexOf(s: string, c: char): (r: Option<nat>)
    ensures r.None? ==> c !in s
    ensures r.Some? ==> r.value < |s| && s[r.value] == c && c !in s[r.value + 1..]
  {
    if |s| == 0 then None
    else if s[|s| - 1] == c then Some(|s| - 1)
    else
      var r := LastIndexOf(s[..|s| - 1], c);
      assert forall k :: 0 <= k < |s| - 1 ==> s[..|s| - 1][k] == s[k];
      if r.Some? then
        assert s[r.value + 1..] == s[..|s| - 1][r.value + 1..] + [s[|s| - 1]];
        r
      else r
  }

  /** In `a + [c] + b` with `c` not in `b`, the last `c` is the one after `a`. */
  lemma {:induction false} LastIndexOfBefore(a: string, c: char, b: string)
    requires c !in b
    ensures LastIndexOf(a + [c] + b, c) == Some(|a|)
    decreases |b|
  {
    var s := a + [c] + b;
    if |b| > 0 {
      var b' := b[..|b| - 1];
      assert s[..|s| - 1] == a + [c] + b';
      assert s[|s| - 1] == b[|b| - 1];
      LastIndexOfBefore(a, c, b');
    } else {
      assert s[|s| - 1] == c;
    }
  }

  /** A name that does not start with a dot, followed by an extension, splits into the
      two. */
  lemma SplitExtPlain(base: string, ext: string)
    requires |base| > 0 && base[0] != '.' && '/' !in base
    requires |ext| > 0 && ext[0] == '.' && '.' !in ext[1..] && '/' !in ext
    ensures SplitExt(base + ext) == (base, ext)
  {
    var p := base + ext;
    assert p == base + ['.'] + ext[1..];
    LastIndexOfBefore(base, '.', ext[1..]);
    assert '/' !in p by {
      forall k | 0 <= k < |p| ensures p[k] != '/' {
        if k < |base| {
          assert p[k] == base[k];
        } else {
          assert p[k] == ext[k - |base|];
        }
      }
    }
    assert p[0] != '.';
    assert p[..|base|] == base && p[|base|..] == ext;
  }

  /** `os.path.splitext` on a POSIX path: the extension is the text from the last '.'
      after the last '/', provided some character other than '.' precedes that dot
      within the last component; otherwise it is empty. */
  function SplitExt(p: string): (r: (string, string))
    ensures r.0 + r.1 == p
    ensures r.1 == [] || (r.1[0] == '.' && '.' !in r.1[1..] && '/' !in r.1)
  {
    match LastIndexOf(p, '.')
    case None => (p, "")
    case Some(dot) =>
      var sep := LastIndexOf(p, '/');
      var start := if sep.Some? then sep.value + 1 else 0;
      if sep.Some? && dot < sep.value then (p, "")
      else if exists k :: start <= k < dot && p[k] != '.' then
        assert p[dot..][1..] == p[dot + 1..];
        assert p[..dot] + p[dot..] == p;
        (p[..dot], p[dot..])
      else (p, "")
  }

  /** `s.split(sep)` with a one-character separator: every piece between separators,
      including empty ones. */
  function Split(s: string, sep: char): (parts: seq<string>)
    ensures |parts| >= 1
    ensures forall k :: 0 <= k < |parts| ==> sep !in parts[k]
    decreases |s|
  {
    match IndexOf(s, sep)
    case None => [s]
    case Some(i) => [s[..i]] + Split(s[i + 1..], sep)
  }

  /** `sep.join(parts)`. */
  function Join(parts: seq<string>, sep: char): string
  {
    if |parts| == 0 then ""
    else if |parts| == 1 then parts[0]
    else parts[0] + [sep] + Join(parts[1..], sep)
  }

  /** Splitting and re-joining on the same separator gives the string back. */
  lemma {:induction false} JoinSplit(s: string, sep: char)
    ensures Join(Split(s, sep), sep) == s
    decreases |s|
  {
    match IndexOf(s, sep)
    case None =>
      assert Split(s, sep) == [s];
    case Some(i) =>
      var rest := s[i + 1..];
      var parts := Split(rest, sep);
      JoinSplit(rest, sep);
      assert Split(s, sep) == [s[..i]] + parts;
      assert ([s[..i]] + parts)[1..] == parts;
      assert Join([s[..i]] + parts, sep) == s[..i] + [sep] + Join(parts, sep);
      assert s == s[..i] + [sep] + rest;
  }

  /** Joining pieces free of the separator and splitting again gives the pieces back. */
  lemma {:induction false} SplitJoin(parts: seq<string>, sep: char)
    requires |parts| >= 1
    requires forall k :: 0 <= k < |parts| ==> sep !in parts[k]
    ensures Split(Join(parts, sep), sep) == parts
  {
    if |parts| == 1 {
      assert IndexOf(parts[0], sep).None?;
    } else {
      var s := Join(parts, sep);
      var rest := Join(parts[1..], sep);
      assert s == parts[0] + [sep] + rest;
      IndexOfAfter(parts[0], sep, rest);
      assert s[..|parts[0]|] == parts[0];
      assert s[|parts[0]| + 1..] == rest;
      SplitJoin(parts[1..], sep);
      assert Split(s, sep) == [parts[0]] + parts[1..];
    }
  }

  /** In `a + [c] + b` with `c` not in `a`, the first `c` is the one after `a`. */
  lemma {:induction false} IndexOfAfter(a: string, c: char, b: string)
    requires c !in a
    ensures IndexOf(a + [c] + b, c) == Some(|a|)
  {
    if |a| > 0 {
      assert (a + [c] + b)[1..] == a[1..] + [c] + b;
      IndexOfAfter(a[1..], c, b);
    }
  }

  /** The decimal digits of a natural number, most significant first, no leading zero. */
  function DigitsOf(n: nat): (s: string)
    ensures AllDigits(s)
    ensures |s| > 1 ==> s[0] != '0'
    decreases n
  {
    if n < 10 then [('0' as int + n) as char]
    else DigitsOf(n / 10) + [('0' as int + n % 10) as char]
  }

  /** The number a string of decimal digits denotes. */
  function DigitsValue(s: string): nat
    requires forall i :: 0 <= i < |s| ==> IsDigit(s[i])
  {
    if |s| == 0 then 0
    else
      assert IsDigit(s[|s| - 1]);
      DigitsValue(s[..|s| - 1]) * 10 + (s[|s| - 1] as int - '0' as int)
  }

  /** Reading back the digits of `n` gives `n`. */
  lemma {:induction false} DigitsRoundTrip(n: nat)
    ensures DigitsValue(DigitsOf(n)) == n
    decreases n
  {
    if n >= 10 {
      var s := DigitsOf(n);
      DigitsRoundTrip(n / 10);
      assert s[..|s| - 1] == DigitsOf(n / 10);
    }
  }

  /** `str(i)` for an integer. */
  function Decimal(i: int): (s: string)
    ensures |s| > 0
    ensures i >= 0 ==> AllDigits(s) && DigitsValue(s) == i
    ensures i < 0 ==> s[0] == '-' && AllDigits(s[1..]) && DigitsValue(s[1..]) == -i
  {
    if i < 0 then
      DigitsRoundTrip(-i);
      assert ("-" + DigitsOf(-i))[1..] == DigitsOf(-i);
      "-" + DigitsOf(-i)
    else
      DigitsRoundTrip(i);
      DigitsOf(i)
  }

  /** Python's `a < b` on strings: code points compared left to right, and a proper
      prefix is smaller. */
  predicate LexLess(a: string, b: string)
  {
    if |a| == 0 then |b| > 0
    else if |b| == 0 then false
    else if a[0] != b[0] then a[0] < b[0]
    else LexLess(a[1..], b[1..])
  }

  lemma {:induction false} LexIrreflexive(a: string)
    ensures !LexLess(a, a)
  {
    if |a| > 0 {
      LexIrreflexive(a[1..]);
    }
  }

  lemma {:induction false} LexAsymmetric(a: string, b: string)
    ensures LexLess(a, b) ==> !LexLess(b, a)
  {
    if |a| > 0 && |b| > 0 && a[0] == b[0] {
      LexAsymmetric(a[1..], b[1..]);
    }
  }

  lemma {:induction false} LexTransitive(a: string, b: string, c: string)
    requires LexLess(a, b) && LexLess(b, c)
    ensures LexLess(a, c)
  {
    if |a| > 0 && a[0] == b[0] && b[0] == c[0] {
      LexTransitive(a[1..], b[1..], c[1..]);
    }
  }

  /** Any two different strings are ordered one way or the other. */
  lemma {:induction false} LexTotal(a: string, b: string)
    ensures a == b || LexLess(a, b) || LexLess(b, a)
  {
    if |a| > 0 && |b| > 0 && a[0] == b[0] {
      LexTotal(a[1..], b[1..]);
      if a[1..] == b[1..] {
        assert a == [a[0]] + a[1..] && b == [b[0]] + b[1..];
      }
    }
  }

  /** Every element strictly smaller than every later one. */
  predicate StrictlySorted(s: seq<string>)
  {
    forall i, j :: 0 <= i < j < |s| ==> LexLess(s[i], s[j])
  }

  /** The least element of a non-empty set exists. */
  lemma {:induction false} LeastExists(xs: set<string>) returns (m: string)
    requires xs != {}
    ensures m in xs && forall y :: y in xs && y != m ==> LexLess(m, y)
    decreases |xs|
  {
    var x :| x in xs;
    if xs == {x} {
      m := x;
    } else {
      var m' := LeastExists(xs - {x});
      LexTotal(x, m');
      if LexLess(x, m') {
        m := x;
        forall y | y in xs && y != m ensures LexLess(m, y) {
          if y != m' {
            LexTransitive(x, m', y);
          }
        }
      } else {
        m := m';
      }
    }
  }

  /** Every finite set of strings has an ascending enumeration. */
  lemma {:induction false} SortedWitness(ks: set<string>) returns (s: seq<string>)
    ensures StrictlySorted(s)
    ensures forall x :: x in s <==> x in ks
    ensures |s| == |ks|
    decreases |ks|
  {
    if ks == {} {
      s := [];
    } else {
      var m := LeastExists(ks);
      var rest := SortedWitness(ks - {m});
      s := [m] + rest;
      forall i, j | 0 <= i < j < |s| ensures LexLess(s[i], s[j]) {
        if i > 0 {
          assert s[i] == rest[i - 1] && s[j] == rest[j - 1];
        } else {
          assert s[j] == rest[j - 1];
          assert rest[j - 1] in ks - {m};
        }
      }
    }
  }

  /** Two strictly sorted lists of the same elements are the same list. */
  lemma {:induction false} SortedUnique(a: seq<string>, b: seq<string>)
    requires StrictlySorted(a) && StrictlySorted(b)
    requires forall x :: x in a <==> x in b
    ensures a == b
    decreases |a|
  {
    if |a| > 0 {
      assert a[0] in b;
    }
    if |b| > 0 {
      assert b[0] in a;
    }
    if |a| > 0 {
      // Each head is the least element of both lists.
      var i :| 0 <= i < |b| && b[i] == a[0];
      var j :| 0 <= j < |a| && a[j] == b[0];
      assert i == 0 || LexLess(b[0], a[0]);
      assert j == 0 || LexLess(a[0], b[0]);
      LexAsymmetric(a[0], b[0]);
      LexIrreflexive(a[0]);
      assert a[0] == b[0];
      forall x ensures x in a[1..] <==> x in b[1..] {
        if x in a[1..] {
          var k :| 1 <= k < |a| && a[k] == x;
          LexIrreflexive(a[0]);
          assert x in b;
          var m :| 0 <= m < |b| && b[m] == x;
          assert b[1..][m - 1] == x;
        }
        if x in b[1..] {
          var k :| 1 <= k < |b| && b[k] == x;
          LexIrreflexive(b[0]);
          assert x in a;
          var m :| 0 <= m < |a| && a[m] == x;
          assert a[1..][m - 1] == x;
        }
      }
      SortedUnique(a[1..], b[1..]);
      assert a == [a[0]] + a[1..] && b == [b[0]] + b[1..];
    }
  }

  /** The least element of a non-empty set of strings. */
  method Least(xs: set<string>) returns (m: string)
    requires xs != {}
    ensures m in xs
    ensures forall y :: y in xs && y != m ==> LexLess(m, y)
  {
    m :| m in xs;
    var todo := xs - {m};
    while todo != {}
      invariant todo <= xs && m in xs && m !in todo
      invariant forall y :: y in xs && y !in todo && y != m ==> LexLess(m, y)
      decreases |todo|
    {
      var y :| y in todo;
      LexTotal(m, y);
      if LexLess(y, m) {
        forall z | z in xs && z !in todo && z != y
          ensures LexLess(y, z)
        {
          if z != m {
            LexTransitive(y, m, z);
          }
        }
        m := y;
      }
      todo := todo - {y};
    }
  }

  /** Python's `sorted(keys)` for a set of distinct strings: every key once, ascending. */
  method SortedList(ks: set<string>) returns (s: seq<string>)
    ensures StrictlySorted(s)
    ensures forall x :: x in s <==> x in ks
    ensures |s| == |ks|
  {
    s := [];
    var rest := ks;
    while rest != {}
      invariant StrictlySorted(s)
      invariant forall x :: x in ks <==> (x in s || x in rest)
      invariant forall x :: x in s ==> x !in rest
      invariant forall i, y :: 0 <= i < |s| && y in rest ==> LexLess(s[i], y)
      invariant |s| + |rest| == |ks|
      decreases |rest|
    {
      var m := Least(rest);
      s := s + [m];
      rest := rest - {m};
    }
  }
}
