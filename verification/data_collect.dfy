/** The collectors of data_collect.h: each folds one value per container
    element (the `get` function) into a single summary. The container is a
    sequence in its iteration order; the summary is returned as a value rather
    than rendered to text. A `std::map` keyed by the values is modelled as a
    multiset (a map from value to count), and the value type's `<` as a
    parameter `lt` that is required to be a strict total order. */
module DataCollect {
  import opened Common

  // ---------------------------------------------------------------------------
  // Orders.

  ghost predicate IsStrictTotal<T(!new)>(lt: (T, T) -> bool)
  {
    && (forall x :: !lt(x, x))
    && (forall x, y, z :: lt(x, y) && lt(y, z) ==> lt(x, z))
    && (forall x, y :: x != y ==> lt(x, y) || lt(y, x))
  }

  /** `std::string`'s `<`: lexicographic on character codes, a proper prefix first. */
  predicate StrLess(a: string, b: string)
  {
    if |a| == 0 then |b| > 0
    else if |b| == 0 then false
    else if a[0] != b[0] then a[0] < b[0]
    else StrLess(a[1..], b[1..])
  }

  lemma {:induction false} StrLessIrreflexive(a: string)
    ensures !StrLess(a, a)
    decreases |a|
  {
    if |a| > 0 {
      StrLessIrreflexive(a[1..]);
    }
  }

  lemma {:induction false} StrLessTransitive(a: string, b: string, c: string)
    requires StrLess(a, b) && StrLess(b, c)
    ensures StrLess(a, c)
    decreases |a|
  {
    if |a| > 0 && a[0] == b[0] && b[0] == c[0] {
      StrLessTransitive(a[1..], b[1..], c[1..]);
    }
  }

  lemma {:induction false} StrLessTotal(a: string, b: string)
    requires a != b
    ensures StrLess(a, b) || StrLess(b, a)
    decreases |a|
  {
    if |a| > 0 && |b| > 0 && a[0] == b[0] {
      StrLessTotal(a[1..], b[1..]);
    }
  }

  lemma StrLessIsStrictTotal()
    ensures IsStrictTotal(StrLess)
  {
    forall x ensures !StrLess(x, x) { StrLessIrreflexive(x); }
    forall x, y, z | StrLess(x, y) && StrLess(y, z) ensures StrLess(x, z) {
      StrLessTransitive(x, y, z);
    }
    forall x, y | x != y ensures StrLess(x, y) || StrLess(y, x) { StrLessTotal(x, y); }
  }

  function IntLess(): (int, int) -> bool { (x: int, y: int) => x < y }
  function RealLess(): (real, real) -> bool { (x: real, y: real) => x < y }

  /** The reversed order: what `>` is to `<`. */
  function Above<T>(lt: (T, T) -> bool): (T, T) -> bool { (x: T, y: T) => lt(y, x) }

  lemma AboveIsStrictTotal<T(!new)>(lt: (T, T) -> bool)
    requires IsStrictTotal(lt)
    ensures IsStrictTotal(Above(lt))
  {
  }

  // ---------------------------------------------------------------------------
  // The values a container yields.

  function Values<E, D>(c: seq<E>, get: E -> D): (r: seq<D>)
    ensures |r| == |c| && forall i :: 0 <= i < |c| ==> r[i] == get(c[i])
  {
    seq(|c|, i requires 0 <= i < |c| => get(c[i]))
  }

  /** The distinct values a container yields. */
  ghost function ValueSet<E, D>(c: seq<E>, get: E -> D): set<D>
  {
    set e | e in c :: get(e)
  }

  // ---------------------------------------------------------------------------
  // Count.

  /** `BuildCollectFun_Count`: the number of distinct values. */
  method Count<E, D(==)>(c: seq<E>, get: E -> D) returns (n: nat)
    ensures n == |ValueSet(c, get)|
    ensures n <= |c| && (n == 0 <==> |c| == 0)
  {
    var vals: set<D> := {};
    var i := 0;
    while i < |c|
      invariant 0 <= i <= |c|
      invariant vals == ValueSet(c[..i], get)
      invariant |vals| <= i && (i > 0 ==> |vals| > 0)
    {
      assert c[..i + 1] == c[..i] + [c[i]];
      vals := vals + {get(c[i])};
      i := i + 1;
    }
    assert c[..i] == c;
    n := |vals|;
  }

  /** The count sees neither order nor repetition: two containers holding the
      same elements, in any order and any number of times, count the same. */
  lemma {:induction false} CountIgnoresOrderAndRepeats<E, D>(c1: seq<E>, c2: seq<E>, get: E -> D)
    requires forall e :: e in c1 <==> e in c2
    ensures ValueSet(c1, get) == ValueSet(c2, get)
  {
  }

  // ---------------------------------------------------------------------------
  // Mode.

  /** `v` is the value the mode collector promises for the counts `m`: one of
      highest count, and the least under `lt` among those. */
  ghost predicate IsMode<T(!new)>(lt: (T, T) -> bool, m: multiset<T>, v: T)
  {
    && m[v] > 0
    && (forall y :: m[y] <= m[v])
    && (forall y :: m[y] == m[v] ==> y == v || lt(v, y))
  }

  /** At most one value is the mode, so the mode depends on the counts alone. */
  lemma {:induction false} ModeIsUnique<T(!new)>(lt: (T, T) -> bool, m: multiset<T>, a: T, b: T)
    requires IsStrictTotal(lt) && IsMode(lt, m, a) && IsMode(lt, m, b)
    ensures a == b
  {
  }

  /** `m` is the least element of `s` under `lt`. */
  predicate IsLeast<T(==)>(lt: (T, T) -> bool, s: set<T>, m: T)
  {
    m in s && forall y :: y in s ==> y == m || lt(m, y)
  }

  /** Every non-empty finite set has a least element under a strict total order. */
  lemma {:induction false} LeastExists<T(!new)>(lt: (T, T) -> bool, s: set<T>)
    requires IsStrictTotal(lt) && s != {}
    ensures exists m :: IsLeast(lt, s, m)
    decreases s
  {
    var x :| x in s;
    var rest := s - {x};
    if rest == {} {
      assert s == {x};
      assert IsLeast(lt, s, x);
    } else {
      LeastExists(lt, rest);
      var m :| IsLeast(lt, rest, m);
      if lt(x, m) {
        forall y | y in s ensures y == x || lt(x, y) {
          if y != x { assert y in rest; }
        }
        assert IsLeast(lt, s, x);
      } else {
        assert IsLeast(lt, s, m);
      }
    }
  }

  /** `BuildCollectFun_Mode`: count every value, then walk the counts in
      ascending value order keeping the first value whose count is strictly
      higher than the best so far. `None` stands for the mode variable the
      source leaves unassigned on an empty container. */
  method Mode<E, T(==,!new)>(c: seq<E>, get: E -> T, lt: (T, T) -> bool) returns (r: Option<T>)
    requires IsStrictTotal(lt)
    ensures r.None? <==> |c| == 0
    ensures r.Some? ==> IsMode(lt, multiset(Values(c, get)), r.value)
  {
    var vals := Values(c, get);
    var counts: multiset<T> := multiset{};
    var i := 0;
    while i < |c|
      invariant 0 <= i <= |c|
      invariant counts == multiset(vals[..i])
    {
      assert vals[..i + 1] == vals[..i] + [vals[i]];
      counts := counts + multiset{get(c[i])};
      i := i + 1;
    }
    assert vals[..i] == vals;

    var keys := set v | v in counts;
    var rest := keys;
    var modeCount: nat := 0;
    r := None;
    while rest != {}
      invariant rest <= keys
      invariant forall p, q :: p in keys && p !in rest && q in rest ==> lt(p, q)
      invariant r.None? <==> modeCount == 0
      invariant r.Some? ==> r.value in keys && r.value !in rest && counts[r.value] == modeCount
      invariant forall p :: p in keys && p !in rest ==> counts[p] <= modeCount
      invariant forall p :: p in keys && p !in rest && counts[p] == modeCount ==> p == r.value || lt(r.value, p)
      invariant rest == keys ==> modeCount == 0
      invariant rest != keys ==> modeCount > 0
      decreases |rest|
    {
      LeastExists(lt, rest);
      var cur :| IsLeast(lt, rest, cur);
      if counts[cur] > modeCount {
        modeCount := counts[cur];
        r := Some(cur);
      }
      rest := rest - {cur};
    }
    if r.Some? {
      forall y ensures counts[y] <= counts[r.value] {
        if y in counts { assert y in keys; }
      }
    }
    if |c| > 0 {
      assert vals[0] in keys;
    }
  }

  // ---------------------------------------------------------------------------
  // Min and Max.

  /** The running extreme: starting from `acc`, replace it by each value that is
      strictly `better` than it, in container order. Min is this fold with the
      value order; Max is it with the reversed order. */
  function Best<T>(better: (T, T) -> bool, acc: T, s: seq<T>): T
    decreases |s|
  {
    if |s| == 0 then acc
    else Best(better, if better(s[0], acc) then s[0] else acc, s[1..])
  }

  /** The fold's result is no worse than its start or any value, and is one of them. */
  lemma {:induction false} BestBound<T(!new)>(better: (T, T) -> bool, acc: T, s: seq<T>)
    requires IsStrictTotal(better)
    ensures Best(better, acc, s) == acc || Best(better, acc, s) in s
    ensures !better(acc, Best(better, acc, s))
    ensures forall x :: x in s ==> !better(x, Best(better, acc, s))
    decreases |s|
  {
    if |s| > 0 {
      var next := if better(s[0], acc) then s[0] else acc;
      BestBound(better, next, s[1..]);
      assert s == [s[0]] + s[1..];
    }
  }

  /** When the start is no better than any value, a non-empty container's
      result is one of its values. */
  lemma {:induction false} BestIsAValue<T(!new)>(better: (T, T) -> bool, acc: T, s: seq<T>)
    requires IsStrictTotal(better) && |s| > 0
    requires forall x :: x in s ==> !better(acc, x)
    ensures Best(better, acc, s) in s
  {
    var next := if better(s[0], acc) then s[0] else acc;
    assert next == s[0];
    BestBound(better, next, s[1..]);
    assert s == [s[0]] + s[1..];
  }

  /** The collector loop shared by Min (`better` is `<`) and Max (`better` is `>`). */
  method Extreme<E, T>(c: seq<E>, get: E -> T, better: (T, T) -> bool, start: T) returns (r: T)
    ensures r == Best(better, start, Values(c, get))
  {
    var vals := Values(c, get);
    r := start;
    var i := 0;
    while i < |c|
      invariant 0 <= i <= |c|
      invariant Best(better, r, vals[i..]) == Best(better, start, vals)
    {
      var cur := get(c[i]);
      assert vals[i..][0] == cur && vals[i..][1..] == vals[i + 1..];
      if better(cur, r) {
        r := cur;
      }
      i := i + 1;
    }
  }

  /** `BuildCollectFun_Min`, started from the type's sentinel `start`. */
  method Min<E, T>(c: seq<E>, get: E -> T, lt: (T, T) -> bool, start: T) returns (r: T)
    ensures r == Best(lt, start, Values(c, get))
  {
    r := Extreme(c, get, lt, start);
  }

  /** `BuildCollectFun_Max`, started from the type's sentinel `start`. */
  method Max<E, T>(c: seq<E>, get: E -> T, lt: (T, T) -> bool, start: T) returns (r: T)
    ensures r == Best(Above(lt), start, Values(c, get))
  {
    r := Extreme(c, get, Above(lt), start);
  }

  // ---------------------------------------------------------------------------
  // Sentinels.

  /** `std::numeric_limits` of an integral type: `min()` is its lowest value. */
  datatype IntLimits = IntLimits(lowest: int, highest: int)

  /** `std::numeric_limits<double>`: `min()` is the smallest positive normal
      value, not the lowest one. */
  datatype DoubleLimits = DoubleLimits(lowest: real, minPositive: real, highest: real)
  {
    predicate Valid() { lowest == -highest && 0.0 < minPositive < highest }
  }

  /** Min on integers: `max()` as start gives the least value, and `max()` itself
      on an empty container. */
  lemma {:induction false} IntMinIsLeast(lim: IntLimits, s: seq<int>)
    requires forall x :: x in s ==> lim.lowest <= x <= lim.highest
    ensures |s| == 0 ==> Best(IntLess(), lim.highest, s) == lim.highest
    ensures |s| > 0 ==> Best(IntLess(), lim.highest, s) in s
    ensures forall x :: x in s ==> Best(IntLess(), lim.highest, s) <= x
  {
    BestBound(IntLess(), lim.highest, s);
    if |s| > 0 { BestIsAValue(IntLess(), lim.highest, s); }
  }

  /** Max on integers: `min()` (the lowest value) as start gives the greatest
      value, and `min()` itself on an empty container. */
  lemma {:induction false} IntMaxIsGreatest(lim: IntLimits, s: seq<int>)
    requires forall x :: x in s ==> lim.lowest <= x <= lim.highest
    ensures |s| == 0 ==> Best(Above(IntLess()), lim.lowest, s) == lim.lowest
    ensures |s| > 0 ==> Best(Above(IntLess()), lim.lowest, s) in s
    ensures forall x :: x in s ==> x <= Best(Above(IntLess()), lim.lowest, s)
  {
    AboveIsStrictTotal(IntLess());
    BestBound(Above(IntLess()), lim.lowest, s);
    if |s| > 0 { BestIsAValue(Above(IntLess()), lim.lowest, s); }
  }

  /** Min on doubles: `max()` as start gives the least value. */
  lemma {:induction false} DoubleMinIsLeast(lim: DoubleLimits, s: seq<real>)
    requires lim.Valid() && forall x :: x in s ==> lim.lowest <= x <= lim.highest
    ensures |s| == 0 ==> Best(RealLess(), lim.highest, s) == lim.highest
    ensures |s| > 0 ==> Best(RealLess(), lim.highest, s) in s
    ensures forall x :: x in s ==> Best(RealLess(), lim.highest, s) <= x
  {
    BestBound(RealLess(), lim.highest, s);
    if |s| > 0 { BestIsAValue(RealLess(), lim.highest, s); }
  }

  /** Max on doubles as written starts from `min()`, the smallest positive
      value: a container of negative values reports that positive value, which
      it does not hold. */
  lemma {:induction false} DoubleMaxMissesNegatives(lim: DoubleLimits)
    requires lim.Valid()
    ensures Best(Above(RealLess()), lim.minPositive, [-1.0]) == lim.minPositive
    ensures lim.minPositive !in [-1.0]
  {
  }

  /** Max on doubles started from `lowest()` gives the greatest value, and
      `lowest()` on an empty container. */
  lemma {:induction false} DoubleMaxFromLowest(lim: DoubleLimits, s: seq<real>)
    requires lim.Valid() && forall x :: x in s ==> lim.lowest <= x <= lim.highest
    ensures |s| == 0 ==> Best(Above(RealLess()), lim.lowest, s) == lim.lowest
    ensures |s| > 0 ==> Best(Above(RealLess()), lim.lowest, s) in s
    ensures forall x :: x in s ==> x <= Best(Above(RealLess()), lim.lowest, s)
  {
    AboveIsStrictTotal(RealLess());
    BestBound(Above(RealLess()), lim.lowest, s);
    if |s| > 0 { BestIsAValue(Above(RealLess()), lim.lowest, s); }
  }

  /** The string Min start as written: the (count, character) constructor
      called with '~' as the count and 22 as the character, so 126 copies of
      character 22. */
  function StringMinStartAsWritten(): (r: string)
    ensures |r| == 126 && forall i :: 0 <= i < |r| ==> r[i] == 22 as char
  {
    seq(126, _ => 22 as char)
  }

  /** The start the comment describes: 22 copies of '~', the last printable character. */
  function StringMinStart(): (r: string)
    ensures |r| == 22 && forall i :: 0 <= i < |r| ==> r[i] == '~'
  {
    seq(22, _ => '~')
  }

  /** As written, any string starting with a printable character is above the
      start, so Min over `["a"]` reports the start, which is not in the container. */
  lemma {:induction false} StringMinMissesPrintable()
    ensures Best(StrLess, StringMinStartAsWritten(), ["a"]) == StringMinStartAsWritten()
    ensures StringMinStartAsWritten() !in ["a"]
  {
    var t := StringMinStartAsWritten();
    assert !StrLess("a", t) by {
      assert "a"[0] == 'a' && t[0] == 22 as char;
    }
    assert ["a"][1..] == [];
  }

  predicate Printable(s: string)
  {
    forall i :: 0 <= i < |s| ==> ' ' <= s[i] <= '~'
  }

  /** A printable string of at most `n` characters is not above `n` tildes. */
  lemma {:induction false} TildesAbovePrintable(n: nat, s: string)
    requires Printable(s) && |s| <= n
    ensures !StrLess(seq(n, _ => '~'), s)
    decreases n
  {
    var t: string := seq(n, _ => '~');
    if n > 0 && |s| > 0 && s[0] == '~' {
      assert t[1..] == seq(n - 1, _ => '~');
      assert Printable(s[1..]) by {
        forall i | 0 <= i < |s[1..]| ensures ' ' <= s[1..][i] <= '~' { assert s[1..][i] == s[i + 1]; }
      }
      TildesAbovePrintable(n - 1, s[1..]);
    }
  }

  /** Min on strings started from 22 tildes gives the least value of any
      container of printable strings of at most 22 characters. */
  lemma {:induction false} StringMinIsLeast(s: seq<string>)
    requires forall x :: x in s ==> Printable(x) && |x| <= 22
    ensures |s| > 0 ==> Best(StrLess, StringMinStart(), s) in s
    ensures forall x :: x in s ==> !StrLess(x, Best(StrLess, StringMinStart(), s))
  {
    StrLessIsStrictTotal();
    BestBound(StrLess, StringMinStart(), s);
    if |s| > 0 {
      forall x | x in s ensures !StrLess(StringMinStart(), x) {
        TildesAbovePrintable(22, x);
      }
      BestIsAValue(StrLess, StringMinStart(), s);
    }
  }

  /** Max on strings starts from the empty string (a non-arithmetic type keeps
      its default value), which no string is below: it gives the greatest value. */
  lemma {:induction false} StringMaxIsGreatest(s: seq<string>)
    ensures |s| == 0 ==> Best(Above(StrLess), "", s) == ""
    ensures |s| > 0 ==> Best(Above(StrLess), "", s) in s
    ensures forall x :: x in s ==> !StrLess(Best(Above(StrLess), "", s), x)
  {
    StrLessIsStrictTotal();
    AboveIsStrictTotal(StrLess);
    BestBound(Above(StrLess), "", s);
    if |s| > 0 { BestIsAValue(Above(StrLess), "", s); }
  }
}
