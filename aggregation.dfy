/**
  The `agg` helper of the statistics client: per-name sums of seconds kept
  in a JavaScript `Map` (insertion-ordered, one entry per key), turned into
  `{ name, seconds, percent }` records and sorted by seconds, largest first,
  with JavaScript's stable `Array.prototype.sort`.
 */
module Aggregation {
  import opened Wrappers
  import opened Types

  /**
    A `{ name, total_seconds }` record of the upstream response, and also one
    `[name, seconds]` entry of the `Map` that `agg` fills.
   */
  datatype Item = Item(name: string, seconds: real)

  // ---------------------------------------------------------------------------
  // Sums and shares
  // ---------------------------------------------------------------------------

  /** `xs.reduce((a, b) => a + b, 0)`. */
  function Sum(xs: seq<real>): real {
    if xs == [] then 0.0 else Sum(xs[..|xs| - 1]) + xs[|xs| - 1]
  }

  /** `(seconds / (total || 1)) * 100`: a zero total is replaced by one. */
  function Share(seconds: real, total: real): real {
    seconds / (if total == 0.0 then 1.0 else total) * 100.0
  }

  /** Scaling every term scales the sum. */
  lemma {:induction false} SumScaled(xs: seq<real>, ys: seq<real>, d: real)
    requires d != 0.0 && |ys| == |xs|
    requires forall i :: 0 <= i < |xs| ==> ys[i] == xs[i] / d * 100.0
    ensures Sum(ys) == Sum(xs) / d * 100.0
  {
    if xs != [] {
      var n := |xs| - 1;
      SumScaled(xs[..n], ys[..n], d);
      SplitQuotient(Sum(xs[..n]), xs[n], d);
    }
  }

  lemma SplitQuotient(a: real, b: real, d: real)
    requires d != 0.0
    ensures a / d * 100.0 + b / d * 100.0 == (a + b) / d * 100.0
  {
  }

  /** A sum of non-negative terms is zero only when every term is. */
  lemma {:induction false} ZeroSumOfNonNegative(xs: seq<real>)
    requires forall i :: 0 <= i < |xs| ==> xs[i] >= 0.0
    ensures Sum(xs) >= 0.0
    ensures Sum(xs) == 0.0 ==> forall i :: 0 <= i < |xs| ==> xs[i] == 0.0
  {
    if xs != [] {
      ZeroSumOfNonNegative(xs[..|xs| - 1]);
    }
  }

  /** The shares of the parts of a total add up to 100, or to 0 for a zero total. */
  lemma SharesSum(xs: seq<real>, shares: seq<real>)
    requires |shares| == |xs|
    requires forall i :: 0 <= i < |xs| ==> shares[i] == Share(xs[i], Sum(xs))
    ensures Sum(shares) == if Sum(xs) != 0.0 then 100.0 else 0.0
  {
    var t := Sum(xs);
    var d := if t == 0.0 then 1.0 else t;
    forall i | 0 <= i < |xs| ensures shares[i] == xs[i] / d * 100.0 {
      assert shares[i] == Share(xs[i], t);
    }
    SumScaled(xs, shares, d);
    if t != 0.0 {
      WholeShare(t);
    }
  }

  lemma WholeShare(t: real)
    requires t != 0.0
    ensures t / t * 100.0 == 100.0
  {
    assert t / t == 1.0;
  }

  // ---------------------------------------------------------------------------
  // The insertion-ordered Map
  // ---------------------------------------------------------------------------

  function Keys(m: seq<Item>): (ks: seq<string>)
    ensures |ks| == |m| && forall i :: 0 <= i < |m| ==> ks[i] == m[i].name
  {
    seq(|m|, i requires 0 <= i < |m| => m[i].name)
  }

  function SecondsOf(m: seq<Item>): (ss: seq<real>)
    ensures |ss| == |m| && forall i :: 0 <= i < |m| ==> ss[i] == m[i].seconds
  {
    seq(|m|, i requires 0 <= i < |m| => m[i].seconds)
  }

  predicate NoDup(ns: seq<string>) {
    forall i, j :: 0 <= i < j < |ns| ==> ns[i] != ns[j]
  }

  /** `map.get(k)`. */
  function Get(m: seq<Item>, k: string): Option<real> {
    if m == [] then None
    else if m[0].name == k then Some(m[0].seconds)
    else Get(m[1..], k)
  }

  /** `map.set(k, v)`: an existing key keeps its place, a new key goes last. */
  function Set(m: seq<Item>, k: string, v: real): seq<Item> {
    if m == [] then [Item(k, v)]
    else if m[0].name == k then [Item(k, v)] + m[1..]
    else [m[0]] + Set(m[1..], k, v)
  }

  lemma KeysTail(m: seq<Item>)
    requires m != []
    ensures Keys(m) == [m[0].name] + Keys(m[1..])
  {
  }

  lemma {:induction false} GetFindsEntry(m: seq<Item>, i: int)
    requires NoDup(Keys(m)) && 0 <= i < |m|
    ensures Get(m, m[i].name) == Some(m[i].seconds)
  {
    if i > 0 {
      assert Keys(m)[0] != Keys(m)[i];
      KeysTail(m);
      NoDupTail(Keys(m));
      assert m[1..][i - 1] == m[i];
      GetFindsEntry(m[1..], i - 1);
    }
  }

  lemma NoDupTail(ns: seq<string>)
    requires ns != [] && NoDup(ns)
    ensures NoDup(ns[1..])
  {
    forall i, j | 0 <= i < j < |ns| - 1 ensures ns[1..][i] != ns[1..][j] {
      assert ns[1..][i] == ns[i + 1] && ns[1..][j] == ns[j + 1];
    }
  }

  lemma {:induction false} GetAbsent(m: seq<Item>, k: string)
    requires k !in Keys(m)
    ensures Get(m, k) == None
  {
    if m != [] {
      KeysTail(m);
      GetAbsent(m[1..], k);
    }
  }

  lemma {:induction false} SetExisting(m: seq<Item>, k: string, v: real)
    requires NoDup(Keys(m)) && k in Keys(m)
    ensures |Set(m, k, v)| == |m|
    ensures forall i :: 0 <= i < |m| ==>
      Set(m, k, v)[i] == if m[i].name == k then Item(k, v) else m[i]
  {
    KeysTail(m);
    if m[0].name != k {
      SetExisting(m[1..], k, v);
    } else {
      forall i | 0 < i < |m| ensures m[i].name != k {
        assert Keys(m)[0] != Keys(m)[i];
      }
    }
  }

  lemma {:induction false} SetNew(m: seq<Item>, k: string, v: real)
    requires k !in Keys(m)
    ensures Set(m, k, v) == m + [Item(k, v)]
  {
    if m != [] {
      KeysTail(m);
      SetNew(m[1..], k, v);
      assert [m[0]] + (m[1..] + [Item(k, v)]) == m + [Item(k, v)];
    }
  }

  /**
    `Map` semantics: after `set(k, v)` the key reads back as `v`, every other
    key reads as before, keys stay distinct, and a new key is appended while
    an existing one keeps its position.
   */
  lemma SetThenGet(m: seq<Item>, k: string, v: real, other: string)
    requires NoDup(Keys(m))
    ensures Get(Set(m, k, v), k) == Some(v)
    ensures other != k ==> Get(Set(m, k, v), other) == Get(m, other)
    ensures NoDup(Keys(Set(m, k, v)))
    ensures Keys(Set(m, k, v)) == if k in Keys(m) then Keys(m) else Keys(m) + [k]
  {
    SetKeys(m, k, v);
    SetGetSame(m, k, v);
    if other != k {
      SetGetOther(m, k, v, other);
    }
  }

  lemma SetKeys(m: seq<Item>, k: string, v: real)
    requires NoDup(Keys(m))
    ensures NoDup(Keys(Set(m, k, v)))
    ensures Keys(Set(m, k, v)) == if k in Keys(m) then Keys(m) else Keys(m) + [k]
  {
    var m' := Set(m, k, v);
    if k in Keys(m) {
      SetExisting(m, k, v);
      assert Keys(m') == Keys(m);
    } else {
      SetNew(m, k, v);
      assert Keys(m') == Keys(m) + [k];
    }
  }

  lemma SetGetSame(m: seq<Item>, k: string, v: real)
    requires NoDup(Keys(m))
    ensures Get(Set(m, k, v), k) == Some(v)
  {
    var m' := Set(m, k, v);
    SetKeys(m, k, v);
    if k in Keys(m) {
      SetExisting(m, k, v);
      var i :| 0 <= i < |m| && Keys(m)[i] == k;
      assert m'[i] == Item(k, v);
      GetFindsEntry(m', i);
    } else {
      SetNew(m, k, v);
      assert m'[|m|] == Item(k, v);
      GetFindsEntry(m', |m|);
    }
  }

  lemma SetGetOther(m: seq<Item>, k: string, v: real, other: string)
    requires NoDup(Keys(m)) && other != k
    ensures Get(Set(m, k, v), other) == Get(m, other)
  {
    var m' := Set(m, k, v);
    SetKeys(m, k, v);
    if other in Keys(m) {
      var j :| 0 <= j < |m| && Keys(m)[j] == other;
      assert m'[j] == m[j] by {
        if k in Keys(m) { SetExisting(m, k, v); } else { SetNew(m, k, v); }
      }
      GetFindsEntry(m, j);
      GetFindsEntry(m', j);
    } else {
      assert other !in Keys(m');
      GetAbsent(m, other);
      GetAbsent(m', other);
    }
  }

  // ---------------------------------------------------------------------------
  // Filling the Map
  // ---------------------------------------------------------------------------

  /** `map.set(x.name, (map.get(x.name) ?? 0) + x.total_seconds)`. */
  function Bump(m: seq<Item>, x: Item): seq<Item> {
    Set(m, x.name, Get(m, x.name).GetOr(0.0) + x.seconds)
  }

  /** The `Map` of `agg` after its loops have visited the items `xs`, in order. */
  function Accumulate(xs: seq<Item>): seq<Item> {
    if xs == [] then [] else Bump(Accumulate(xs[..|xs| - 1]), xs[|xs| - 1])
  }

  /** Filling the `Map` with one more item is one more `Bump`. */
  lemma AccumulateSnoc(xs: seq<Item>, x: Item)
    ensures Accumulate(xs + [x]) == Bump(Accumulate(xs), x)
  {
    assert (xs + [x])[..|xs|] == xs;
  }

  /** Total seconds of the items named `n`. */
  function SumFor(xs: seq<Item>, n: string): real {
    if xs == [] then 0.0
    else SumFor(xs[..|xs| - 1], n) + (if xs[|xs| - 1].name == n then xs[|xs| - 1].seconds else 0.0)
  }

  /** Where `n` first occurs in `ns`. */
  function FirstIndex(ns: seq<string>, n: string): (i: nat)
    requires n in ns
    ensures i < |ns| && ns[i] == n
    ensures forall j :: 0 <= j < i ==> ns[j] != n
  {
    if ns[0] == n then 0 else 1 + FirstIndex(ns[1..], n)
  }

  lemma FirstIndexAppend(ns: seq<string>, k: string, n: string)
    requires n in ns
    ensures FirstIndex(ns + [k], n) == FirstIndex(ns, n)
  {
    assert (ns + [k])[FirstIndex(ns, n)] == n;
  }

  lemma FirstIndexOfNew(ns: seq<string>, n: string)
    requires n !in ns
    ensures FirstIndex(ns + [n], n) == |ns|
  {
    assert (ns + [n])[|ns|] == n;
  }

  lemma KeysAppend(xs: seq<Item>, x: Item)
    ensures Keys(xs + [x]) == Keys(xs) + [x.name]
  {
  }

  lemma SumForStep(xs: seq<Item>, x: Item, n: string)
    ensures SumFor(xs + [x], n) == SumFor(xs, n) + (if x.name == n then x.seconds else 0.0)
  {
    assert (xs + [x])[..|xs|] == xs;
  }

  lemma {:induction false} SumForAbsent(xs: seq<Item>, n: string)
    requires n !in Keys(xs)
    ensures SumFor(xs, n) == 0.0
  {
    if xs != [] {
      var k := |xs| - 1;
      KeysAppend(xs[..k], xs[k]);
      assert xs[..k] + [xs[k]] == xs;
      SumForAbsent(xs[..k], n);
    }
  }

  /**
    `m` is what a `Map` filled from `xs` holds: one entry per distinct name
    of `xs`, each with the sum of that name's seconds, in the order the names
    first occur in `xs`.
   */
  ghost predicate GroupedBy(m: seq<Item>, xs: seq<Item>) {
    && NoDup(Keys(m))
    && (forall n :: n in Keys(m) <==> n in Keys(xs))
    && TotalsOf(m, xs)
    && FirstSeenOrder(m, xs)
  }

  /** Every entry of `m` holds the sum of its name's seconds in `xs`. */
  ghost predicate TotalsOf(m: seq<Item>, xs: seq<Item>) {
    forall i :: 0 <= i < |m| ==> m[i].seconds == SumFor(xs, m[i].name)
  }

  /** The entries of `m` are in the order their names first occur in `xs`. */
  ghost predicate FirstSeenOrder(m: seq<Item>, xs: seq<Item>) {
    && (forall i :: 0 <= i < |m| ==> m[i].name in Keys(xs))
    && (forall i, j :: 0 <= i < j < |m| ==>
          FirstIndex(Keys(xs), m[i].name) < FirstIndex(Keys(xs), m[j].name))
  }

  lemma BumpExisting(m: seq<Item>, xs: seq<Item>, x: Item)
    requires GroupedBy(m, xs) && x.name in Keys(m)
    ensures GroupedBy(Bump(m, x), xs + [x])
  {
    var k := x.name;
    KeysAppend(xs, x);
    var i :| 0 <= i < |m| && Keys(m)[i] == k;
    GetFindsEntry(m, i);
    assert m[i].name == k && Get(m, k).GetOr(0.0) == m[i].seconds;
    var m' := Set(m, k, m[i].seconds + x.seconds);
    assert Bump(m, x) == m';
    SetAddsTotals(m, xs, x, i);
    OrderAfterAppend(m, xs, x, m');
  }

  lemma SetAddsTotals(m: seq<Item>, xs: seq<Item>, x: Item, i: int)
    requires NoDup(Keys(m)) && TotalsOf(m, xs) && 0 <= i < |m| && m[i].name == x.name
    ensures var m' := Set(m, x.name, m[i].seconds + x.seconds);
      Keys(m') == Keys(m) && TotalsOf(m', xs + [x])
  {
    var m' := Set(m, x.name, m[i].seconds + x.seconds);
    SetAdds(m, x.name, i, x.seconds);
    SameNamesSameKeys(m, m');
    BumpedTotals(m, xs, x, m');
  }

  /** Setting the key of entry `i` to its seconds plus `d` adds `d` to that entry alone. */
  lemma SetAdds(m: seq<Item>, k: string, i: int, d: real)
    requires NoDup(Keys(m)) && 0 <= i < |m| && m[i].name == k
    ensures var m' := Set(m, k, m[i].seconds + d);
      && |m'| == |m|
      && (forall j :: 0 <= j < |m| ==> m'[j].name == m[j].name)
      && (forall j :: 0 <= j < |m| && m[j].name == k ==> m'[j].seconds == m[j].seconds + d)
      && (forall j :: 0 <= j < |m| && m[j].name != k ==> m'[j].seconds == m[j].seconds)
  {
    SetExisting(m, k, m[i].seconds + d);
    forall j | 0 <= j < |m| && m[j].name == k ensures j == i {
      NoDupAt(Keys(m), i, j);
    }
  }

  lemma SameNamesSameKeys(m: seq<Item>, m': seq<Item>)
    requires |m'| == |m| && forall j :: 0 <= j < |m| ==> m'[j].name == m[j].name
    ensures Keys(m') == Keys(m)
  {
  }

  lemma NoDupAt(ns: seq<string>, i: int, j: int)
    requires NoDup(ns) && 0 <= i < |ns| && 0 <= j < |ns| && ns[i] == ns[j]
    ensures i == j
  {
  }

  lemma BumpedTotals(m: seq<Item>, xs: seq<Item>, x: Item, m': seq<Item>)
    requires TotalsOf(m, xs) && |m'| == |m|
    requires forall j :: 0 <= j < |m| ==> m'[j].name == m[j].name
    requires forall j :: 0 <= j < |m| && m[j].name == x.name ==> m'[j].seconds == m[j].seconds + x.seconds
    requires forall j :: 0 <= j < |m| && m[j].name != x.name ==> m'[j].seconds == m[j].seconds
    ensures TotalsOf(m', xs + [x])
  {
    forall j | 0 <= j < |m'| ensures m'[j].seconds == SumFor(xs + [x], m'[j].name) {
      SumForStep(xs, x, m[j].name);
    }
  }

  lemma OrderAfterAppend(m: seq<Item>, xs: seq<Item>, x: Item, m': seq<Item>)
    requires FirstSeenOrder(m, xs) && Keys(m') == Keys(m)
    ensures FirstSeenOrder(m', xs + [x])
  {
    assert |m'| == |Keys(m)|;
    forall j | 0 <= j < |m| ensures m'[j].name == m[j].name {
      assert Keys(m')[j] == Keys(m)[j];
    }
    KeysAppend(xs, x);
    var ys := xs + [x];
    forall a | 0 <= a < |m'| ensures m'[a].name in Keys(ys) {
      assert m[a].name in Keys(xs);
    }
    forall a, b | 0 <= a < b < |m'|
      ensures FirstIndex(Keys(ys), m'[a].name) < FirstIndex(Keys(ys), m'[b].name)
    {
      assert FirstIndex(Keys(xs), m[a].name) < FirstIndex(Keys(xs), m[b].name);
      FirstIndexAppend(Keys(xs), x.name, m[a].name);
      FirstIndexAppend(Keys(xs), x.name, m[b].name);
    }
  }

  lemma BumpNew(m: seq<Item>, xs: seq<Item>, x: Item)
    requires GroupedBy(m, xs) && x.name !in Keys(m)
    ensures GroupedBy(Bump(m, x), xs + [x])
  {
    var k := x.name;
    var ys := xs + [x];
    KeysAppend(xs, x);
    GetAbsent(m, k);
    SetNew(m, k, x.seconds);
    var m' := Bump(m, x);
    assert m' == m + [Item(k, x.seconds)];
    assert Keys(m') == Keys(m) + [k];
    SumForAbsent(xs, k);
    forall j | 0 <= j < |m'| ensures m'[j].seconds == SumFor(ys, m'[j].name) {
      SumForStep(xs, x, m'[j].name);
    }
    FirstIndexOfNew(Keys(xs), k);
    forall a, b | 0 <= a < b < |m'|
      ensures FirstIndex(Keys(ys), m'[a].name) < FirstIndex(Keys(ys), m'[b].name)
    {
      FirstIndexAppend(Keys(xs), k, m[a].name);
      if b < |m| {
        FirstIndexAppend(Keys(xs), k, m[b].name);
      }
    }
  }

  /** The `Map` that `agg` fills holds each name once, with its total, in first-seen order. */
  lemma {:induction false} AccumulateGroups(xs: seq<Item>)
    ensures GroupedBy(Accumulate(xs), xs)
  {
    if xs != [] {
      var n := |xs| - 1;
      AccumulateGroups(xs[..n]);
      assert xs[..n] + [xs[n]] == xs;
      if xs[n].name in Keys(Accumulate(xs[..n])) {
        BumpExisting(Accumulate(xs[..n]), xs[..n], xs[n]);
      } else {
        BumpNew(Accumulate(xs[..n]), xs[..n], xs[n]);
      }
    }
  }

  // ---------------------------------------------------------------------------
  // Records with percents
  // ---------------------------------------------------------------------------

  function Names(xs: seq<LangAgg>): (ns: seq<string>)
    ensures |ns| == |xs| && forall i :: 0 <= i < |xs| ==> ns[i] == xs[i].name
  {
    seq(|xs|, i requires 0 <= i < |xs| => xs[i].name)
  }

  function Percents(xs: seq<LangAgg>): (ps: seq<real>)
    ensures |ps| == |xs| && forall i :: 0 <= i < |xs| ==> ps[i] == xs[i].percent
  {
    seq(|xs|, i requires 0 <= i < |xs| => xs[i].percent)
  }

  /** `Array.from(map, ([name, seconds]) => ({ name, seconds, percent }))`. */
  function WithPercents(m: seq<Item>): (r: seq<LangAgg>)
    ensures |r| == |m|
    ensures forall i :: 0 <= i < |m| ==> r[i].name == m[i].name && r[i].seconds == m[i].seconds
  {
    var total := Sum(SecondsOf(m));
    seq(|m|, i requires 0 <= i < |m| => LangAgg(m[i].name, m[i].seconds, Share(m[i].seconds, total)))
  }

  /** The percents add up to 100, or to 0 when the seconds add up to 0. */
  lemma PercentsAddUp(m: seq<Item>)
    ensures Sum(Percents(WithPercents(m))) == if Sum(SecondsOf(m)) != 0.0 then 100.0 else 0.0
  {
    SharesSum(SecondsOf(m), Percents(WithPercents(m)));
  }

  /** With no negative seconds and a zero total, every percent is 0. */
  lemma PercentsOfNothing(m: seq<Item>)
    requires forall i :: 0 <= i < |m| ==> m[i].seconds >= 0.0
    requires Sum(SecondsOf(m)) == 0.0
    ensures forall i :: 0 <= i < |m| ==> WithPercents(m)[i].percent == 0.0
  {
    ZeroSumOfNonNegative(SecondsOf(m));
  }

  // ---------------------------------------------------------------------------
  // The stable sort by seconds, largest first
  // ---------------------------------------------------------------------------

  /**
    Places `x` before the first element it does not sort after under the
    comparator `(a, b) => b.seconds - a.seconds`; elements with equal seconds
    that were before `x` in the input stay before it.
   */
  function Insert(x: LangAgg, s: seq<LangAgg>): seq<LangAgg> {
    if s == [] || x.seconds >= s[0].seconds then [x] + s else [s[0]] + Insert(x, s[1..])
  }

  /**
    `.sort((a, b) => b.seconds - a.seconds)`, which is stable in JavaScript:
    largest first, and a permutation of its input.
   */
  function SortBySeconds(xs: seq<LangAgg>): (r: seq<LangAgg>)
    ensures SortedDesc(r)
    ensures multiset(r) == multiset(xs)
  {
    if xs == [] then []
    else
      var rest := SortBySeconds(xs[1..]);
      InsertSorted(xs[0], rest);
      InsertPermutes(xs[0], rest);
      assert xs == [xs[0]] + xs[1..];
      Insert(xs[0], rest)
  }

  predicate SortedDesc(xs: seq<LangAgg>) {
    forall i, j :: 0 <= i < j < |xs| ==> xs[i].seconds >= xs[j].seconds
  }

  /** The elements with `seconds == v`, in order. */
  function WithSeconds(xs: seq<LangAgg>, v: real): seq<LangAgg> {
    if xs == [] then []
    else (if xs[0].seconds == v then [xs[0]] else []) + WithSeconds(xs[1..], v)
  }

  lemma {:induction false} InsertPermutes(x: LangAgg, s: seq<LangAgg>)
    ensures multiset(Insert(x, s)) == multiset{x} + multiset(s)
  {
    if s != [] && x.seconds < s[0].seconds {
      InsertPermutes(x, s[1..]);
      assert s == [s[0]] + s[1..];
    }
  }

  lemma InsertMembers(x: LangAgg, s: seq<LangAgg>, e: LangAgg)
    requires e in Insert(x, s)
    ensures e == x || e in s
  {
    InsertPermutes(x, s);
    assert e in multiset(Insert(x, s));
  }

  lemma {:induction false} InsertSorted(x: LangAgg, s: seq<LangAgg>)
    requires SortedDesc(s)
    ensures SortedDesc(Insert(x, s))
  {
    if s != [] && x.seconds < s[0].seconds {
      var t := Insert(x, s[1..]);
      InsertSorted(x, s[1..]);
      forall e | e in t ensures s[0].seconds >= e.seconds {
        InsertMembers(x, s[1..], e);
      }
      assert Insert(x, s) == [s[0]] + t;
      forall j | 1 <= j < |Insert(x, s)| ensures s[0].seconds >= Insert(x, s)[j].seconds {
        assert Insert(x, s)[j] == t[j - 1];
      }
    }
  }

  lemma InsertStable(x: LangAgg, s: seq<LangAgg>, v: real)
    ensures WithSeconds(Insert(x, s), v) ==
      if x.seconds == v then [x] + WithSeconds(s, v) else WithSeconds(s, v)
    decreases |s|
  {
    if s == [] || x.seconds >= s[0].seconds {
      assert ([x] + s)[1..] == s;
    } else {
      InsertStable(x, s[1..], v);
      assert ([s[0]] + Insert(x, s[1..]))[1..] == Insert(x, s[1..]);
    }
  }

  /** Stability: the elements with any one number of seconds keep their relative order. */
  lemma {:induction false} SortStable(xs: seq<LangAgg>, v: real)
    ensures WithSeconds(SortBySeconds(xs), v) == WithSeconds(xs, v)
  {
    if xs != [] {
      var rest := SortBySeconds(xs[1..]);
      assert SortBySeconds(xs) == Insert(xs[0], rest);
      SortStable(xs[1..], v);
      InsertStable(xs[0], rest, v);
      assert WithSeconds(xs, v) == (if xs[0].seconds == v then [xs[0]] else []) + WithSeconds(xs[1..], v);
    }
  }

  lemma SortSameNames(xs: seq<LangAgg>)
    ensures forall n :: n in Names(SortBySeconds(xs)) <==> n in Names(xs)
  {
    var sorted := SortBySeconds(xs);
    forall n ensures n in Names(sorted) ==> n in Names(xs) {
      if n in Names(sorted) {
        var i :| 0 <= i < |sorted| && Names(sorted)[i] == n;
        assert sorted[i] in multiset(xs);
        var j :| 0 <= j < |xs| && xs[j] == sorted[i];
        assert Names(xs)[j] == n;
      }
    }
    forall n ensures n in Names(xs) ==> n in Names(sorted) {
      if n in Names(xs) {
        var i :| 0 <= i < |xs| && Names(xs)[i] == n;
        assert xs[i] in multiset(sorted);
        var j :| 0 <= j < |sorted| && sorted[j] == xs[i];
        assert Names(sorted)[j] == n;
      }
    }
  }

  lemma {:induction false} InsertNoDup(x: LangAgg, s: seq<LangAgg>)
    requires NoDup(Names(s)) && x.name !in Names(s)
    ensures NoDup(Names(Insert(x, s)))
  {
    if s != [] && x.seconds < s[0].seconds {
      var t := Insert(x, s[1..]);
      assert Names(s[1..]) == Names(s)[1..];
      InsertNoDup(x, s[1..]);
      forall j | 0 <= j < |t| ensures t[j].name != s[0].name {
        InsertMembers(x, s[1..], t[j]);
        if t[j] != x {
          var k :| 0 <= k < |s[1..]| && s[1..][k] == t[j];
          assert Names(s)[0] != Names(s)[k + 1];
        } else {
          assert Names(s)[0] == s[0].name;
        }
      }
      assert Insert(x, s) == [s[0]] + t;
    } else {
      assert Names(Insert(x, s)) == [x.name] + Names(s);
    }
  }

  /** Names that were distinct before the sort are distinct after it. */
  lemma {:induction false} SortNoDup(xs: seq<LangAgg>)
    requires NoDup(Names(xs))
    ensures NoDup(Names(SortBySeconds(xs)))
  {
    if xs != [] {
      assert Names(xs[1..]) == Names(xs)[1..];
      SortNoDup(xs[1..]);
      SortSameNames(xs[1..]);
      assert Names(xs)[0] == xs[0].name;
      InsertNoDup(xs[0], SortBySeconds(xs[1..]));
    }
  }

  /** Among elements with equal seconds, `rank` of the name increases. */
  predicate TiesOrdered(s: seq<LangAgg>, rank: string -> int) {
    forall i, j :: 0 <= i < j < |s| && s[i].seconds == s[j].seconds ==> rank(s[i].name) < rank(s[j].name)
  }

  predicate RankIncreasing(s: seq<LangAgg>, rank: string -> int) {
    forall i, j :: 0 <= i < j < |s| ==> rank(s[i].name) < rank(s[j].name)
  }

  lemma {:induction false} InsertTies(x: LangAgg, s: seq<LangAgg>, rank: string -> int)
    requires TiesOrdered(s, rank)
    requires forall e :: e in s ==> rank(x.name) < rank(e.name)
    ensures TiesOrdered(Insert(x, s), rank)
  {
    if s != [] && x.seconds < s[0].seconds {
      var t := Insert(x, s[1..]);
      InsertTies(x, s[1..], rank);
      assert Insert(x, s) == [s[0]] + t;
      forall j | 0 <= j < |t| && t[j].seconds == s[0].seconds ensures rank(s[0].name) < rank(t[j].name) {
        InsertMembers(x, s[1..], t[j]);
        var k :| 0 <= k < |s[1..]| && s[1..][k] == t[j];
        assert s[k + 1] == t[j];
      }
    }
  }

  /** Stability in terms of ranks: equal seconds keep the input's increasing rank order. */
  lemma {:induction false} SortTies(xs: seq<LangAgg>, rank: string -> int)
    requires RankIncreasing(xs, rank)
    ensures TiesOrdered(SortBySeconds(xs), rank)
  {
    if xs != [] {
      SortTies(xs[1..], rank);
      forall e | e in SortBySeconds(xs[1..]) ensures rank(xs[0].name) < rank(e.name) {
        assert e in multiset(xs[1..]);
        var k :| 0 <= k < |xs[1..]| && xs[1..][k] == e;
        assert xs[k + 1] == e;
      }
      InsertTies(xs[0], SortBySeconds(xs[1..]), rank);
    }
  }

  lemma {:induction false} SumCons(a: real, t: seq<real>)
    ensures Sum([a] + t) == a + Sum(t)
  {
    if t != [] {
      var n := |t| - 1;
      SumCons(a, t[..n]);
      assert ([a] + t)[..n + 1] == [a] + t[..n];
    }
  }

  lemma {:induction false} InsertPercentSum(x: LangAgg, s: seq<LangAgg>)
    ensures Sum(Percents(Insert(x, s))) == x.percent + Sum(Percents(s))
  {
    if s == [] || x.seconds >= s[0].seconds {
      assert Insert(x, s) == [x] + s;
      PercentSumCons(x, s);
    } else {
      var t := Insert(x, s[1..]);
      assert Insert(x, s) == [s[0]] + t;
      InsertPercentSum(x, s[1..]);
      PercentSumCons(s[0], t);
      assert s == [s[0]] + s[1..];
      PercentSumCons(s[0], s[1..]);
    }
  }

  lemma PercentSumCons(x: LangAgg, s: seq<LangAgg>)
    ensures Sum(Percents([x] + s)) == x.percent + Sum(Percents(s))
  {
    assert Percents([x] + s) == [x.percent] + Percents(s);
    SumCons(x.percent, Percents(s));
  }

  /** Sorting does not change the sum of the percents. */
  lemma {:induction false} SortPercentSum(xs: seq<LangAgg>)
    ensures Sum(Percents(SortBySeconds(xs))) == Sum(Percents(xs))
  {
    if xs != [] {
      SortPercentSum(xs[1..]);
      InsertPercentSum(xs[0], SortBySeconds(xs[1..]));
      assert Percents(xs) == [xs[0].percent] + Percents(xs[1..]);
      SumCons(xs[0].percent, Percents(xs[1..]));
    }
  }

  lemma {:induction false} SumUpdate(xs: seq<real>, i: int, v: real)
    requires 0 <= i < |xs|
    ensures Sum(xs[i := v]) == Sum(xs) - xs[i] + v
  {
    var n := |xs| - 1;
    if i == n {
      assert xs[i := v][..n] == xs[..n];
    } else {
      SumUpdate(xs[..n], i, v);
      assert xs[i := v][..n] == xs[..n][i := v];
    }
  }

  lemma BumpExistingTotal(m: seq<Item>, x: Item)
    requires NoDup(Keys(m)) && x.name in Keys(m)
    ensures Sum(SecondsOf(Bump(m, x))) == Sum(SecondsOf(m)) + x.seconds
  {
    var i :| 0 <= i < |m| && Keys(m)[i] == x.name;
    GetFindsEntry(m, i);
    var v := m[i].seconds + x.seconds;
    assert Bump(m, x) == Set(m, x.name, v);
    SecondsAfterSet(m, x.name, i, v);
    SumUpdate(SecondsOf(m), i, v);
  }

  lemma SecondsAfterSet(m: seq<Item>, k: string, i: int, v: real)
    requires NoDup(Keys(m)) && 0 <= i < |m| && m[i].name == k
    ensures SecondsOf(Set(m, k, v)) == SecondsOf(m)[i := v]
  {
    SetExisting(m, k, v);
    forall j | 0 <= j < |m| && m[j].name == k ensures j == i {
      NoDupAt(Keys(m), i, j);
    }
  }

  lemma BumpNewTotal(m: seq<Item>, x: Item)
    requires x.name !in Keys(m)
    ensures Sum(SecondsOf(Bump(m, x))) == Sum(SecondsOf(m)) + x.seconds
  {
    GetAbsent(m, x.name);
    SetNew(m, x.name, x.seconds);
    assert SecondsOf(Bump(m, x)) == SecondsOf(m) + [x.seconds];
    assert (SecondsOf(m) + [x.seconds])[..|m|] == SecondsOf(m);
  }

  /** The `Map` holds all the seconds of the items, no more and no less. */
  lemma {:induction false} AccumulateTotal(xs: seq<Item>)
    ensures Sum(SecondsOf(Accumulate(xs))) == Sum(SecondsOf(xs))
  {
    if xs != [] {
      var n := |xs| - 1;
      var m := Accumulate(xs[..n]);
      AccumulateTotal(xs[..n]);
      AccumulateGroups(xs[..n]);
      assert SecondsOf(xs)[..n] == SecondsOf(xs[..n]);
      if xs[n].name in Keys(m) {
        BumpExistingTotal(m, xs[n]);
      } else {
        BumpNewTotal(m, xs[n]);
      }
    }
  }

  // ---------------------------------------------------------------------------
  // agg
  // ---------------------------------------------------------------------------

  /**
    `agg(key)` over the items its two loops visit, in visiting order: every
    name of the items exactly once, with the sum of that name's seconds and
    its share of all the items' seconds, largest first.
   */
  function Agg(xs: seq<Item>): (r: seq<LangAgg>)
    ensures SortedDesc(r)
    ensures NoDup(Names(r))
    ensures forall n :: n in Names(r) <==> n in Keys(xs)
    ensures EntriesOf(r, xs)
  {
    SortedNames(xs);
    SortedEntries(xs);
    SortBySeconds(WithPercents(Accumulate(xs)))
  }

  lemma SortedNames(xs: seq<Item>)
    ensures var r := SortBySeconds(WithPercents(Accumulate(xs)));
      NoDup(Names(r)) && forall n :: n in Names(r) <==> n in Keys(xs)
  {
    var m := Accumulate(xs);
    var w := WithPercents(m);
    AccumulateGroups(xs);
    assert Names(w) == Keys(m);
    SortNoDup(w);
    SortSameNames(w);
  }

  /** Each entry `agg` builds holds its name's total and that total's share. */
  predicate EntriesOf(r: seq<LangAgg>, xs: seq<Item>) {
    forall i :: 0 <= i < |r| ==>
      && r[i].seconds == SumFor(xs, r[i].name)
      && r[i].percent == Share(r[i].seconds, Sum(SecondsOf(xs)))
  }

  lemma SortedEntries(xs: seq<Item>)
    ensures EntriesOf(SortBySeconds(WithPercents(Accumulate(xs))), xs)
  {
    var w := WithPercents(Accumulate(xs));
    var r := SortBySeconds(w);
    WithPercentsEntries(xs);
    forall i | 0 <= i < |r|
      ensures r[i].seconds == SumFor(xs, r[i].name)
      ensures r[i].percent == Share(r[i].seconds, Sum(SecondsOf(xs)))
    {
      assert r[i] in multiset(w);
      var k :| 0 <= k < |w| && w[k] == r[i];
    }
  }

  lemma WithPercentsEntries(xs: seq<Item>)
    ensures EntriesOf(WithPercents(Accumulate(xs)), xs)
  {
    AccumulateGroups(xs);
    AccumulateTotal(xs);
  }

  /** The percents of `agg` add up to 100, or to 0 when the items' seconds add up to 0. */
  lemma AggPercentSum(xs: seq<Item>)
    ensures Sum(Percents(Agg(xs))) == if Sum(SecondsOf(xs)) != 0.0 then 100.0 else 0.0
  {
    var m := Accumulate(xs);
    PercentsAddUp(m);
    SortPercentSum(WithPercents(m));
    AccumulateTotal(xs);
  }

  /** With no negative seconds and nothing that has any time, every percent of `agg` is 0. */
  lemma AggPercentsOfNothing(xs: seq<Item>)
    requires forall i :: 0 <= i < |xs| ==> xs[i].seconds >= 0.0
    requires Sum(SecondsOf(xs)) == 0.0
    ensures forall i :: 0 <= i < |Agg(xs)| ==> Agg(xs)[i].percent == 0.0
  {
    var r := Agg(xs);
    ZeroSumOfNonNegative(SecondsOf(xs));
    forall i | 0 <= i < |r| ensures r[i].percent == 0.0 {
      SumForOfZeros(xs, r[i].name);
    }
  }

  lemma {:induction false} SumForOfZeros(xs: seq<Item>, n: string)
    requires forall i :: 0 <= i < |xs| ==> SecondsOf(xs)[i] == 0.0
    ensures SumFor(xs, n) == 0.0
    decreases |xs|
  {
    if xs != [] {
      var k := |xs| - 1;
      forall i | 0 <= i < k ensures SecondsOf(xs[..k])[i] == 0.0 {
        assert SecondsOf(xs)[i] == 0.0;
      }
      SumForOfZeros(xs[..k], n);
      assert SecondsOf(xs)[k] == 0.0;
    }
  }

  /** Entries with equal seconds keep the order in which their names were first seen. */
  lemma AggTieOrder(xs: seq<Item>)
    ensures forall i, j :: 0 <= i < j < |Agg(xs)| && Agg(xs)[i].seconds == Agg(xs)[j].seconds ==>
      && Agg(xs)[i].name in Keys(xs) && Agg(xs)[j].name in Keys(xs)
      && FirstIndex(Keys(xs), Agg(xs)[i].name) < FirstIndex(Keys(xs), Agg(xs)[j].name)
  {
    var m := Accumulate(xs);
    var w := WithPercents(m);
    var ks := Keys(xs);
    var rank := (n: string) => if n in ks then FirstIndex(ks, n) else -1;
    AccumulateGroups(xs);
    assert RankIncreasing(w, rank);
    SortTies(w, rank);
  }
}
