/** Option and Python truthiness of optional text arguments. */
module Optional {

  datatype Option<+T> = None | Some(value: T)

  /** Python's truth test on an optional string argument (`if state_name:`):
      both `None` and the empty string count as absent. */
  predicate Given(s: Option<string>) {
    s.Some? && s.value != ""
  }
}

/** The sequence operations the query engine composes: boolean-mask
    filtering, distinct values, and the sorted list of distinct values
    (`sorted(column.unique().tolist())`). */
module Collections {
  import opened Strings

  /** `a` is `b` with some elements dropped, the rest kept in order. */
  predicate IsSubsequence<T(==)>(a: seq<T>, b: seq<T>)
    decreases |b|
  {
    if a == [] then true
    else if b == [] then false
    else if a[0] == b[0] then IsSubsequence(a[1..], b[1..])
    else IsSubsequence(a, b[1..])
  }

  /** Row selection by a boolean mask: the elements of `s` that satisfy
      `keep`, each as often as it occurs in `s`, in the order of `s`. */
  function Filter<T(==,!new)>(s: seq<T>, keep: T -> bool): (r: seq<T>)
    ensures |r| <= |s|
    ensures forall x {:trigger multiset(r)[x]} :: multiset(r)[x] == if keep(x) then multiset(s)[x] else 0
    ensures forall x :: x in r <==> x in s && keep(x)
    ensures IsSubsequence(r, s)
  {
    if s == [] then []
    else
      assert s == [s[0]] + s[1..];
      var rest := Filter(s[1..], keep);
      if keep(s[0]) then
        assert ([s[0]] + rest)[1..] == rest;
        [s[0]] + rest
      else rest
  }

  /** Two masks that agree on every element select the same rows. */
  lemma {:induction false} FilterSameMask<T(!new)>(s: seq<T>, f: T -> bool, g: T -> bool)
    requires forall x :: f(x) == g(x)
    ensures Filter(s, f) == Filter(s, g)
  {
    if s != [] {
      FilterSameMask(s[1..], f, g);
    }
  }

  /** The first selected row is the first row of `s` that satisfies the mask. */
  lemma {:induction false} FilterFirst<T(!new)>(s: seq<T>, keep: T -> bool, i: nat)
    requires i < |s| && keep(s[i])
    requires forall j :: 0 <= j < i ==> !keep(s[j])
    ensures Filter(s, keep) != [] && Filter(s, keep)[0] == s[i]
  {
    if i > 0 {
      FilterFirst(s[1..], keep, i - 1);
    }
  }

  /** The distinct values of a column (`set(column)`). */
  function Distinct<T>(s: seq<T>): set<T> {
    set x | x in s
  }

  /** There are never more distinct values than rows. */
  lemma {:induction false} DistinctAtMostLength<T>(s: seq<T>)
    ensures |Distinct(s)| <= |s|
  {
    if s != [] {
      DistinctAtMostLength(s[1..]);
      assert Distinct(s) == Distinct(s[1..]) + {s[0]};
    }
  }

  predicate StrictlySorted(s: seq<string>) {
    forall i, j :: 0 <= i < j < |s| ==> Less(s[i], s[j])
  }

  /** A strictly increasing sequence repeats nothing, so it has exactly as
      many distinct values as elements. */
  lemma {:induction false} StrictlySortedDistinct(s: seq<string>)
    requires StrictlySorted(s)
    ensures |Distinct(s)| == |s|
  {
    if s != [] {
      StrictlySortedDistinct(s[1..]);
      assert Distinct(s) == Distinct(s[1..]) + {s[0]};
      if s[0] in s[1..] {
        var j :| 0 <= j < |s[1..]| && s[1..][j] == s[0];
        assert Less(s[0], s[j + 1]);
        LessIrreflexive(s[0]);
      }
    }
  }

  /** Inserts `x` into a strictly increasing sequence unless it is there. */
  function Insert(x: string, ys: seq<string>): (r: seq<string>)
    requires StrictlySorted(ys)
    ensures StrictlySorted(r)
    ensures forall z :: z in r <==> z == x || z in ys
  {
    if ys == [] then [x]
    else if x == ys[0] then ys
    else if Less(x, ys[0]) then
      assert forall j :: 0 < j < |ys| ==> Less(ys[0], ys[j]);
      forall j | 0 <= j < |ys| ensures Less(x, ys[j]) {
        if j > 0 { LessTransitive(x, ys[0], ys[j]); }
      }
      [x] + ys
    else
      LessTotal(x, ys[0]);
      var rest := Insert(x, ys[1..]);
      assert forall z :: z in rest ==> z == x || z in ys[1..];
      forall z | z in rest ensures Less(ys[0], z) {
        if z != x {
          var j :| 0 <= j < |ys[1..]| && ys[1..][j] == z;
          assert Less(ys[0], ys[j + 1]);
        }
      }
      assert ys == [ys[0]] + ys[1..];
      [ys[0]] + rest
  }

  /** `sorted(set(xs))`: the distinct values of `xs` in increasing order. */
  function SortedUnique(xs: seq<string>): (r: seq<string>)
    ensures StrictlySorted(r)
    ensures forall z :: z in r <==> z in xs
    ensures |r| == |Distinct(xs)|
  {
    if xs == [] then []
    else
      var r := Insert(xs[0], SortedUnique(xs[1..]));
      assert xs == [xs[0]] + xs[1..];
      assert Distinct(r) == Distinct(xs);
      StrictlySortedDistinct(r);
      r
  }
}
