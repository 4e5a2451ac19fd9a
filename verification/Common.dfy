// Stock datatypes and the sequence filter shared by the models.
module Common {

  datatype Option<+T> = None | Some(value: T) {

    function GetOr(default: T): T {
      if None? then default else value
    }
  }

  datatype Result<+T, +E> = Ok(value: T) | Err(error: E)

  /** The SQL function COALESCE on two arguments. */
  function Coalesce<T>(a: Option<T>, b: Option<T>): Option<T> {
    if a.Some? then a else b
  }

  /** The smaller of two nullable numbers; null only if both are. */
  function Least(a: Option<real>, b: Option<real>): Option<real> {
    if a.None? then b else if b.None? then a
    else if b.value < a.value then b else a
  }

  /** The greater of two nullable numbers; null only if both are. */
  function Greatest(a: Option<real>, b: Option<real>): Option<real> {
    if a.None? then b else if b.None? then a
    else if a.value < b.value then b else a
  }

  function Max(a: int, b: int): int {
    if a < b then b else a
  }

  function Min(a: int, b: int): int {
    if b < a then b else a
  }

  lemma Inhabited<T>(s: seq<T>)
    ensures s != [] ==> exists x :: x in s
  {
    if s != [] {
      assert s[0] in s;
    }
  }

  lemma SomeElement<T>(s: set<T>) returns (x: T)
    requires s != {}
    ensures x in s
  {
    x :| x in s;
  }

  /** Some key of a map, as iterating it would yield. */
  method SomeKey<K(==), V>(m: map<K, V>) returns (key: K)
    requires m != map[]
    ensures key in m
  {
    assert m.Keys != {};
    key :| key in m.Keys;
  }

  /** The elements of `s` that satisfy `keep`, in order: a WHERE clause. */
  function Filter<T>(keep: T -> bool, s: seq<T>): seq<T> {
    if |s| == 0 then []
    else
      var rest := Filter(keep, s[..|s| - 1]);
      if keep(s[|s| - 1]) then rest + [s[|s| - 1]] else rest
  }

  lemma {:induction false} FilterShrinks<T>(keep: T -> bool, s: seq<T>)
    ensures |Filter(keep, s)| <= |s|
  {
    if s != [] {
      FilterShrinks(keep, s[..|s| - 1]);
    }
  }

  /** Two filters that select opposite elements share the sequence between them. */
  lemma {:induction false} FilterSplits<T>(keep: T -> bool, drop: T -> bool, s: seq<T>)
    requires forall x | x in s :: drop(x) == !keep(x)
    ensures |Filter(keep, s)| + |Filter(drop, s)| == |s|
  {
    if s != [] {
      FilterSplits(keep, drop, s[..|s| - 1]);
    }
  }

  lemma FilterSnoc<T>(keep: T -> bool, s: seq<T>, x: T)
    ensures Filter(keep, s + [x]) == Filter(keep, s) + if keep(x) then [x] else []
  {
    assert (s + [x])[..|s|] == s;
  }

  lemma {:induction false} FilterAppend<T>(keep: T -> bool, s: seq<T>, t: seq<T>)
    ensures Filter(keep, s + t) == Filter(keep, s) + Filter(keep, t)
  {
    if t == [] {
      assert s + t == s;
    } else {
      var n := |t| - 1;
      assert (s + t) == (s + t[..n]) + [t[n]];
      FilterSnoc(keep, s + t[..n], t[n]);
      FilterAppend(keep, s, t[..n]);
    }
  }

  /** A filter keeps exactly the rows it selects, with their multiplicity. */
  lemma {:induction false} FilterCount<T>(keep: T -> bool, s: seq<T>, x: T)
    ensures multiset(Filter(keep, s))[x] == if keep(x) then multiset(s)[x] else 0
  {
    if s != [] {
      var n := |s| - 1;
      FilterCount(keep, s[..n], x);
      assert s == s[..n] + [s[n]];
    }
  }

  lemma FilterElements<T>(keep: T -> bool, s: seq<T>)
    ensures forall x :: x in Filter(keep, s) <==> x in s && keep(x)
  {
    forall x ensures x in Filter(keep, s) <==> x in s && keep(x) {
      FilterCount(keep, s, x);
      assert x in Filter(keep, s) <==> x in multiset(Filter(keep, s));
      assert x in s <==> x in multiset(s);
    }
  }

  lemma FilterMember<T>(keep: T -> bool, s: seq<T>, i: nat) returns (j: nat)
    requires i < |Filter(keep, s)|
    ensures j < |s| && s[j] == Filter(keep, s)[i] && keep(s[j])
  {
    var n := |s| - 1;
    if i == |Filter(keep, s[..n])| {
      j := n;
    } else {
      j := FilterMember(keep, s[..n], i);
    }
  }

  lemma {:induction false} FilterCongruence<T>(f: T -> bool, g: T -> bool, s: seq<T>)
    requires forall x | x in s :: f(x) == g(x)
    ensures Filter(f, s) == Filter(g, s)
  {
    if s != [] {
      FilterCongruence(f, g, s[..|s| - 1]);
    }
  }

  lemma SameElements<T>(a: set<T>, b: set<T>)
    requires forall x :: x in a <==> x in b
    ensures a == b
  {
  }

  lemma SameCounts<T>(a: multiset<T>, b: multiset<T>)
    requires forall x :: a[x] == b[x]
    ensures a == b
  {
  }

  /** Filtering commutes with reordering. */
  lemma FilterPermutation<T>(keep: T -> bool, s: seq<T>, t: seq<T>)
    requires multiset(s) == multiset(t)
    ensures multiset(Filter(keep, s)) == multiset(Filter(keep, t))
  {
    var a, b := multiset(Filter(keep, s)), multiset(Filter(keep, t));
    forall x ensures a[x] == b[x] {
      FilterCount(keep, s, x);
      FilterCount(keep, t, x);
    }
    SameCounts(a, b);
  }
}
