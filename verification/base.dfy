/** Small shared vocabulary: optional values, results, and prefix-taking. */
module Base {

  /** A value that may be absent; stands for JavaScript's `null`/`undefined`. */
  datatype Option<+T> = None | Some(value: T) {

    /** The carried value, or `d` when absent (JavaScript's `x ?? d`). */
    function GetOr(d: T): T {
      if Some? then value else d
    }
  }

  /** Either a value or an error; stands for a route's JSON answer or its 4xx rejection. */
  datatype Result<+T, +E> = Ok(value: T) | Err(error: E)

  function Min(a: int, b: int): int {
    if a <= b then a else b
  }

  /** JavaScript's `xs.slice(0, n)`: at most the first `n` elements. */
  function Take<T>(xs: seq<T>, n: nat): (r: seq<T>)
    ensures |r| == Min(|xs|, n)
    ensures r <= xs
  {
    if |xs| <= n then xs else xs[..n]
  }

  /** The index of the first element from position `i` on that satisfies
      `p` (JavaScript's `findIndex`), or `|xs|` when there is none. */
  function FirstWhere<T>(xs: seq<T>, i: nat, p: T -> bool): (k: nat)
    ensures k == |xs| || (i <= k < |xs| && p(xs[k]))
    ensures forall l | i <= l < k && l < |xs| :: !p(xs[l])
    decreases |xs| - i
  {
    if i >= |xs| then |xs| else if p(xs[i]) then i else FirstWhere(xs, i + 1, p)
  }

  /** The values `f` yields on `xs`, in order, skipping the elements it
      yields nothing for. */
  function FilterMap<A, B>(xs: seq<A>, f: A -> Option<B>): (r: seq<B>)
    ensures |r| <= |xs|
    ensures forall k | 0 <= k < |r| :: exists j | 0 <= j < |xs| :: f(xs[j]) == Some(r[k])
  {
    if |xs| == 0 then []
    else
      assert forall j | 0 <= j < |xs| - 1 :: xs[1..][j] == xs[j + 1];
      if f(xs[0]).Some? then [f(xs[0]).value] + FilterMap(xs[1..], f) else FilterMap(xs[1..], f)
  }

  /** `FilterMap` takes the first element's value, if any, and goes on. */
  lemma FilterMapCons<A, B>(xs: seq<A>, f: A -> Option<B>)
    requires |xs| > 0
    ensures FilterMap(xs, f) == (if f(xs[0]).Some? then [f(xs[0]).value] else []) + FilterMap(xs[1..], f)
  {
  }

  /** The head and tail of a concatenation whose left part is not empty. */
  lemma AppendTail<T>(x: seq<T>, y: seq<T>)
    requires |x| > 0
    ensures (x + y)[0] == x[0] && (x + y)[1..] == x[1..] + y
  {
  }

  /** Concatenation regroups freely. */
  lemma AppendAssoc<T>(x: seq<T>, y: seq<T>, z: seq<T>)
    ensures x + (y + z) == (x + y) + z
  {
  }

  /** A loop over `xs` that keeps what `f` yields and stops once it holds
      `budget` values. */
  function FilterMapUpTo<A, B>(xs: seq<A>, f: A -> Option<B>, budget: nat): (r: seq<B>)
    ensures |r| <= budget
    ensures r == Take(FilterMap(xs, f), budget)
  {
    if |xs| == 0 || budget == 0 then []
    else if f(xs[0]).Some? then [f(xs[0]).value] + FilterMapUpTo(xs[1..], f, budget - 1)
    else FilterMapUpTo(xs[1..], f, budget)
  }

  /** JavaScript's `new Map(xs.map(f))` (and `Object.fromEntries`): every
      key that occurs is present, bound to the value of its last entry. */
  function MapBy<A, K(!new), V>(xs: seq<A>, f: A -> (K, V)): (m: map<K, V>)
    ensures forall key :: key in m <==> exists k | 0 <= k < |xs| :: f(xs[k]).0 == key
    ensures forall key | key in m :: exists k | 0 <= k < |xs| :: f(xs[k]) == (key, m[key])
    ensures forall k | 0 <= k < |xs| ::
              (forall l | k < l < |xs| :: f(xs[l]).0 != f(xs[k]).0) ==> m[f(xs[k]).0] == f(xs[k]).1
  {
    if |xs| == 0 then map[]
    else
      var m := MapBy(xs[..|xs| - 1], f);
      MapByStep(xs, f, m);
      m[f(xs[|xs| - 1]).0 := f(xs[|xs| - 1]).1]
  }

  /** Adding the last entry keeps what `MapBy` promises. */
  lemma {:induction false} MapByStep<A, K(!new), V>(xs: seq<A>, f: A -> (K, V), m: map<K, V>)
    requires |xs| > 0
    requires var init := xs[..|xs| - 1];
             && (forall key :: key in m <==> exists k | 0 <= k < |init| :: f(init[k]).0 == key)
             && (forall key | key in m :: exists k | 0 <= k < |init| :: f(init[k]) == (key, m[key]))
             && (forall k | 0 <= k < |init| ::
                   (forall l | k < l < |init| :: f(init[l]).0 != f(init[k]).0) ==> m[f(init[k]).0] == f(init[k]).1)
    ensures var r := m[f(xs[|xs| - 1]).0 := f(xs[|xs| - 1]).1];
            && (forall key :: key in r <==> exists k | 0 <= k < |xs| :: f(xs[k]).0 == key)
            && (forall key | key in r :: exists k | 0 <= k < |xs| :: f(xs[k]) == (key, r[key]))
            && (forall k | 0 <= k < |xs| ::
                  (forall l | k < l < |xs| :: f(xs[l]).0 != f(xs[k]).0) ==> r[f(xs[k]).0] == f(xs[k]).1)
  {
    var n := |xs| - 1;
    var init := xs[..n];
    assert forall k | 0 <= k < n :: init[k] == xs[k];
    var last := f(xs[n]);
    var r := m[last.0 := last.1];
    forall key ensures key in r <==> exists k | 0 <= k < |xs| :: f(xs[k]).0 == key {
      if key == last.0 {
        assert f(xs[n]).0 == key;
      } else if exists k | 0 <= k < |xs| :: f(xs[k]).0 == key {
        var k :| 0 <= k < |xs| && f(xs[k]).0 == key;
        assert k < n;
      }
    }
    forall key | key in r ensures exists k | 0 <= k < |xs| :: f(xs[k]) == (key, r[key]) {
      if key == last.0 {
        assert f(xs[n]) == (key, r[key]);
      } else {
        var k :| 0 <= k < n && f(xs[k]) == (key, m[key]);
        assert f(xs[k]) == (key, r[key]);
      }
    }
    forall k | 0 <= k < |xs| && (forall l | k < l < |xs| :: f(xs[l]).0 != f(xs[k]).0)
      ensures r[f(xs[k]).0] == f(xs[k]).1
    {
      if k < n {
        assert f(xs[n]).0 != f(xs[k]).0;
        assert forall l | k < l < n :: f(xs[l]).0 != f(xs[k]).0;
      }
    }
  }

  /** `map.get(key)`. */
  function Get<K, V>(m: map<K, V>, key: K): (r: Option<V>)
    ensures r.Some? <==> key in m
    ensures r.Some? ==> r.value == m[key]
  {
    if key in m then Some(m[key]) else None
  }

  /** How many elements of `xs` satisfy `p`. */
  function Count<T>(xs: seq<T>, p: T -> bool): (n: nat)
    ensures n <= |xs|
    ensures n == |xs| <==> forall k | 0 <= k < |xs| :: p(xs[k])
    ensures n == 0 <==> forall k | 0 <= k < |xs| :: !p(xs[k])
  {
    if |xs| == 0 then 0
    else
      assert forall j | 0 <= j < |xs| - 1 :: xs[1..][j] == xs[j + 1];
      (if p(xs[0]) then 1 else 0) + Count(xs[1..], p)
  }

  // ---------------------------------------------------------------------------
  // Relations

  /** A joined relation as the client library returns it: absent, one
      object, or an array of objects. */
  datatype Relation<T> = Absent | One(item: T) | Many(items: seq<T>)

  /** `Array.isArray(v) ? v[0] ?? null : v ?? null`. */
  function FlattenRelation<T>(rel: Relation<T>): (r: Option<T>)
    ensures rel.Absent? ==> r.None?
    ensures rel.One? ==> r == Some(rel.item)
    ensures rel.Many? ==> (r.Some? <==> |rel.items| > 0)
    ensures rel.Many? && |rel.items| > 0 ==> r == Some(rel.items[0])
  {
    match rel
    case Absent => None
    case One(item) => Some(item)
    case Many(items) => if |items| > 0 then Some(items[0]) else None
  }
}
