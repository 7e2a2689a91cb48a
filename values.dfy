/** Value shapes shared by the scrapers: absent values, error-or-value results,
    JSON numbers as the feeds deliver them, and the cells of a gameline record. */
module Values {

  /** A value that may be absent: Python's `None`, or a dictionary key that is missing. */
  datatype Option<+T> = None | Some(value: T) {
    function GetOr(default: T): T {
      match this
      case Some(v) => v
      case None => default
    }
  }

  /** A dictionary key as the JSON delivers it: missing, present with the value null, or present
      with a value. Python reads a null as `None`, which is not always what a missing key gives. */
  datatype Field<+T> = Missing | Null | Present(value: T) {
    /** `d.get(key)`: `None` for a missing key and for a null alike. */
    function Get(): Option<T> {
      if Present? then Some(value) else None
    }

    /** `d[key]`: `None` when the missing key raises `KeyError`, else the value read, `None` for a null. */
    function Subscript(): Option<Option<T>> {
      match this
      case Missing => None
      case Null => Some(None)
      case Present(v) => Some(Some(v))
    }

    /** `d.get(key, default)`: the default only for a missing key; a null still reads as `None`. */
    function GetOr(default: T): Option<T> {
      match this
      case Missing => Some(default)
      case Null => None
      case Present(v) => Some(v)
    }
  }

  /** A computation that either yields a value or raises the exception named by `error`. */
  datatype Result<+T, +E> = Ok(value: T) | Err(error: E)

  /** A JSON number as the upstream feeds deliver it: an integer, or a float that lies
      on the half-point grid (`halves` is twice its value). */
  datatype Num = IntNum(i: int) | FloatNum(halves: int)

  function Abs(x: int): nat {
    if x < 0 then -x else x
  }

  /** The numeric value of `n`, in half-points, so that ints and floats compare as Python compares them. */
  function Halves(n: Num): int {
    match n
    case IntNum(i) => 2 * i
    case FloatNum(h) => h
  }

  /** Python's `abs`, which keeps an int an int and a float a float. */
  function AbsNum(n: Num): (r: Num)
    ensures Halves(r) == Abs(Halves(n))
    ensures r.IntNum? == n.IntNum?
  {
    match n
    case IntNum(i) => IntNum(Abs(i))
    case FloatNum(h) => FloatNum(Abs(h))
  }

  /** One field of a gameline record: a text such as 'N/A' or '-110', a number passed through from
      the feed, or Python's `None` copied from a null in the feed. */
  datatype Cell = Str(s: string) | Number(n: Num) | NoValue

  /** The placeholder the scrapers write where no odds are known. */
  const NotAvailable: Cell := Str("N/A")

  /** Applying `f` to each element in turn, stopping at the first element whose result is an
      error: a Python loop whose body may raise. */
  function MapAll<A, B, E>(f: A -> Result<B, E>, xs: seq<A>): Result<seq<B>, E> {
    if xs == [] then Ok([])
    else
      match MapAll(f, xs[..|xs| - 1])
      case Err(e) => Err(e)
      case Ok(ys) =>
        match f(xs[|xs| - 1])
        case Err(e) => Err(e)
        case Ok(y) => Ok(ys + [y])
  }

  /** Once a prefix fails, the whole sequence fails with the same error. */
  lemma {:induction false} MapAllPrefixFailure<A, B, E>(f: A -> Result<B, E>, xs: seq<A>, n: nat)
    requires n <= |xs| && MapAll(f, xs[..n]).Err?
    ensures MapAll(f, xs) == MapAll(f, xs[..n])
    decreases |xs| - n
  {
    if n < |xs| {
      assert xs[..n + 1][..n] == xs[..n];
      MapAllPrefixFailure(f, xs, n + 1);
    } else {
      assert xs[..n] == xs;
    }
  }

  /** A success has one result per element, in order. */
  lemma {:induction false} MapAllKeepsOrder<A, B, E>(f: A -> Result<B, E>, xs: seq<A>)
    requires MapAll(f, xs).Ok?
    ensures |MapAll(f, xs).value| == |xs|
    ensures forall k :: 0 <= k < |xs| ==> f(xs[k]) == Ok(MapAll(f, xs).value[k])
  {
    if xs != [] {
      var init := xs[..|xs| - 1];
      MapAllKeepsOrder(f, init);
      assert forall k :: 0 <= k < |init| ==> init[k] == xs[k];
    }
  }

  /** The whole succeeds exactly when every element does; a failure is the error of the first failing element. */
  lemma {:induction false} MapAllFailsAtFirstError<A, B, E>(f: A -> Result<B, E>, xs: seq<A>)
    ensures MapAll(f, xs).Ok? <==> forall k :: 0 <= k < |xs| ==> f(xs[k]).Ok?
    ensures MapAll(f, xs).Err? ==>
      exists k :: 0 <= k < |xs| && f(xs[k]) == Err(MapAll(f, xs).error) &&
                  forall m :: 0 <= m < k ==> f(xs[m]).Ok?
  {
    if xs != [] {
      var init := xs[..|xs| - 1];
      MapAllFailsAtFirstError(f, init);
      assert forall k :: 0 <= k < |init| ==> init[k] == xs[k];
      if MapAll(f, init).Ok? && MapAll(f, xs).Err? {
        assert f(xs[|xs| - 1]) == Err(MapAll(f, xs).error);
      }
    }
  }

  /** Applying `f` to each element in turn and keeping the values it yields: a Python loop
      that appends a result for each element and skips the elements whose body raised. */
  function Survivors<A, B>(f: A -> Option<B>, xs: seq<A>): seq<B> {
    if xs == [] then []
    else
      Survivors(f, xs[..|xs| - 1])
      + match f(xs[|xs| - 1])
        case None => []
        case Some(y) => [y]
  }

  /** The survivors are yielded by elements, in order, and are one per element when no element fails. */
  lemma {:induction false} SurvivorsComeFromElements<A, B>(f: A -> Option<B>, xs: seq<A>)
    ensures |Survivors(f, xs)| <= |xs|
    ensures forall n :: 0 <= n < |Survivors(f, xs)| ==>
      exists k :: 0 <= k < |xs| && f(xs[k]) == Some(Survivors(f, xs)[n])
    ensures (forall k :: 0 <= k < |xs| ==> f(xs[k]).Some?) ==>
      |Survivors(f, xs)| == |xs| && forall k :: 0 <= k < |xs| ==> f(xs[k]) == Some(Survivors(f, xs)[k])
  {
    if xs != [] {
      var init := xs[..|xs| - 1];
      SurvivorsComeFromElements(f, init);
      assert forall k :: 0 <= k < |init| ==> init[k] == xs[k];
      var out := Survivors(f, xs);
      var prev := Survivors(f, init);
      forall n | 0 <= n < |out|
        ensures exists k :: 0 <= k < |xs| && f(xs[k]) == Some(out[n])
      {
        if n < |prev| {
          assert out[n] == prev[n];
          var k :| 0 <= k < |init| && f(init[k]) == Some(prev[n]);
          assert f(xs[k]) == Some(out[n]);
        } else {
          assert f(xs[|xs| - 1]) == Some(out[n]);
        }
      }
    }
  }

  /** `[x for x in xs if key(x) == v]`. */
  function Matching<T, K(==)>(key: T -> K, v: K, xs: seq<T>): (r: seq<T>)
    ensures |r| <= |xs|
    ensures forall n :: 0 <= n < |r| ==> key(r[n]) == v && r[n] in xs
    ensures forall k :: 0 <= k < |xs| && key(xs[k]) == v ==> xs[k] in r
    ensures r == [] <==> forall k :: 0 <= k < |xs| ==> key(xs[k]) != v
  {
    if xs == [] then []
    else
      var init, last := xs[..|xs| - 1], xs[|xs| - 1];
      assert forall k :: 0 <= k < |init| ==> init[k] == xs[k];
      Matching(key, v, init) + if key(last) == v then [last] else []
  }

  /** The positions of the elements of `xs` whose key is `v`, in increasing order. */
  function MatchingPositions<T, K(==)>(key: T -> K, v: K, xs: seq<T>): seq<nat> {
    if xs == [] then []
    else MatchingPositions(key, v, xs[..|xs| - 1]) + if key(xs[|xs| - 1]) == v then [|xs| - 1] else []
  }

  /** `r` lists the elements of `xs` at the strictly increasing positions `pos`. */
  ghost predicate PicksInOrder<T>(r: seq<T>, xs: seq<T>, pos: seq<nat>) {
    |pos| == |r| &&
    (forall n :: 0 <= n < |pos| ==> pos[n] < |xs| && r[n] == xs[pos[n]]) &&
    (forall n, m :: 0 <= n < m < |pos| ==> pos[n] < pos[m])
  }

  /** The comprehension keeps exactly the elements whose key is `v`, each once and in their order. */
  lemma MatchingPicksTheMatches<T, K>(key: T -> K, v: K, xs: seq<T>)
    ensures PicksInOrder(Matching(key, v, xs), xs, MatchingPositions(key, v, xs))
    ensures forall k :: 0 <= k < |xs| ==> (k in MatchingPositions(key, v, xs) <==> key(xs[k]) == v)
  {
    PositionsAreTheMatches(key, v, xs);
    MatchingAtPositions(key, v, xs);
  }

  lemma {:induction false} PositionsAreTheMatches<T, K>(key: T -> K, v: K, xs: seq<T>)
    ensures forall n :: 0 <= n < |MatchingPositions(key, v, xs)| ==> MatchingPositions(key, v, xs)[n] < |xs|
    ensures forall n, m :: 0 <= n < m < |MatchingPositions(key, v, xs)| ==>
      MatchingPositions(key, v, xs)[n] < MatchingPositions(key, v, xs)[m]
    ensures forall k :: 0 <= k < |xs| ==> (k in MatchingPositions(key, v, xs) <==> key(xs[k]) == v)
  {
    if xs != [] {
      var init := xs[..|xs| - 1];
      PositionsAreTheMatches(key, v, init);
      var p0, pos := MatchingPositions(key, v, init), MatchingPositions(key, v, xs);
      assert pos == p0 + if key(xs[|xs| - 1]) == v then [|xs| - 1] else [];
      forall k | 0 <= k < |init| ensures k in pos <==> key(xs[k]) == v {
        assert init[k] == xs[k];
      }
    }
  }

  lemma {:induction false} MatchingAtPositions<T, K>(key: T -> K, v: K, xs: seq<T>)
    ensures |Matching(key, v, xs)| == |MatchingPositions(key, v, xs)|
    ensures forall n :: 0 <= n < |MatchingPositions(key, v, xs)| ==>
      MatchingPositions(key, v, xs)[n] < |xs| && Matching(key, v, xs)[n] == xs[MatchingPositions(key, v, xs)[n]]
  {
    if xs != [] {
      var init := xs[..|xs| - 1];
      MatchingAtPositions(key, v, init);
      var r0, p0 := Matching(key, v, init), MatchingPositions(key, v, init);
      var r, pos := Matching(key, v, xs), MatchingPositions(key, v, xs);
      assert pos == p0 + if key(xs[|xs| - 1]) == v then [|xs| - 1] else [];
      assert r == r0 + if key(xs[|xs| - 1]) == v then [xs[|xs| - 1]] else [];
      forall n | 0 <= n < |p0| ensures r[n] == xs[pos[n]] {
        assert init[p0[n]] == xs[p0[n]];
      }
    }
  }

  lemma AppendAssociative<T>(a: seq<T>, b: seq<T>, c: seq<T>)
    ensures a + (b + c) == (a + b) + c
  {
  }
}
