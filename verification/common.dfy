/**
 * Values shared by every tool adapter: optional values, success-or-error
 * results, JavaScript's `||` on optional strings, and the "map then drop the
 * nulls" pattern the adapters use to shape provider responses.
 */
module Common {

  /** A value that may be absent (`undefined` or `null` in the adapters). */
  datatype Option<+T> = None | Some(value: T) {
    function GetOr(default: T): T {
      match this
      case Some(v) => v
      case None => default
    }
  }

  /** The outcome of an adapter step that may throw. */
  datatype Result<+T, +E> = Ok(value: T) | Err(error: E)

  /**
   * `a || b` on an optional string: JavaScript treats both a missing string
   * and the empty string as false, so either one falls through to `b`.
   */
  function Or(a: Option<string>, b: string): (r: string)
    ensures Truthy(a) ==> r == a.value
    ensures !Truthy(a) ==> r == b
  {
    if a.Some? && a.value != "" then a.value else b
  }

  /** `a || b` where both sides may be absent. */
  function OrElse(a: Option<string>, b: Option<string>): (r: Option<string>)
    ensures Truthy(a) ==> r == a
    ensures !Truthy(a) ==> r == b
  {
    if a.Some? && a.value != "" then a else b
  }

  /** JavaScript truthiness of an optional string. */
  predicate Truthy(a: Option<string>) {
    a.Some? && a.value != ""
  }

  /** A parsed JSON body, as `res.json()` yields it. */
  datatype Json =
    | JNull
    | JBool(b: bool)
    | JNumber(n: real)
    | JString(s: string)
    | JArray(items: seq<Json>)
    | JObject(fields: map<string, Json>)

  /** JavaScript falsiness of a JSON value: null, false, 0 and the empty string. */
  predicate Falsy(j: Json) {
    j == JNull || j == JBool(false) || j == JNumber(0.0) || j == JString("")
  }

  /** `j || undefined`. */
  function DefinedIfTruthy(j: Json): (r: Option<Json>)
    ensures r.None? <==> Falsy(j)
    ensures r.Some? ==> r.value == j
  {
    if Falsy(j) then None else Some(j)
  }

  /** `xs.findIndex(p)`, with `None` for -1: the first position whose element satisfies `p`. */
  function FindFirst<T>(xs: seq<T>, p: T -> bool): (r: Option<nat>)
    ensures r.Some? ==> r.value < |xs| && p(xs[r.value])
    ensures forall j :: 0 <= j < |xs| && (r.None? || j < r.value) ==> !p(xs[j])
  {
    if xs == [] then None
    else if p(xs[0]) then Some(0)
    else match FindFirst(xs[1..], p)
      case None => None
      case Some(k) => Some(k + 1)
  }

  /** `xs.slice(0, n)`. */
  function Take<T>(xs: seq<T>, n: nat): (r: seq<T>)
    ensures |r| == if |xs| < n then |xs| else n
    ensures r == xs[..|r|]
  {
    if |xs| <= n then xs else xs[..n]
  }

  /**
   * `xs.map(f).filter(x => x !== null)`: apply `f` to every element and keep
   * the values it produces, in order.
   */
  function FilterMap<A, B>(xs: seq<A>, f: A -> Option<B>): (r: seq<B>)
    ensures |r| <= |xs|
  {
    if xs == [] then []
    else FilterMap(xs[..|xs| - 1], f) + (match f(xs[|xs| - 1]) case Some(b) => [b] case None => [])
  }

  /** True when `idx` lists positions of `xs` in strictly increasing order. */
  ghost predicate Increasing(idx: seq<nat>) {
    forall j, k :: 0 <= j < k < |idx| ==> idx[j] < idx[k]
  }

  /**
   * The positions of `xs` whose image under `f` is kept by FilterMap, in
   * increasing order; the j-th kept value is the image of the j-th such
   * position. `KeptPositionsExact` shows these are exactly the positions
   * where `f` produces a value.
   */
  ghost function KeptPositions<A, B>(xs: seq<A>, f: A -> Option<B>): (idx: seq<nat>)
    ensures |idx| == |FilterMap(xs, f)|
    ensures Increasing(idx)
    ensures forall j :: 0 <= j < |idx| ==> idx[j] < |xs|
    ensures forall j :: 0 <= j < |idx| ==> f(xs[idx[j]]) == Some(FilterMap(xs, f)[j])
  {
    if xs == [] then []
    else
      var front := xs[..|xs| - 1];
      assert forall i :: 0 <= i < |front| ==> front[i] == xs[i];
      KeptPositions(front, f) + (if f(xs[|xs| - 1]).Some? then [|xs| - 1] else [])
  }

  /** Positions all below n, with n appended when kept: membership of each part. */
  lemma AppendPosition(kept: seq<nat>, n: nat, keep: bool, i: nat)
    requires forall j :: 0 <= j < |kept| ==> kept[j] < n
    ensures i in kept + (if keep then [n] else []) <==> (i < n && i in kept) || (keep && i == n)
  {
  }

  /** The kept positions are exactly those where `f` produces a value. */
  lemma {:induction false} KeptPositionsExact<A, B>(xs: seq<A>, f: A -> Option<B>)
    ensures forall i :: 0 <= i < |xs| ==> (f(xs[i]).Some? <==> i in KeptPositions(xs, f))
  {
    if xs != [] {
      var n := |xs| - 1;
      var front := xs[..n];
      KeptPositionsExact(front, f);
      var kept := KeptPositions(front, f);
      var keep := f(xs[n]).Some?;
      assert KeptPositions(xs, f) == kept + (if keep then [n] else []);
      forall i | 0 <= i < |xs|
        ensures f(xs[i]).Some? <==> i in KeptPositions(xs, f)
      {
        AppendPosition(kept, n, keep, i);
        if i < n {
          assert front[i] == xs[i];
        }
      }
    }
  }

  /** Every kept value is the image of some element of the input. */
  lemma FilterMapFrom<A, B>(xs: seq<A>, f: A -> Option<B>, j: nat)
    requires j < |FilterMap(xs, f)|
    ensures exists i :: 0 <= i < |xs| && f(xs[i]) == Some(FilterMap(xs, f)[j])
  {
    var idx := KeptPositions(xs, f);
    assert f(xs[idx[j]]) == Some(FilterMap(xs, f)[j]);
  }

  /** An element that `f` maps to a value is never dropped. */
  lemma FilterMapKeeps<A, B>(xs: seq<A>, f: A -> Option<B>, i: nat)
    requires i < |xs| && f(xs[i]).Some?
    ensures f(xs[i]).value in FilterMap(xs, f)
  {
    var idx := KeptPositions(xs, f);
    KeptPositionsExact(xs, f);
    var j :| 0 <= j < |idx| && idx[j] == i;
    assert f(xs[idx[j]]) == Some(FilterMap(xs, f)[j]);
  }

  /** FilterMap distributes over concatenation. */
  lemma {:induction false} FilterMapAppend<A, B>(xs: seq<A>, ys: seq<A>, f: A -> Option<B>)
    ensures FilterMap(xs + ys, f) == FilterMap(xs, f) + FilterMap(ys, f)
    decreases |ys|
  {
    if ys == [] {
      assert xs + ys == xs;
    } else {
      var ys' := ys[..|ys| - 1];
      assert (xs + ys)[..|xs + ys| - 1] == xs + ys';
      assert (xs + ys)[|xs + ys| - 1] == ys[|ys| - 1];
      FilterMapAppend(xs, ys', f);
    }
  }
}
