/** Shared vocabulary: optional values, the failure record every helper rejects with,
    the three ways a helper's promise can settle, HTTP status codes, and first-match
    lookup over a store kept as a sequence of documents in insertion order. */
module Base {

  datatype Option<+T> = None | Some(value: T)

  // HttpStatusCode values used by the core
  const OK := 200
  const BadRequest := 400
  const Unauthorized := 401
  const Forbidden := 403
  const NotFound := 404
  const InternalServer := 500

  /** The `code` property of a rejected error: absent, numeric (a driver code such as
      11000) or a name (an error class name such as "TokenExpiredError"). */
  datatype Code = NoCode | Num(n: int) | Named(name: string)

  /** `{ message, statusCode?, code? }`; an empty message stands for a missing one. */
  datatype Failure = Failure(message: string, statusCode: Option<int>, code: Code)

  /** How a helper's promise ends: resolved, rejected, or never settled at all. */
  datatype Settle<+T> = Resolves(value: T) | Rejects(failure: Failure) | NeverSettles

  /** `new ThrowError(message, statusCode)` */
  function Raise(message: string, status: int): Failure
  {
    Failure(message, Some(status), NoCode)
  }

  /** `statusCode || fallback`: a missing or zero status is falsy. */
  function StatusOr(s: Option<int>, fallback: int): (r: int)
    ensures s.Some? && s.value != 0 ==> r == s.value
    ensures s.None? || s.value == 0 ==> r == fallback
  {
    if s.Some? && s.value != 0 then s.value else fallback
  }

  /** The catch block of most helpers:
      `{ message: error.message || fallback, statusCode: error.statusCode || 500, code: error.code || error.names }`.
      No error has a `names` property, and no failure here carries a falsy code, so the
      code is the error's own. */
  function Caught(e: Failure, fallback: string): (r: Failure)
    requires fallback != ""
    ensures r.message != "" && (e.message != "" ==> r.message == e.message)
    ensures r.statusCode.Some? && r.statusCode.value != 0
    ensures e.statusCode.Some? && e.statusCode.value != 0 ==> r.statusCode == e.statusCode
    ensures e.statusCode.None? ==> r.statusCode == Some(InternalServer)
    ensures r.code == e.code
  {
    Failure(if e.message != "" then e.message else fallback,
            Some(StatusOr(e.statusCode, InternalServer)),
            e.code)
  }

  /** The `name` of a thrown `ThrowError`, which it inherits from `Error`. */
  const ThrowErrorName := "Error"

  /** The catch block of the listing, lookup-by-id, add, login and OTP helpers, whose code
      is `error.code || error.name`: an error without a code reports its class name
      (`name`, or `""` for a plain object, which has none). */
  function CaughtNamed(e: Failure, name: string, fallback: string): (r: Failure)
    requires fallback != ""
    ensures r.message == Caught(e, fallback).message && r.statusCode == Caught(e, fallback).statusCode
    ensures e.code != NoCode ==> r == Caught(e, fallback)
    ensures e.code == NoCode && name != "" ==> r.code == Named(name)
    ensures e.code == NoCode && name == "" ==> r == Caught(e, fallback)
  {
    Caught(e, fallback).(code := if e.code != NoCode then e.code else if name != "" then Named(name) else NoCode)
  }

  /** `new ThrowError(message, status)` as a name-reading catch block reports it. */
  function Thrown(message: string, status: int): Failure
  {
    Failure(message, Some(status), Named(ThrowErrorName))
  }

  /** A `ThrowError` with a message and a status passes a name-reading catch block with
      both intact and its class name as the code. */
  lemma CaughtThrown(message: string, status: int, fallback: string)
    requires message != "" && status != 0 && fallback != ""
    ensures CaughtNamed(Raise(message, status), ThrowErrorName, fallback) == Thrown(message, status)
  {
  }

  /** The first index of `s` whose element satisfies `p` (a `findOne` over a store). */
  function FindFirst<T>(s: seq<T>, p: T -> bool): (r: Option<nat>)
    ensures r.Some? ==> r.value < |s| && p(s[r.value])
    ensures r.Some? ==> forall j :: 0 <= j < r.value ==> !p(s[j])
    ensures r.None? <==> forall j :: 0 <= j < |s| ==> !p(s[j])
  {
    FindFrom(s, p, 0)
  }

  function FindFrom<T>(s: seq<T>, p: T -> bool, k: nat): (r: Option<nat>)
    requires k <= |s|
    requires forall j :: 0 <= j < k ==> !p(s[j])
    ensures r.Some? ==> k <= r.value < |s| && p(s[r.value])
    ensures r.Some? ==> forall j :: 0 <= j < r.value ==> !p(s[j])
    ensures r.None? <==> forall j :: 0 <= j < |s| ==> !p(s[j])
    decreases |s| - k
  {
    if k == |s| then None
    else if p(s[k]) then Some(k)
    else FindFrom(s, p, k + 1)
  }

  /** Two filters that agree on every element find the same first element. */
  lemma FindFirstSame<T>(s: seq<T>, p: T -> bool, q: T -> bool)
    requires forall j :: 0 <= j < |s| ==> p(s[j]) == q(s[j])
    ensures FindFirst(s, p) == FindFirst(s, q)
  {
  }

  /** Number of elements of `s` satisfying `p` (a `count` query). */
  function Count<T>(s: seq<T>, p: T -> bool): (n: nat)
    ensures n <= |s|
  {
    if |s| == 0 then 0 else Count(s[..|s| - 1], p) + (if p(s[|s| - 1]) then 1 else 0)
  }

  /** The elements of `s` satisfying `p`, in order. */
  function Filter<T>(s: seq<T>, p: T -> bool): (r: seq<T>)
    ensures |r| == Count(s, p)
    ensures forall x :: x in r ==> x in s && p(x)
    ensures forall i :: 0 <= i < |s| && p(s[i]) ==> s[i] in r
  {
    if |s| == 0 then []
    else
      Filter(s[..|s| - 1], p) + (if p(s[|s| - 1]) then [s[|s| - 1]] else [])
  }

  /** The positions of `s` whose elements satisfy `p`, ascending. */
  function Positions<T>(s: seq<T>, p: T -> bool): (m: seq<nat>)
    ensures forall k :: 0 <= k < |m| ==> m[k] < |s| && p(s[m[k]])
  {
    if |s| == 0 then [] else Positions(s[..|s| - 1], p) + (if p(s[|s| - 1]) then [|s| - 1] else [])
  }

  /** Element `k` of `Filter(s, p)` is the element at position `k` of `Positions(s, p)`. */
  lemma {:induction false} FilterAtPositions<T>(s: seq<T>, p: T -> bool)
    ensures |Positions(s, p)| == |Filter(s, p)|
    ensures forall k :: 0 <= k < |Filter(s, p)| ==> Filter(s, p)[k] == s[Positions(s, p)[k]]
  {
    if |s| > 0 {
      var n := |s| - 1;
      FilterAtPositions(s[..n], p);
      var m0 := Positions(s[..n], p);
      var r0 := Filter(s[..n], p);
      var r := Filter(s, p);
      var m := Positions(s, p);
      assert r == r0 + (if p(s[n]) then [s[n]] else []);
      assert m == m0 + (if p(s[n]) then [n] else []);
      forall k | 0 <= k < |r|
        ensures r[k] == s[m[k]]
      {
        if k < |r0| {
          assert r[k] == r0[k] == s[..n][m0[k]];
        }
      }
    }
  }

  lemma {:induction false} PositionsAscend<T>(s: seq<T>, p: T -> bool)
    ensures forall k, l :: 0 <= k < l < |Positions(s, p)| ==> Positions(s, p)[k] < Positions(s, p)[l]
  {
    if |s| > 0 {
      PositionsAscend(s[..|s| - 1], p);
    }
  }

  lemma {:induction false} PositionsComplete<T>(s: seq<T>, p: T -> bool)
    ensures forall i :: 0 <= i < |s| && p(s[i]) ==> i in Positions(s, p)
  {
    if |s| > 0 {
      var n := |s| - 1;
      PositionsComplete(s[..n], p);
      var m := Positions(s, p);
      forall i | 0 <= i < |s| && p(s[i])
        ensures i in m
      {
        if i < n {
          assert s[..n][i] == s[i];
          assert i in Positions(s[..n], p);
        } else {
          assert m[|m| - 1] == n;
        }
      }
    }
  }

  /** `Filter` keeps the satisfying positions and only those, in their order: `m` lists
      them ascending and element `k` of the result is `s[m[k]]`. */
  lemma FilterPositions<T>(s: seq<T>, p: T -> bool) returns (m: seq<nat>)
    ensures |m| == |Filter(s, p)|
    ensures forall k :: 0 <= k < |m| ==> m[k] < |s| && Filter(s, p)[k] == s[m[k]]
    ensures forall k, l :: 0 <= k < l < |m| ==> m[k] < m[l]
    ensures forall k :: 0 <= k < |m| ==> p(s[m[k]])
    ensures forall i :: 0 <= i < |s| && p(s[i]) ==> i in m
  {
    m := Positions(s, p);
    FilterAtPositions(s, p);
    PositionsAscend(s, p);
    PositionsComplete(s, p);
  }

  /** Two filters that agree on every element keep the same elements. */
  lemma {:induction false} FilterSame<T>(s: seq<T>, p: T -> bool, q: T -> bool)
    requires forall j :: 0 <= j < |s| ==> p(s[j]) == q(s[j])
    ensures Filter(s, p) == Filter(s, q)
  {
    if |s| > 0 {
      FilterSame(s[..|s| - 1], p, q);
    }
  }

  /** `s` contains `sub` as a contiguous piece. */
  predicate Contains(s: string, sub: string)
  {
    exists i | 0 <= i <= |s| - |sub| :: OccursAt(s, sub, i)
  }

  predicate OccursAt(s: string, sub: string, i: int)
  {
    0 <= i <= |s| - |sub| && s[i..i + |sub|] == sub
  }
}
