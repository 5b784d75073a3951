/** Small shared vocabulary: optional values, results, counter maps with a
    default of zero, and Python's list indexing. */
module Common {

  datatype Option<+T> = None | Some(value: T)

  /** Either a value or the error that aborted the computation. */
  datatype Result<+T, +E> = Ok(value: T) | Err(error: E)

  /** The value a `defaultdict(int)` (or a C++ `unordered_map<int, int>`
      accessed through `operator[]`) yields for `k`: zero when absent. */
  function Count(m: map<int, int>, k: int): int
  {
    if k in m then m[k] else 0
  }

  /** Counter maps are kept canonical: a key whose count is zero is dropped,
      so two counters that agree on every key are equal as maps. */
  ghost predicate Canonical(m: map<int, int>)
  {
    forall k :: k in m ==> m[k] != 0
  }

  /** Adds `d` to the counter of `k`, leaving every other key alone. */
  function Bump(m: map<int, int>, k: int, d: int): (r: map<int, int>)
    ensures Count(r, k) == Count(m, k) + d
    ensures forall j :: j != k ==> Count(r, j) == Count(m, j)
  {
    if Count(m, k) + d == 0 then m - {k} else m[k := Count(m, k) + d]
  }

  lemma BumpCanonical(m: map<int, int>, k: int, d: int)
    requires Canonical(m)
    ensures Canonical(Bump(m, k, d))
  {
  }

  /** Two canonical counters that agree on every key are the same map. */
  lemma {:induction false} CanonicalExtensional(m: map<int, int>, n: map<int, int>)
    requires Canonical(m) && Canonical(n)
    requires forall k :: Count(m, k) == Count(n, k)
    ensures m == n
  {
    forall k | k in m
      ensures k in n && n[k] == m[k]
    {
      assert Count(m, k) == Count(n, k);
    }
    forall k | k in n
      ensures k in m
    {
      assert Count(m, k) == Count(n, k);
    }
  }

  /** Bumping a counter and then bumping it back restores a canonical map. */
  lemma BumpUndo(m: map<int, int>, k: int, d: int)
    requires Canonical(m)
    ensures Bump(Bump(m, k, d), k, -d) == m
  {
    var r := Bump(Bump(m, k, d), k, -d);
    BumpCanonical(m, k, d);
    BumpCanonical(Bump(m, k, d), k, -d);
    forall j
      ensures Count(r, j) == Count(m, j)
    {
    }
    CanonicalExtensional(r, m);
  }

  /** Every stored count is positive. */
  ghost predicate Positive(m: map<int, int>)
  {
    forall k :: k in m ==> m[k] > 0
  }

  /** Adding one to a positive counter keeps it positive and makes `k` a key. */
  lemma BumpUp(m: map<int, int>, k: int)
    requires Positive(m)
    ensures Positive(Bump(m, k, 1))
    ensures Bump(m, k, 1).Keys == m.Keys + {k}
  {
  }

  /** Taking one off a positive count keeps the counter positive; the key
      leaves exactly when its count reaches zero. */
  lemma BumpDown(m: map<int, int>, k: int)
    requires Positive(m) && Count(m, k) > 0
    ensures Positive(Bump(m, k, -1))
    ensures Bump(m, k, -1).Keys == if Count(m, k) == 1 then m.Keys - {k} else m.Keys
  {
  }

  /** A positive counter is canonical. */
  lemma PositiveCanonical(m: map<int, int>)
    requires Positive(m)
    ensures Canonical(m)
  {
  }

  /** The position Python's `s[k]` reads in a list of length `n`: a negative
      `k` counts from the end, anything else outside the list raises. */
  function PySlot(n: nat, k: int): (r: Option<nat>)
    ensures r.Some? <==> -(n as int) <= k < n
    ensures r.Some? ==> r.value < n && (r.value == k || r.value == n + k)
  {
    if 0 <= k < n then Some(k) else if -(n as int) <= k < 0 then Some(n + k) else None
  }

  /** Python's `s[k]`, `None` standing for the `IndexError`. */
  function PyIndex<T>(s: seq<T>, k: int): Option<T>
  {
    match PySlot(|s|, k)
    case Some(j) => Some(s[j])
    case None => None
  }

  function Sum(s: seq<int>): int
  {
    if |s| == 0 then 0 else Sum(s[..|s| - 1]) + s[|s| - 1]
  }

  function Min(a: int, b: int): int
  {
    if a <= b then a else b
  }

  function Max(a: int, b: int): int
  {
    if a >= b then a else b
  }

  /** C++ integer division, which truncates toward zero (Dafny's `/` is
      Euclidean and differs on a negative dividend). */
  function CDiv(a: int, b: int): int
    requires b > 0
  {
    if a >= 0 then a / b else -((-a) / b)
  }

  /** The sum of a sequence after replacing one element shifts by the change. */
  lemma {:induction false} SumUpdate(s: seq<int>, i: nat, v: int)
    requires i < |s|
    ensures Sum(s[i := v]) == Sum(s) - s[i] + v
    decreases |s|
  {
    var t := s[i := v];
    if i == |s| - 1 {
      assert t[..|t| - 1] == s[..|s| - 1];
    } else {
      assert t[..|t| - 1] == s[..|s| - 1][i := v];
      SumUpdate(s[..|s| - 1], i, v);
    }
  }

  /** `n` copies of `x` sum to `n * x`. */
  lemma {:induction false} SumConstant(s: seq<int>, x: int)
    requires forall i :: 0 <= i < |s| ==> s[i] == x
    ensures Sum(s) == |s| * x
    decreases |s|
  {
    if |s| > 0 {
      SumConstant(s[..|s| - 1], x);
    }
  }

  /** The partition both solvers give the VM at position `i` of a batch:
      the request's when it is non-negative, otherwise `i + 1`. */
  function PartitionOf(partition: int, i: int): int
  {
    if partition >= 0 then partition else i + 1
  }

  /** No index occurs twice. */
  predicate Distinct(ids: seq<int>)
  {
    forall k, j :: 0 <= k < j < |ids| ==> ids[k] != ids[j]
  }

  /** The elements of a sequence. */
  function Elems(s: seq<int>): (r: set<int>)
    ensures forall x :: x in r <==> x in s
  {
    set x | x in s
  }

  lemma ElemsCons(s: seq<int>)
    requires |s| > 0
    ensures Elems(s) == {s[0]} + Elems(s[1..])
  {
    assert s == [s[0]] + s[1..];
  }

  /** Taking keys out of a map one at a time or all at once agree. */
  lemma MinusTwice<V>(mp: map<int, V>, x: int, e: set<int>)
    ensures mp - {x} - e == mp - ({x} + e)
  {
  }

  /** `std::remove` followed by `erase`: every occurrence of `x` goes, the
      rest keeps its order. */
  function Remove(s: seq<int>, x: int): (r: seq<int>)
    ensures forall a :: a in r <==> a in s && a != x
    decreases |s|
  {
    if |s| == 0 then []
    else Remove(s[..|s| - 1], x) + (if s[|s| - 1] == x then [] else [s[|s| - 1]])
  }

  lemma {:induction false} RemoveAbsent(s: seq<int>, x: int)
    requires forall k :: 0 <= k < |s| ==> s[k] != x
    ensures Remove(s, x) == s
    decreases |s|
  {
    if |s| > 0 {
      var pre := s[..|s| - 1];
      RemoveAbsent(pre, x);
      assert Remove(s, x) == Remove(pre, x) + [s[|s| - 1]];
      assert pre + [s[|s| - 1]] == s;
    }
  }

  /** Removing what was just appended gives the list back. */
  lemma RemoveAppended(s: seq<int>, x: int)
    requires x !in s
    ensures Remove(s + [x], x) == s
  {
    assert (s + [x])[..|s|] == s;
    RemoveAbsent(s, x);
  }
}
