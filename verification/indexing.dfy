/** Python's subscript `xs[i]` on a list: negative indices count from the
    end, and anything outside `[-len(xs), len(xs))` raises `IndexError`. */
module Indexing {
  import opened Exceptions

  /** The indices Python accepts for a list of length `n`. */
  predicate InRange(n: nat, i: int) {
    -(n as int) <= i < n
  }

  /** `xs[i]`. */
  function Index<T>(xs: seq<T>, i: int): (r: Result<T>)
    ensures r.Success? <==> InRange(|xs|, i)
    ensures r.Success? ==> r.value == xs[i % |xs|]
    ensures r.Failure? ==> r.error == IndexError
  {
    if 0 <= i < |xs| then Success(xs[i])
    else if -|xs| <= i < 0 then Success(xs[|xs| + i])
    else Failure(IndexError)
  }

  /** The list read back to front. */
  function Reverse<T>(xs: seq<T>): (r: seq<T>)
    ensures |r| == |xs|
  {
    if |xs| == 0 then [] else Reverse(xs[1..]) + [xs[0]]
  }

  lemma {:induction false} ReverseAt<T>(xs: seq<T>, k: nat)
    requires k < |xs|
    ensures Reverse(xs)[k] == xs[|xs| - 1 - k]
    decreases |xs|
  {
    if k < |xs| - 1 {
      ReverseAt(xs[1..], k);
    }
  }

  /** `xs[-(k+1)]` is `reversed(xs)[k]`, and both fail together. */
  lemma {:induction false} NegativeIndexCountsFromEnd<T>(xs: seq<T>, k: nat)
    ensures Index(xs, -(k + 1)) == Index(Reverse(xs), k)
  {
    if k < |xs| {
      ReverseAt(xs, k);
    }
  }

  /** A valid non-negative index and its negative alias select the same element. */
  lemma IndexAlias<T>(xs: seq<T>, i: int)
    requires 0 <= i < |xs|
    ensures Index(xs, i - |xs|) == Index(xs, i)
  {
  }
}
