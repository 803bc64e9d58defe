/** The list `MyRequests` shows: `limit ? data.slice(0, limit) : data`. */
module MyRequests {
  import opened Common
  import opened Seqs

  /** JavaScript truthiness of the `limit` prop: missing and 0 are falsy. */
  predicate IsTruthy(limit: Option<int>) {
    limit.Some? && limit.value != 0
  }

  /** Where `slice(0, k)` stops on a list of `n` elements: a negative `k`
      counts back from the end. */
  function SliceEnd(n: nat, k: int): (e: nat)
    ensures e <= n
    ensures k >= 0 ==> e == if k < n then k else n
    ensures k < 0 ==> e == if n + k > 0 then n + k else 0
  {
    if k >= 0 then (if k < n then k else n)
    else if n + k > 0 then n + k else 0
  }

  /** The requests shown for the fetched list `data`. */
  function Shown<T>(data: seq<T>, limit: Option<int>): (r: seq<T>)
    ensures r <= data
    ensures !IsTruthy(limit) ==> r == data
    ensures IsTruthy(limit) && limit.value > 0 ==>
              |r| == (if limit.value < |data| then limit.value else |data|)
    ensures IsTruthy(limit) && limit.value < 0 ==>
              |r| == (if |data| + limit.value > 0 then |data| + limit.value else 0)
  {
    if IsTruthy(limit) then data[..SliceEnd(|data|, limit.value)] else data
  }

  /** A truthy positive limit bounds the number shown; the order is kept. */
  lemma ShownAtMostLimit<T>(data: seq<T>, k: int)
    requires k > 0
    ensures |Shown(data, Some(k))| <= k
    ensures IsSubsequence(Shown(data, Some(k)), data)
  {
    PrefixIsSubsequence(data, |Shown(data, Some(k))|);
    assert Shown(data, Some(k)) == data[..|Shown(data, Some(k))|];
  }

  /** The dashboard's recent-requests panel passes 5. */
  lemma DashboardShowsFive<T>(data: seq<T>)
    ensures Shown(data, Some(5)) == if |data| <= 5 then data else data[..5]
  {
  }
}
