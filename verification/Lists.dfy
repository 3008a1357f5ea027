/** What lists of threads, frames and blocks have in common. */
module Lists {

  /** Elements `j` and `k` are different. */
  ghost predicate Differ(l: seq<int>, j: int, k: int)
    requires 0 <= j < k < |l|
  {
    l[j] != l[k]
  }

  /** No element occurs twice. */
  ghost predicate AllDiffer<T>(l: seq<T>) { forall i, j :: 0 <= i < j < |l| ==> l[i] != l[j] }

  /** The list with element `k` taken out. */
  function Without<T>(l: seq<T>, k: int): seq<T>
    requires 0 <= k < |l|
  {
    l[..k] + l[k + 1..]
  }
}
