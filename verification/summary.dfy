/** The capped listings printed after a build: fewer than twenty entries are
    listed in full, otherwise the first twenty are listed followed by
    "along with <n-20> other ...". */
module Summary {
  import opened Wrappers

  const Cap: nat := 20

  /** The entries printed and, when the listing is cut, the count in the
      trailing "along with" line. */
  datatype Capped<T> = Capped(shown: seq<T>, others: Option<nat>)

  function Summarize<T>(items: seq<T>): (r: Capped<T>)
    ensures r.shown <= items
    ensures |r.shown| == if |items| < Cap then |items| else Cap
    ensures r.others.Some? <==> |items| >= Cap
    ensures |r.shown| + r.others.GetOr(0) == |items|
  {
    if |items| < Cap then Capped(items, None)
    else Capped(items[..Cap], Some(|items| - Cap))
  }

  /** Nothing is lost: the printed entries and the counted ones make up the
      whole listing, and a listing that is not cut is shown in full. */
  lemma SummarizeComplete<T>(items: seq<T>)
    ensures Summarize(items).others.None? ==> Summarize(items).shown == items
    ensures Summarize(items).shown + items[|Summarize(items).shown|..] == items
  {
  }

  /** With exactly twenty entries the listing is cut anyway and ends with
      "along with 0 other ...". */
  lemma SummarizeAtCap<T>(items: seq<T>)
    requires |items| == Cap
    ensures Summarize(items) == Capped(items, Some(0))
  {
  }
}
