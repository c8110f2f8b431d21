/**
 * The frontier of a search: a min-priority queue of search nodes ordered by
 * compareTo.  Only its contract matters: insert adds an entry, delMin removes
 * and returns an entry of least priority, with ties broken in no particular
 * way.  The entries are kept as a sequence.
 */
module MinPQs {
  import opened Nodes

  class MinPQ {
    var items: seq<SearchNode>

    constructor ()
      ensures items == []
    {
      items := [];
    }

    method Insert(x: SearchNode)
      modifies this
      ensures multiset(items) == multiset(old(items)) + multiset{x}
    {
      items := items + [x];
    }

    method DelMin() returns (m: SearchNode)
      requires items != []
      modifies this
      ensures m in old(items)
      ensures forall x :: x in old(items) ==> m.priority <= x.priority
      ensures multiset(items) == multiset(old(items)) - multiset{m}
      ensures |items| == |old(items)| - 1
    {
      var best := 0;
      for k := 1 to |items|
        invariant 0 <= best < |items|
        invariant forall p :: 0 <= p < k ==> items[best].priority <= items[p].priority
      {
        if CompareTo(items[k], items[best]) < 0 {
          best := k;
        }
      }
      m := items[best];
      assert items == items[..best] + [m] + items[best + 1..];
      items := items[..best] + items[best + 1..];
    }
  }
}
