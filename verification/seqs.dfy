/** Sequence helpers shared by the listings: the page a LIMIT/OFFSET query
    cuts out of an ordered result. */
module Seqs {

  /** Elements `offset .. offset+limit` of `xs`, cut at its end. */
  function Window<T>(xs: seq<T>, offset: nat, limit: nat): (r: seq<T>)
    ensures |r| <= limit
    ensures offset >= |xs| ==> r == []
    ensures offset < |xs| ==> |r| == if offset + limit <= |xs| then limit else |xs| - offset
    ensures forall k :: 0 <= k < |r| ==> r[k] == xs[offset + k]
  {
    if offset >= |xs| then []
    else if offset + limit <= |xs| then xs[offset..offset + limit]
    else xs[offset..]
  }

  /** Two adjacent windows make up the window of their combined size. */
  lemma WindowsAdjacent<T>(xs: seq<T>, offset: nat, limit: nat)
    ensures Window(xs, offset, limit) + Window(xs, offset + limit, limit) == Window(xs, offset, 2 * limit)
  {
    var a := Window(xs, offset, limit);
    var b := Window(xs, offset + limit, limit);
    var w := Window(xs, offset, 2 * limit);
    assert |a + b| == |w|;
    forall k | 0 <= k < |w| ensures (a + b)[k] == w[k]
    {
      if k >= |a| { assert (a + b)[k] == b[k - |a|]; }
    }
  }
}
