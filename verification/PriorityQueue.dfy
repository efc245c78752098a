/** Priority queues by contract: a map from vertex to key, from which a vertex with the largest key is taken. */
module PriorityQueue {

  lemma {:induction false} MaxExists(q: map<nat, int>, keys: set<nat>)
    requires keys <= q.Keys && keys != {}
    ensures exists v :: v in keys && forall u <- keys :: q[u] <= q[v]
  {
    var x :| x in keys;
    var rest := keys - {x};
    if rest == {} {
      assert keys == {x};
    } else {
      MaxExists(q, rest);
      var v :| v in rest && forall u <- rest :: q[u] <= q[v];
      var w := if q[v] < q[x] then x else v;
      assert w in keys && forall u <- keys :: u == x || u in rest;
    }
  }

  /** PQueueGetMax: a vertex with the largest key, and the queue without it; -1 when the queue is empty. */
  method GetMax(q: map<nat, int>) returns (v: int, q': map<nat, int>)
    ensures v >= -1 && (v == -1 <==> q == map[]) && (v == -1 ==> q' == q)
    ensures v >= 0 ==> v in q && q' == q - {v} && forall u <- q :: q[u] <= q[v]
  {
    if q == map[] { return -1, q; }
    MaxExists(q, q.Keys);
    var best: nat :| best in q.Keys && forall u <- q.Keys :: q[u] <= q[best];
    return best, q - {best};
  }
}
