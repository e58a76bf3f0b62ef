/** The doubly linked list of buffers in bio.c: a ring through the list head,
    most recently used first.
 */
module Ring {
  import opened Lists

  const NBUF := 30
  const HEAD := NBUF                       // the list head's own node

  /** Node number k of the ring; the head stands before the first and after the last. */
  function Node(ring: seq<nat>, k: int): nat {
    if 0 <= k < |ring| then ring[k] else HEAD
  }

  /** next and prev lead around exactly the nodes of ring, in order. */
  ghost predicate RingOk(next: seq<nat>, prev: seq<nat>, ring: seq<nat>) {
    && |next| == |prev| == NBUF + 1 && Distinct(ring) && (forall k :: 0 <= k < |ring| ==> ring[k] < NBUF)
    && next[HEAD] == Node(ring, 0) && prev[HEAD] == Node(ring, |ring| - 1)
    && (forall k {:trigger next[ring[k]]} :: 0 <= k < |ring| ==> next[ring[k]] == Node(ring, k + 1))
    && (forall k {:trigger prev[ring[k]]} :: 0 <= k < |ring| ==> prev[ring[k]] == Node(ring, k - 1))
  }

  /** Taking node number at out of the ring. */
  lemma Unlinked(next: seq<nat>, prev: seq<nat>, ring: seq<nat>, at: nat, next': seq<nat>, prev': seq<nat>)
    requires RingOk(next, prev, ring) && at < |ring|
    requires next[ring[at]] <= NBUF && prev[ring[at]] <= NBUF
    requires prev' == prev[next[ring[at]] := prev[ring[at]]] && next' == next[prev[ring[at]] := next[ring[at]]]
    ensures RingOk(next', prev', Without(ring, at))
  {
    hide Distinct;
    var c := Without(ring, at);
    assert next[ring[at]] == Node(ring, at + 1) && prev[ring[at]] == Node(ring, at - 1);
    forall k | 0 <= k < |c| ensures c[k] < NBUF && next'[c[k]] == Node(c, k + 1) && prev'[c[k]] == Node(c, k - 1) {
      var o := if k < at then k else k + 1;
      assert c[k] == ring[o] && next[ring[o]] == Node(ring, o + 1) && prev[ring[o]] == Node(ring, o - 1);
      if at > 0 { DistinctAt(ring, o, at - 1); }
      if at + 1 < |ring| { DistinctAt(ring, o, at + 1); }
    }
    DistinctWithout(ring, at);
  }

  /** Putting node b in front. */
  lemma Pushed(next: seq<nat>, prev: seq<nat>, ring: seq<nat>, b: nat, next': seq<nat>, prev': seq<nat>)
    requires RingOk(next, prev, ring) && b < NBUF && b !in ring && next[HEAD] <= NBUF
    requires next' == next[b := next[HEAD]][HEAD := b] && prev' == prev[b := HEAD][next[HEAD] := b]
    ensures RingOk(next', prev', Onto(b, ring))
  {
    hide Distinct;
    var c := Onto(b, ring);
    forall k | 0 <= k < |c| ensures c[k] < NBUF && next'[c[k]] == Node(c, k + 1) && prev'[c[k]] == Node(c, k - 1) {
      if k > 0 {
        assert c[k] == ring[k - 1] && ring[k - 1] in ring;
        assert next[ring[k - 1]] == Node(ring, k) && prev[ring[k - 1]] == Node(ring, k - 2);
        if k > 1 { DistinctAt(ring, k - 1, 0); }
      }
    }
    DistinctOnto(ring, b);
  }
}
