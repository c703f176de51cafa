/** Histories of descriptors handed to workers. */
module Handover {

  /** A descriptor handed to a worker. */
  datatype Taken = Taken(worker: nat, fd: int)

  function Descriptors(taken: seq<Taken>): seq<int> {
    seq(|taken|, k requires 0 <= k < |taken| => taken[k].fd)
  }

  /** How many descriptors worker i has been given. */
  function GivenTo(taken: seq<Taken>, i: nat): nat {
    if taken == [] then 0
    else GivenTo(taken[..|taken| - 1], i) + (if taken[|taken| - 1].worker == i then 1 else 0)
  }

  /** The last descriptor worker i was given, if any. */
  ghost predicate LastGiven(taken: seq<Taken>, i: nat, fd: int) {
    exists k :: 0 <= k < |taken| && taken[k] == Taken(i, fd) && forall m :: k < m < |taken| ==> taken[m].worker != i
  }

  lemma LastGivenLater(taken: seq<Taken>, t: Taken, i: nat, fd: int)
    requires if i == t.worker then fd == t.fd else LastGiven(taken, i, fd)
    ensures LastGiven(taken + [t], i, fd)
  {
    if i == t.worker {
      assert (taken + [t])[|taken|] == Taken(i, fd);
    } else {
      var k :| 0 <= k < |taken| && taken[k] == Taken(i, fd) && forall m :: k < m < |taken| ==> taken[m].worker != i;
      assert (taken + [t])[k] == Taken(i, fd);
    }
  }

  lemma GivenLater(taken: seq<Taken>, t: Taken, i: nat)
    ensures GivenTo(taken + [t], i) == GivenTo(taken, i) + (if t.worker == i then 1 else 0)
  {
    assert (taken + [t])[..|taken|] == taken;
  }
}
