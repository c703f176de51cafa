/** The preforked pool of serv05.c and child05.c: a parent that accepts and passes descriptors to its children. */
module Prefork {
  /** Sum of the children's child_count. */
  function Sum(counts: seq<nat>): nat {
    if counts == [] then 0 else counts[0] + Sum(counts[1..])
  }

  lemma {:induction false} SumIncrement(counts: seq<nat>, i: nat)
    requires i < |counts|
    ensures Sum(counts[i := counts[i] + 1]) == Sum(counts) + 1
  {
    if i > 0 {
      assert counts[i := counts[i] + 1][1..] == counts[1..][i - 1 := counts[i] + 1];
      SumIncrement(counts[1..], i - 1);
    }
  }

  /** The first child with status 0, or the number of children. */
  function FirstAvailable(status: seq<nat>): (i: nat)
    ensures i <= |status| && (i < |status| ==> status[i] == 0) && forall k :: 0 <= k < i ==> status[k] != 0
  {
    if status == [] || status[0] == 0 then 0 else 1 + FirstAvailable(status[1..])
  }

  /** The parent's own variables: cptr[].child_status, cptr[].child_count and navail. */
  class Parent {
    const status: array<nat>
    const count: array<nat>
    var navail: int

    constructor (nchildren: nat)
      ensures fresh(status) && fresh(count) && status != count
      ensures status[..] == seq(nchildren, _ => 0) && count[..] == seq(nchildren, _ => 0) && navail == nchildren
    {
      status := new nat[nchildren](_ => 0);
      count := new nat[nchildren](_ => 0);
      navail := nchildren;
    }

    /** A new connection: mark the first available child busy; nchildren when there is none. */
    method Assign() returns (i: nat)
      requires status.Length == count.Length && status != count
      modifies this`navail, status, count
      ensures i == FirstAvailable(old(status[..]))
      ensures i < status.Length ==>
        && status[..] == old(status[..])[i := 1] && count[..] == old(count[..])[i := old(count[..])[i] + 1]
        && navail == old(navail) - 1
      ensures i == status.Length ==>
        status[..] == old(status[..]) && count[..] == old(count[..]) && navail == old(navail)
    {
      i := 0;
      while i < status.Length
        invariant i <= status.Length && forall k :: 0 <= k < i ==> status[k] != 0
      {
        if status[i] == 0 {
          break;
        }
        i := i + 1;
      }
      ghost var first := FirstAvailable(status[..]);
      assert first < status.Length ==> status[..][first] == 0;
      assert i < status.Length ==> status[..][i] == 0;
      assert first == i;
      if i < status.Length {
        status[i] := 1;
        count[i] := count[i] + 1;
        navail := navail - 1;
      }
    }

    /** The pass over the children whose pipes select found readable; it stops when nsel says that all were seen. */
    method Collect(rset: set<nat>, nsel: nat)
      requires nsel == |rset| > 0 && forall i :: i in rset ==> i < status.Length
      modifies this`navail, status
      ensures forall i :: 0 <= i < status.Length ==> status[i] == if i in rset then 0 else old(status[i])
      ensures navail == old(navail) + |rset|
    {
      var left, i := nsel, 0;
      ghost var rest := rset;
      while i < status.Length
        invariant 0 <= i <= status.Length && rest == set k | k in rset && k >= i
        invariant left == |rest| > 0 && navail == old(navail) + |rset| - |rest|
        invariant forall k :: 0 <= k < status.Length ==> status[k] == if k in rset && k < i then 0 else old(status[k])
      {
        if i in rset {
          status[i] := 0;
          navail := navail + 1;
          left := left - 1;
          rest := rest - {i};
          assert rest == set k | k in rset && k >= i + 1;
          if left == 0 {
            assert rest == {} && forall k :: k in rset && k > i ==> k in rest;
            assert forall k :: k in rset ==> k <= i;
            break;
          }
        }
        i := i + 1;
      }
      assert left > 0 ==> rest == {};
      assert forall k :: k in rset ==> status[k] == 0;
    }
  }
}
