/** The ring of connected descriptors of serv08.c and pthread08.h. */
module FdRing {

  const MAXNCLI: nat := 32

  class Ring {
    const clifd: array<int>
    var iget: nat
    var iput: nat

    ghost predicate Valid()
      reads this
    {
      clifd.Length == MAXNCLI && iget < MAXNCLI && iput < MAXNCLI
    }

    /** The queued descriptors, oldest first. */
    ghost function Queue(): (q: seq<int>)
      requires Valid()
      reads this, clifd
      ensures |q| < MAXNCLI && (iget == iput <==> q == [])
    {
      if iget <= iput then clifd[iget..iput] else clifd[iget..] + clifd[..iput]
    }

    constructor ()
      ensures Valid() && fresh(clifd) && Queue() == []
    {
      clifd := new int[MAXNCLI];
      iget, iput := 0, 0;
    }

    /** Producer, with the mutex held: store, advance, and quit when the ring has become full. */
    method Deposit(connfd: int) returns (quit: bool)
      requires Valid()
      modifies this`iput, clifd
      ensures Valid()
      ensures quit <==> |old(Queue())| == MAXNCLI - 1
      ensures !quit ==> Queue() == old(Queue()) + [connfd]
    {
      clifd[iput] := connfd;
      iput := iput + 1;
      if iput == MAXNCLI {
        iput := 0;
      }
      quit := iput == iget;
    }

    /** Consumer, with the mutex held and the queue not empty. */
    method Take() returns (connfd: int)
      requires Valid() && iget != iput
      modifies this`iget
      ensures Valid() && [connfd] + Queue() == old(Queue())
    {
      connfd := clifd[iget];
      iget := iget + 1;
      if iget == MAXNCLI {
        iget := 0;
      }
    }
  }
}
