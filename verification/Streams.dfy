/** A descriptor: what is still to come on it, and how its reads will turn out. */
module Streams {
  import opened Common

  /** Upto(n) is a read that finds n + 1 bytes at most; Interrupted is EINTR, Failed any other error. */
  datatype Reply = Upto(n: nat) | Interrupted | Failed

  /** Reads may be interrupted, but none fails. */
  predicate Unbroken(schedule: seq<Reply>) {
    Failed !in schedule
  }

  /** No read is interrupted or fails. */
  predicate Smooth(schedule: seq<Reply>) {
    Interrupted !in schedule && Failed !in schedule
  }

  /** The result of a read, -1 for an error; when nothing is scheduled all that fits is read. */
  function ReadCount(unread: seq<byte>, schedule: seq<Reply>, max: nat): (n: int)
    requires max > 0
    ensures -1 <= n <= max && n <= |unread| && (n == 0 <==> n >= 0 && unread == [])
  {
    if |schedule| == 0 then Min(max, |unread|)
    else match schedule[0]
      case Upto(n) => Min(Min(max, n + 1), |unread|)
      case _ => -1
  }

  class Source {
    var unread: seq<byte>
    var schedule: seq<Reply>

    constructor (unread: seq<byte>, schedule: seq<Reply>)
      ensures this.unread == unread && this.schedule == schedule
    {
      this.unread, this.schedule := unread, schedule;
    }

    method Read(max: nat) returns (n: int, data: seq<byte>, eintr: bool)
      requires max > 0
      modifies this
      ensures n == ReadCount(old(unread), old(schedule), max)
      ensures n < 0 ==> data == [] && unread == old(unread)
      ensures n >= 0 ==> data == old(unread)[..n] && unread == old(unread)[n..]
      ensures schedule == if |old(schedule)| == 0 then [] else old(schedule)[1..]
      ensures n < 0 <==> |old(schedule)| > 0 && !old(schedule)[0].Upto?
      ensures n < 0 ==> !Unbroken(old(schedule)) || eintr
      ensures Smooth(old(schedule)) ==> n >= 0 && Smooth(schedule)
      ensures Unbroken(old(schedule)) ==> Unbroken(schedule)
      ensures |schedule| <= |old(schedule)| && (n < 0 ==> |schedule| < |old(schedule)|)
    {
      n := ReadCount(unread, schedule, max);
      eintr := |schedule| > 0 && schedule[0] == Interrupted;
      data := [];
      if n >= 0 {
        data, unread := unread[..n], unread[n..];
      }
      if |schedule| > 0 {
        Later(schedule);
        schedule := schedule[1..];
      }
    }
  }

  /** One of the first so many reads is interrupted or fails. */
  ghost predicate Spoiled(schedule: seq<Reply>, count: nat) {
    exists i :: 0 <= i < |schedule| && i < count && !schedule[i].Upto?
  }

  /** The schedule that is left after so many reads. */
  function After(schedule: seq<Reply>, count: nat): seq<Reply> {
    if count <= |schedule| then schedule[count..] else []
  }

  lemma NoReads(schedule: seq<Reply>)
    ensures !Spoiled(schedule, 0) && After(schedule, 0) == schedule
  {
  }

  lemma OneMoreRead(schedule: seq<Reply>, count: nat)
    requires !Spoiled(schedule, count)
    ensures var now := After(schedule, count);
            && (Spoiled(schedule, count + 1) <==> |now| > 0 && !now[0].Upto?)
            && After(schedule, count + 1) == if |now| == 0 then [] else now[1..]
  {
    if |After(schedule, count)| > 0 {
      assert After(schedule, count)[0] == schedule[count];
    }
  }

  lemma SpoiledStays(schedule: seq<Reply>, count: nat, more: nat)
    requires Spoiled(schedule, count) && count <= more
    ensures Spoiled(schedule, more)
  {
  }

  /** What stays of a schedule has no error that it did not have. */
  lemma Later(schedule: seq<Reply>)
    requires |schedule| > 0
    ensures Smooth(schedule) ==> schedule[0].Upto? && Smooth(schedule[1..])
    ensures Unbroken(schedule) ==> schedule[0] != Failed && Unbroken(schedule[1..])
  {
  }
}
