/** The list of results of getaddrinfo as values, and what the service step makes of it. */
module Gai {
  import opened Common

  datatype Family = INET | INET6 | LOCAL

  const SOCK_STREAM: nat := 1
  const SOCK_DGRAM: nat := 2

  /** A socket address: the address proper, and the port (0 until the service step). */
  datatype Address = Address(host: seq<byte>, port: nat)

  /** One addrinfo: `clone` is the flag AI_CLONE. */
  datatype Item = Item(clone: bool, family: Family, socktype: nat, protocol: nat, addr: Option<Address>,
                       canonname: Option<string>)

  /** A service: its socket type and port. */
  datatype Service = Service(socktype: nat, port: nat)

  predicate HasPort(it: Item) {
    it.family.INET? || it.family.INET6?
  }

  /** The entry with its socket type and, if it is an Internet address, its port filled in. */
  function Filled(it: Item, s: Service): Item {
    var it' := it.(socktype := s.socktype);
    if HasPort(it) && it.addr.Some? then it'.(addr := Some(it.addr.value.(port := s.port))) else it'
  }

  /** What ga_clone copies, and what it does not. */
  function CloneOf(it: Item): Item {
    it.(clone := false, canonname := None)
  }

  /** The entries that one entry becomes in a pass. */
  function PassOne(it: Item, s: Service): seq<Item> {
    if it.clone then
      if it.socktype != 0 then [it, Filled(CloneOf(it), s)] else [Filled(it, s)]
    else if it.socktype != s.socktype then [it]
    else [Filled(it, s)]
  }

  /** One call of ga_port. */
  function Pass(items: seq<Item>, s: Service): seq<Item> {
    if items == [] then [] else Pass(items[..|items| - 1], s) + PassOne(items[|items| - 1], s)
  }

  /** How many Internet addresses the pass gives a port. */
  function Found(items: seq<Item>, s: Service): nat {
    if items == [] then 0
    else
      var it := items[|items| - 1];
      Found(items[..|items| - 1], s) + if HasPort(it) && (it.clone || it.socktype == s.socktype) then 1 else 0
  }

  function Passes(items: seq<Item>, ss: seq<Service>): seq<Item> {
    if ss == [] then items else Pass(Passes(items, ss[..|ss| - 1]), ss[|ss| - 1])
  }

  function FoundInAll(items: seq<Item>, ss: seq<Service>): nat {
    if ss == [] then 0
    else FoundInAll(items, ss[..|ss| - 1]) + Found(Passes(items, ss[..|ss| - 1]), ss[|ss| - 1])
  }

  lemma PassSnoc(items: seq<Item>, it: Item, s: Service)
    ensures Pass(items + [it], s) == Pass(items, s) + PassOne(it, s)
    ensures Found(items + [it], s)
         == Found(items, s) + if HasPort(it) && (it.clone || it.socktype == s.socktype) then 1 else 0
  {
    assert (items + [it])[..|items|] == items;
  }

  lemma {:induction false} PassConcat(a: seq<Item>, b: seq<Item>, s: Service)
    ensures Pass(a + b, s) == Pass(a, s) + Pass(b, s)
    ensures Found(a + b, s) == Found(a, s) + Found(b, s)
  {
    hide PassOne;
    if b == [] {
      assert a + b == a;
    } else {
      var front, last := b[..|b| - 1], b[|b| - 1];
      assert a + b == (a + front) + [last] && b == front + [last];
      PassSnoc(a + front, last, s);
      PassSnoc(front, last, s);
      PassConcat(a, front, s);
    }
  }

  /** An entry as ga_aistruct makes it when the caller gives no socket type. */
  predicate Fresh(it: Item) {
    it.clone && it.socktype == 0 && it.canonname.None? && (HasPort(it) ==> it.addr.Some? && it.addr.value.port == 0)
  }

  /** The entries an address ends up with: itself for the first service, then one clone per later service, the latest
      first. */
  function Expanded(it: Item, ss: seq<Service>): seq<Item> {
    if ss == [] then [it] else [Filled(it, ss[0])] + Clones(it, ss[1..])
  }

  function Clones(it: Item, ss: seq<Service>): seq<Item> {
    if ss == [] then [] else [Filled(CloneOf(it), ss[|ss| - 1])] + Clones(it, ss[..|ss| - 1])
  }

  function ExpandedAll(items: seq<Item>, ss: seq<Service>): seq<Item> {
    if items == [] then [] else ExpandedAll(items[..|items| - 1], ss) + Expanded(items[|items| - 1], ss)
  }

  ghost predicate DistinctTypes(ss: seq<Service>) {
    && (forall s :: s in ss ==> s.socktype != 0)
    && (forall i, j :: 0 <= i < j < |ss| ==> ss[i].socktype != ss[j].socktype)
  }

  /** Entries that belong to other services are passed over. */
  lemma {:induction false} ClonesIgnored(it: Item, ss: seq<Service>, s: Service)
    requires forall k :: 0 <= k < |ss| ==> ss[k].socktype != s.socktype
    ensures Pass(Clones(it, ss), s) == Clones(it, ss) && Found(Clones(it, ss), s) == 0
  {
    if ss != [] {
      var c, more := Filled(CloneOf(it), ss[|ss| - 1]), Clones(it, ss[..|ss| - 1]);
      ClonesIgnored(it, ss[..|ss| - 1], s);
      PassConcat([c], more, s);
      PassSnoc([], c, s);
      assert [] + [c] == [c];
      assert Pass([c], s) == [c] && Found([c], s) == 0;
    }
  }

  /** An original that already has a socket type is left as it is and followed by a new clone. */
  lemma PassOriginal(it: Item, first: Service, s: Service)
    requires Fresh(it) && first.socktype != 0
    ensures Pass([Filled(it, first)], s) == [Filled(it, first), Filled(CloneOf(it), s)]
    ensures Found([Filled(it, first)], s) == if HasPort(it) then 1 else 0
  {
    PassSnoc([], Filled(it, first), s);
    assert [] + [Filled(it, first)] == [Filled(it, first)];
  }

  lemma PassFresh(it: Item, s: Service)
    requires Fresh(it)
    ensures Pass([it], s) == [Filled(it, s)] == Expanded(it, [s])
    ensures Found([it], s) == if HasPort(it) then 1 else 0
  {
    PassSnoc([], it, s);
    assert [] + [it] == [it] && [s][1..] == [];
    NoClones(it);
  }

  lemma PassExpanded(it: Item, ss: seq<Service>, s: Service)
    requires Fresh(it) && DistinctTypes(ss + [s])
    ensures Pass(Expanded(it, ss), s) == Expanded(it, ss + [s])
    ensures Found(Expanded(it, ss), s) == if HasPort(it) then 1 else 0
  {
    hide Clones, Pass, Found, Fresh, Filled, CloneOf;
    if ss == [] {
      PassFresh(it, s);
      assert [] + [s] == [s];
    } else {
      var first, later := Filled(it, ss[0]), ss[1..];
      assert (ss + [s])[1..] == later + [s] && (ss + [s])[0] == ss[0];
      assert forall k :: 0 <= k < |ss| ==> (ss + [s])[k] == ss[k];
      assert (ss + [s])[|ss|] == s && ss[0] in ss + [s];
      PassConcat([first], Clones(it, later), s);
      ClonesIgnored(it, later, s);
      PassOriginal(it, ss[0], s);
      MoreClones(it, later, s);
    }
  }

  lemma NoClones(it: Item)
    ensures Clones(it, []) == []
  {
  }

  lemma MoreClones(it: Item, ss: seq<Service>, s: Service)
    ensures Clones(it, ss + [s]) == [Filled(CloneOf(it), s)] + Clones(it, ss)
  {
    assert (ss + [s])[..|ss|] == ss;
  }

  function Ports(items: seq<Item>): nat {
    if items == [] then 0 else Ports(items[..|items| - 1]) + if HasPort(items[|items| - 1]) then 1 else 0
  }

  lemma {:induction false} PassExpandedAll(items: seq<Item>, ss: seq<Service>, s: Service)
    requires (forall it :: it in items ==> Fresh(it)) && DistinctTypes(ss + [s])
    ensures Pass(ExpandedAll(items, ss), s) == ExpandedAll(items, ss + [s])
    ensures Found(ExpandedAll(items, ss), s) == Ports(items)
  {
    hide Expanded, DistinctTypes;
    if items != [] {
      var front, last := items[..|items| - 1], items[|items| - 1];
      assert last in items && forall it :: it in front ==> it in items;
      PassExpandedAll(front, ss, s);
      PassConcat(ExpandedAll(front, ss), Expanded(last, ss), s);
      PassExpanded(last, ss, s);
    }
  }

  lemma UnexpandedItem(it: Item)
    ensures Expanded(it, []) == [it]
  {
  }

  lemma {:induction false} ExpandedByNothing(items: seq<Item>)
    ensures ExpandedAll(items, []) == items
  {
    hide Expanded;
    if items != [] {
      var front, last := items[..|items| - 1], items[|items| - 1];
      ExpandedByNothing(front);
      assert Expanded(last, []) == [last] by { UnexpandedItem(last); }
      assert items == front + [last];
    }
  }

  function Times(n: nat, x: nat): nat {
    if n == 0 then 0 else Times(n - 1, x) + x
  }

  /** Any number of passes with pairwise distinct, nonzero socket types over a list built without one: every address
      ends up once per service, with that service's port, addresses in their order; every pass finds each of them. */
  lemma {:induction false} PassesExpand(items: seq<Item>, ss: seq<Service>)
    requires (forall it :: it in items ==> Fresh(it)) && DistinctTypes(ss)
    ensures Passes(items, ss) == ExpandedAll(items, ss)
    ensures FoundInAll(items, ss) == Times(|ss|, Ports(items))
  {
    hide Pass, Found, Fresh, ExpandedAll, DistinctTypes, Ports;
    if ss == [] {
      ExpandedByNothing(items);
    } else {
      var front, last := ss[..|ss| - 1], ss[|ss| - 1];
      assert ss == front + [last];
      FewerTypes(ss);
      PassesExpand(items, front);
      PassExpandedAll(items, front, last);
    }
  }

  lemma FewerTypes(ss: seq<Service>)
    requires DistinctTypes(ss) && ss != []
    ensures DistinctTypes(ss[..|ss| - 1])
  {
    var front := ss[..|ss| - 1];
    assert forall k :: 0 <= k < |front| ==> front[k] == ss[k];
  }

  /** What is known about the service: a port number, or the ports getservbyname finds for TCP and UDP. */
  datatype Lookup = Numeric(port: nat) | Named(tcp: Option<nat>, udp: Option<nat>)

  datatype Rc = Ok | EaiNoname | EaiService

  /** The passes that the service string calls for, given the socket type asked for (0 for any). */
  function Services(hint: nat, serv: Lookup): seq<Service> {
    match serv
    case Numeric(port) =>
      if hint != 0 then [Service(hint, port)] else [Service(SOCK_STREAM, port), Service(SOCK_DGRAM, port)]
    case Named(tcp, udp) =>
      (if (hint == 0 || hint == SOCK_STREAM) && tcp.Some? then [Service(SOCK_STREAM, tcp.value)] else [])
      + (if (hint == 0 || hint == SOCK_DGRAM) && udp.Some? then [Service(SOCK_DGRAM, udp.value)] else [])
  }

  /** The entry that ga_aistruct makes; a local path that does not fit leaves it without an address. */
  function Built(hint: nat, protocol: nat, family: Family, addr: seq<byte>, sunPath: nat): Item {
    Item(hint == 0, family, hint, protocol, if family.LOCAL? && |addr| >= sunPath then None else Some(Address(addr, 0)),
         None)
  }

  /** With no socket type asked for, the service step gives every address one entry per service found, and fails
      exactly when no service was found or no address is an Internet address. */
  lemma ServiceStep(items: seq<Item>, serv: Lookup)
    requires forall it :: it in items ==> Fresh(it)
    ensures Passes(items, Services(0, serv)) == ExpandedAll(items, Services(0, serv))
    ensures FoundInAll(items, Services(0, serv)) == 0 <==> Services(0, serv) == [] || Ports(items) == 0
  {
    hide Passes, ExpandedAll, FoundInAll, Ports, Fresh;
    PassesExpand(items, Services(0, serv));
    TimesIsZero(|Services(0, serv)|, Ports(items));
  }

  lemma {:induction false} TimesIsZero(n: nat, x: nat)
    ensures Times(n, x) == 0 <==> n == 0 || x == 0
  {
    if n > 0 {
      TimesIsZero(n - 1, x);
    }
  }

  // ----- the finished list, field by field -----

  /** r is an entry for the address of it, with this socket type; an Internet address has this port. */
  predicate Serves(r: Item, it: Item, socktype: nat, port: nat) {
    && r.family == it.family && r.protocol == it.protocol && r.socktype == socktype
    && r.addr.Some? == it.addr.Some?
    && (r.addr.Some? ==>
          && r.addr.value.host == it.addr.value.host
          && r.addr.value.port == if it.family.LOCAL? then it.addr.value.port else port)
  }

  lemma FilledServes(it: Item, s: Service)
    ensures Serves(Filled(it, s), it, s.socktype, s.port) && Serves(Filled(CloneOf(it), s), it, s.socktype, s.port)
    ensures Filled(it, s).clone == it.clone && Filled(it, s).canonname == it.canonname
    ensures !Filled(CloneOf(it), s).clone && Filled(CloneOf(it), s).canonname.None?
  {
  }

  lemma {:induction false} ClonesAt(it: Item, ss: seq<Service>)
    ensures |Clones(it, ss)| == |ss|
    ensures forall j :: 0 <= j < |ss| ==> Clones(it, ss)[j] == Filled(CloneOf(it), ss[|ss| - 1 - j])
  {
    hide Filled, CloneOf;
    if ss != [] {
      var front := ss[..|ss| - 1];
      ClonesAt(it, front);
      forall j | 0 < j < |ss|
        ensures Clones(it, ss)[j] == Filled(CloneOf(it), ss[|ss| - 1 - j])
      {
        assert Clones(it, front)[j - 1] == Filled(CloneOf(it), front[|front| - 1 - (j - 1)]);
      }
    }
  }

  lemma ExpandedServes(it: Item, ss: seq<Service>, j: nat)
    requires j < |ss|
    ensures |Expanded(it, ss)| == |ss|
    ensures
      var r, s := Expanded(it, ss)[j], ss[if j == 0 then 0 else |ss| - j];
      && Serves(r, it, s.socktype, s.port) && (it.clone ==> (r.clone <==> j == 0))
      && r.canonname == if j == 0 then it.canonname else None
  {
    hide Serves, Clones;
    ClonesAt(it, ss[1..]);
    FilledServes(it, ss[if j == 0 then 0 else |ss| - j]);
  }

  lemma ExpandedLength(it: Item, ss: seq<Service>)
    requires ss != []
    ensures |Expanded(it, ss)| == |ss|
  {
    ClonesAt(it, ss[1..]);
  }

  lemma {:induction false} ExpandedCount(items: seq<Item>, ss: seq<Service>)
    requires ss != []
    ensures |ExpandedAll(items, ss)| == |items| * |ss|
  {
    hide Expanded;
    if items != [] {
      ExpandedCount(items[..|items| - 1], ss);
      ExpandedLength(items[|items| - 1], ss);
      OneMore(|items| - 1, |ss|);
    }
  }

  lemma OneMore(n: nat, m: nat)
    ensures (n + 1) * m == n * m + m && 0 * m == 0
  {
  }

  lemma {:induction false} ExpandedAt(items: seq<Item>, ss: seq<Service>, i: nat, j: nat)
    requires i < |items| && j < |ss|
    ensures |ExpandedAll(items, ss)| == |items| * |ss| && |Expanded(items[i], ss)| == |ss|
    ensures 0 <= i * |ss| + j < |items| * |ss| && ExpandedAll(items, ss)[i * |ss| + j] == Expanded(items[i], ss)[j]
    decreases |items|
  {
    hide Expanded;
    var front := items[..|items| - 1];
    ExpandedCount(items, ss);
    ExpandedCount(front, ss);
    ExpandedLength(items[i], ss);
    OneMore(|front|, |ss|);
    if i < |front| {
      ExpandedAt(front, ss, i, j);
    }
  }

  /** The passes, field by field. Each of the addresses has become one entry per service, next to each other: entry j of
      an address has its family, its octets and its protocol, and the socket type and port of one of the services. The
      first is the original; the others are copies without a canonical name, the latest service first. */
  lemma PassesServe(items: seq<Item>, ss: seq<Service>, i: nat, j: nat)
    requires (forall it :: it in items ==> Fresh(it)) && DistinctTypes(ss) && i < |items| && j < |ss|
    ensures |Passes(items, ss)| == |items| * |ss| && i * |ss| + j < |items| * |ss|
    ensures
      var r, s := Passes(items, ss)[i * |ss| + j], ss[if j == 0 then 0 else |ss| - j];
      && r.family == items[i].family && r.protocol == items[i].protocol && r.socktype == s.socktype
      && (r.clone <==> j == 0) && r.canonname.None?
      && (!r.family.LOCAL? ==> items[i].addr.Some? && r.addr == Some(Address(items[i].addr.value.host, s.port)))
      && (r.family.LOCAL? ==> r.addr == items[i].addr)
  {
    hide Passes, ExpandedAll, Expanded, DistinctTypes;
    PassesExpand(items, ss);
    ExpandedAt(items, ss, i, j);
    ExpandedServes(items[i], ss, j);
    assert items[i] in items;
  }

  /** A pass over entries that have a socket type and are not to be cloned. */
  lemma {:induction false} PassServes(items: seq<Item>, s: Service)
    requires forall it :: it in items ==> !it.clone && it.socktype == s.socktype
    ensures |Pass(items, s)| == |items| && Found(items, s) == Ports(items)
    ensures forall i :: 0 <= i < |items| ==> Serves(Pass(items, s)[i], items[i], s.socktype, s.port)
  {
    hide Serves, Filled, CloneOf;
    if items != [] {
      var front, last := items[..|items| - 1], items[|items| - 1];
      assert last in items && forall it :: it in front ==> it in items;
      PassServes(front, s);
      FilledServes(last, s);
    }
  }

  /** A numeric service with no socket type asked for: stream then datagram for each address, in order, both with the
      port asked for. */
  lemma StreamThenDatagram(items: seq<Item>, port: nat, i: nat)
    requires (forall it :: it in items ==> Fresh(it)) && i < |items|
    ensures
      var result := Passes(items, Services(0, Numeric(port)));
      && |result| == 2 * |items|
      && result[2 * i].socktype == SOCK_STREAM && result[2 * i + 1].socktype == SOCK_DGRAM
      && forall r <- [result[2 * i], result[2 * i + 1]] ::
           && r.family == items[i].family && r.protocol == items[i].protocol
           && (!r.family.LOCAL? ==> items[i].addr.Some? && r.addr == Some(Address(items[i].addr.value.host, port)))
  {
    hide Passes, Fresh;
    var ss := Services(0, Numeric(port));
    PassesServe(items, ss, i, 0);
    PassesServe(items, ss, i, 1);
    assert i * |ss| == 2 * i && |items| * |ss| == 2 * |items|;
  }
}
