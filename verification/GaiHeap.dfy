/** The linked list of addrinfo structures: ga_aistruct builds it, ga_port walks it and clones as it goes. */
module GaiHeap {
  import opened Common
  import opened Gai

  class SockAddr {
    const host: seq<byte>
    var port: nat

    constructor (host: seq<byte>, port: nat)
      ensures this.host == host && this.port == port
    {
      this.host, this.port := host, port;
    }
  }

  class AddrInfo {
    var clone: bool
    var family: Family
    var socktype: nat
    var protocol: nat
    var addr: SockAddr?
    var canonname: Option<string>
    var next: AddrInfo?

    constructor (family: Family, socktype: nat, protocol: nat, clone: bool, addr: SockAddr?)
      ensures this.clone == clone && this.family == family && this.socktype == socktype && this.protocol == protocol
      ensures this.addr == addr && this.canonname == None && this.next == null
    {
      this.clone, this.family, this.socktype, this.protocol := clone, family, socktype, protocol;
      this.addr, this.canonname, this.next := addr, None, null;
    }

    /** The entry as a value. */
    ghost function Item(): Item
      reads this, addr
    {
      Gai.Item(clone, family, socktype, protocol, if addr == null then None else Some(Address(addr.host, addr.port)),
               canonname)
    }
  }

  ghost function NextsOf(nodes: seq<AddrInfo>): seq<AddrInfo?>
    reads nodes
  {
    seq(|nodes|, k requires 0 <= k < |nodes| reads nodes => nodes[k].next)
  }

  ghost function AddrsOf(nodes: seq<AddrInfo>): seq<SockAddr?>
    reads nodes
  {
    seq(|nodes|, k requires 0 <= k < |nodes| reads nodes => nodes[k].addr)
  }

  ghost function Addrs(nodes: seq<AddrInfo>): set<object>
    reads nodes
  {
    set k | 0 <= k < |nodes| && nodes[k].addr != null :: nodes[k].addr
  }

  /** The nodes and their socket addresses. */
  ghost function Footprint(nodes: seq<AddrInfo>): set<object>
    reads nodes
  {
    (set n | n in nodes :: n as object) + Addrs(nodes)
  }

  ghost function Parts(nodes: seq<AddrInfo>, addrs: seq<SockAddr?>): set<object> {
    (set n | n in nodes :: n as object) + (set a: SockAddr? | a in addrs && a != null :: a)
  }

  lemma FootprintParts(nodes: seq<AddrInfo>)
    ensures Footprint(nodes) == Parts(nodes, AddrsOf(nodes))
  {
    var addrs := AddrsOf(nodes);
    forall a: SockAddr? | a != null
      ensures a in Addrs(nodes) <==> a in addrs
    {
      assert forall k :: 0 <= k < |nodes| ==> addrs[k] == nodes[k].addr;
      if a in Addrs(nodes) {
        var k :| 0 <= k < |nodes| && nodes[k].addr == a;
        assert addrs[k] == a;
      }
    }
    assert Addrs(nodes) == set a: SockAddr? | a in addrs && a != null :: a;
  }

  ghost function ItemsOf(nodes: seq<AddrInfo>): seq<Item>
    reads nodes, Addrs(nodes)
  {
    seq(|nodes|, k requires 0 <= k < |nodes| reads nodes, Addrs(nodes) => nodes[k].Item())
  }

  function Head(nodes: seq<AddrInfo>): AddrInfo? {
    if nodes == [] then null else nodes[0]
  }

  ghost function Successor(nodes: seq<AddrInfo>, k: nat): AddrInfo?
    requires k < |nodes|
  {
    if k + 1 < |nodes| then nodes[k + 1] else null
  }

  /** These are the pointers that chain the nodes in this order. */
  ghost predicate Chains(nodes: seq<AddrInfo>, nexts: seq<AddrInfo?>) {
    |nexts| == |nodes| && forall k :: 0 <= k < |nodes| ==> nexts[k] == Successor(nodes, k)
  }

  /** No node occurs twice, and no two nodes share a socket address. */
  ghost predicate Separate(nodes: seq<AddrInfo>, addrs: seq<SockAddr?>) {
    && |nodes| == |addrs|
    && (forall i, j :: 0 <= i < j < |nodes| ==> nodes[i] != nodes[j])
    && (forall i, j :: 0 <= i < j < |nodes| && addrs[i] != null ==> addrs[i] != addrs[j])
  }

  /** Every Internet entry has a socket address. */
  ghost predicate Addressed(items: seq<Item>) {
    forall k :: 0 <= k < |items| && HasPort(items[k]) ==> items[k].addr.Some?
  }

  /** The list that starts at head: its nodes, in order, showing these entries. */
  ghost predicate List(head: AddrInfo?, nodes: seq<AddrInfo>, items: seq<Item>)
    reads nodes, Addrs(nodes)
  {
    && head == Head(nodes) && Chains(nodes, NextsOf(nodes)) && Separate(nodes, AddrsOf(nodes))
    && ItemsOf(nodes) == items && Addressed(items)
  }

  /** ga_clone: a new node behind ai, with its own copy of the socket address. */
  method GaClone(ai: AddrInfo) returns (n: AddrInfo)
    modifies ai`next
    ensures fresh(n) && ai.next == n && n.next == old(ai.next)
    ensures n.Item() == CloneOf(old(ai.Item())) && ai.Item() == old(ai.Item())
    ensures if ai.addr == null then n.addr == null else n.addr != null && fresh(n.addr)
  {
    var copy: SockAddr? := null;
    if ai.addr != null {
      copy := new SockAddr(ai.addr.host, ai.addr.port);
    }
    n := new AddrInfo(ai.family, ai.socktype, ai.protocol, false, copy);
    n.next := ai.next;
    ai.next := n;
  }

  /** What the loop of ga_port does to one entry, or to its clone; `last` is the entry the walk goes on from. */
  method PortOne(ai: AddrInfo, port: nat, socktype: nat) returns (last: AddrInfo, found: nat)
    requires HasPort(ai.Item()) ==> ai.addr != null
    modifies ai, ai.addr
    ensures PassOne(old(ai.Item()), Service(socktype, port))
         == if last == ai then [ai.Item()] else [ai.Item(), last.Item()]
    ensures found == Found([old(ai.Item())], Service(socktype, port))
    ensures last.next == old(ai.next) && ai.addr == old(ai.addr)
    ensures last != ai ==> fresh(last) && ai.next == last && (last.addr == null || fresh(last.addr))
  {
    last, found := ai, 0;
    FoundOne(ai.Item(), Service(socktype, port));
    if ai.clone {
      if ai.socktype != 0 {
        last := GaClone(ai);
      }
    } else if ai.socktype != socktype {
      return;
    }
    last.socktype := socktype;
    if last.family != LOCAL {
      last.addr.port := port;
      found := 1;
    }
  }

  lemma FoundOne(it: Item, s: Service)
    ensures Found([it], s) == if HasPort(it) && (it.clone || it.socktype == s.socktype) then 1 else 0
  {
    PassSnoc([], it, s);
    assert [] + [it] == [it];
  }

  /** n inserted behind position d. */
  ghost function Inserted<T>(all: seq<T>, d: nat, x: T): seq<T>
    requires d < |all|
  {
    all[..d + 1] + [x] + all[d + 1..]
  }

  lemma ChainsWith(all: seq<AddrInfo>, nexts: seq<AddrInfo?>, d: nat, n: AddrInfo)
    requires d < |all| && Chains(all, nexts)
    ensures Chains(Inserted(all, d, n), Inserted(nexts[d := n], d, nexts[d]))
  {
    var now, links := Inserted(all, d, n), Inserted(nexts[d := n], d, nexts[d]);
    forall k | 0 <= k < |now|
      ensures links[k] == Successor(now, k)
    {
      if k <= d {
        assert now[k] == all[k];
      } else if k > d + 1 {
        assert now[k] == all[k - 1] && links[k] == nexts[k - 1];
      }
    }
  }

  lemma SeparateWith(all: seq<AddrInfo>, addrs: seq<SockAddr?>, d: nat, n: AddrInfo, a: SockAddr?)
    requires d < |all| && Separate(all, addrs) && n !in all && (a == null || a !in addrs)
    ensures Separate(Inserted(all, d, n), Inserted(addrs, d, a))
  {
    var now, as' := Inserted(all, d, n), Inserted(addrs, d, a);
    forall k | 0 <= k < |now|
      ensures now[k] == if k <= d then all[k] else if k == d + 1 then n else all[k - 1]
      ensures as'[k] == if k <= d then addrs[k] else if k == d + 1 then a else addrs[k - 1]
    {
    }
  }

  /** The same within the list, all of whose other nodes stay as they are. */
  method PortInList(ai: AddrInfo, port: nat, socktype: nat, ghost all: seq<AddrInfo>, ghost d: nat)
    returns (last: AddrInfo, found: nat)
    requires d < |all| && all[d] == ai && Separate(all, AddrsOf(all)) && (HasPort(ai.Item()) ==> ai.addr != null)
    modifies ai, ai.addr
    ensures PassOne(old(ai.Item()), Service(socktype, port))
         == if last == ai then [ai.Item()] else [ai.Item(), last.Item()]
    ensures found == Found([old(ai.Item())], Service(socktype, port))
    ensures last != ai ==> fresh(last) && (last.addr == null || fresh(last.addr))
    ensures last.next == old(ai.next)
    ensures AddrsOf(all) == old(AddrsOf(all))
    ensures NextsOf(all) == old(NextsOf(all))[d := if last == ai then old(ai.next) else last]
    ensures ItemsOf(all) == old(ItemsOf(all))[d := ai.Item()]
  {
    hide Found, PassOne;
    ghost var nexts, addrs, items := NextsOf(all), AddrsOf(all), ItemsOf(all);
    last, found := PortOne(ai, port, socktype);
    forall k | 0 <= k < |all| && k != d
      ensures all[k].next == nexts[k] && all[k].Item() == items[k] && all[k].addr == addrs[k]
    {
      assert all[k] != ai && (addrs[k] != null ==> addrs[k] != addrs[d]);
      assert old(all[k].Item()) == items[k];
    }
  }

  /** The list with a clone behind position d. */
  lemma ListWith(head: AddrInfo?, all: seq<AddrInfo>, d: nat, n: AddrInfo, items: seq<Item>, nexts: seq<AddrInfo?>)
    requires d < |all| == |nexts| && head == Head(all) && Chains(all, nexts) && Separate(all, AddrsOf(all)) && n !in all
    requires NextsOf(all) == nexts[d := n] && n.next == nexts[d]
    requires ItemsOf(all) == items && Addressed(items)
    requires (n.addr == null || n.addr !in AddrsOf(all)) && (HasPort(n.Item()) ==> n.addr != null)
    ensures List(head, Inserted(all, d, n), items[..d + 1] + [n.Item()] + items[d + 1..])
  {
    hide Chains, Separate, Inserted, NextsOf, AddrsOf, ItemsOf, Addressed, HasPort;
    ChainsWith(all, nexts, d, n);
    SeparateWith(all, AddrsOf(all), d, n, n.addr);
    NextsWith(all, d, n, nexts);
    AddrsWith(all, d, n);
    ItemsWith(all, d, n, items);
    AddressedWith(items, d, n);
    HeadWith(all, d, n);
  }

  lemma HeadWith(all: seq<AddrInfo>, d: nat, n: AddrInfo)
    requires d < |all|
    ensures Head(Inserted(all, d, n)) == Head(all)
  {
  }

  lemma NextsWith(all: seq<AddrInfo>, d: nat, n: AddrInfo, nexts: seq<AddrInfo?>)
    requires d < |all| == |nexts| && NextsOf(all) == nexts[d := n] && n.next == nexts[d]
    ensures NextsOf(Inserted(all, d, n)) == Inserted(nexts[d := n], d, nexts[d])
  {
    hide NextsOf;
    var now, was, links := Inserted(all, d, n), NextsOf(all), Inserted(nexts[d := n], d, nexts[d]);
    NextsAt(all);
    NextsAt(now);
    forall k | 0 <= k < |now|
      ensures NextsOf(now)[k] == links[k]
    {
    }
  }

  lemma AddrsWith(all: seq<AddrInfo>, d: nat, n: AddrInfo)
    requires d < |all|
    ensures |AddrsOf(all)| == |all| && AddrsOf(Inserted(all, d, n)) == Inserted(AddrsOf(all), d, n.addr)
  {
    assert AddrsOf(Inserted(all, d, n)) == Inserted(AddrsOf(all), d, n.addr);
  }

  lemma ItemsWith(all: seq<AddrInfo>, d: nat, n: AddrInfo, items: seq<Item>)
    requires d < |all| && ItemsOf(all) == items
    ensures |items| == |all| && ItemsOf(Inserted(all, d, n)) == items[..d + 1] + [n.Item()] + items[d + 1..]
  {
    hide HasPort;
    var now, items' := Inserted(all, d, n), items[..d + 1] + [n.Item()] + items[d + 1..];
    forall k | 0 <= k < |now|
      ensures now[k].Item() == items'[k]
    {
      assert now[k] == if k <= d then all[k] else if k == d + 1 then n else all[k - 1];
    }
  }

  lemma AddressedWith(items: seq<Item>, d: nat, n: AddrInfo)
    requires d < |items| && Addressed(items) && (HasPort(n.Item()) ==> n.addr != null)
    ensures Addressed(items[..d + 1] + [n.Item()] + items[d + 1..])
  {
    hide HasPort;
  }

  lemma NextsAt(nodes: seq<AddrInfo>)
    ensures |NextsOf(nodes)| == |nodes| && forall k :: 0 <= k < |nodes| ==> NextsOf(nodes)[k] == nodes[k].next
  {
  }

  method PortStep(ai: AddrInfo, port: nat, socktype: nat, ghost head: AddrInfo?, ghost all: seq<AddrInfo>, ghost d: nat,
                  ghost items: seq<Item>)
    returns (next: AddrInfo?, found: nat, ghost all': seq<AddrInfo>)
    requires d < |all| && all[d] == ai && List(head, all, items)
    modifies ai, ai.addr
    ensures List(head, all', items[..d] + PassOne(items[d], Service(socktype, port)) + items[d + 1..])
    ensures |all'| >= |all| && all'[|all'| - (|all| - d - 1)..] == all[d + 1..]
    ensures found == Found([items[d]], Service(socktype, port))
    ensures next == Successor(all, d)
    ensures forall n :: n in all' ==> n in all || (fresh(n) && (n.addr == null || fresh(n.addr)))
    ensures ai.addr == old(ai.addr)
  {
    hide Found, PassOne, Chains, Separate, Addressed, HasPort, Inserted;
    ghost var nexts, addrs := NextsOf(all), AddrsOf(all);
    assert ai.Item() == ItemsOf(all)[d] == items[d] && ai.next == nexts[d] && ai.addr == addrs[d];
    ChainAt(all, nexts, d);
    AddressAt(items, d);
    var last;
    last, found := PortInList(ai, port, socktype, all, d);
    assert ai.addr == AddrsOf(all)[d];
    next := last.next;
    StillAddressed(items, d, Service(socktype, port));
    ghost var items' := items[d := ai.Item()];
    if last == ai {
      all' := all;
      assert nexts[d := nexts[d]] == nexts;
      assert items[..d] + [ai.Item()] + items[d + 1..] == items';
      assert List(head, all, items');
    } else {
      all' := Inserted(all, d, last);
      InsertedBehind(all, d, last);
      ListWith(head, all, d, last, items', nexts);
      assert items[..d] + [ai.Item(), last.Item()] + items[d + 1..]
          == items'[..d + 1] + [last.Item()] + items'[d + 1..];
    }
  }

  lemma InsertedBehind<T>(all: seq<T>, d: nat, x: T)
    requires d < |all|
    ensures var now := Inserted(all, d, x);
            |now| == |all| + 1 && now[d + 2..] == all[d + 1..] && forall y :: y in now ==> y in all || y == x
  {
  }

  lemma ChainAt(all: seq<AddrInfo>, nexts: seq<AddrInfo?>, d: nat)
    requires d < |all| && Chains(all, nexts)
    ensures |nexts| == |all| && nexts[d] == Successor(all, d)
  {
  }

  lemma AddressAt(items: seq<Item>, d: nat)
    requires d < |items| && Addressed(items)
    ensures HasPort(items[d]) ==> items[d].addr.Some?
  {
  }

  /** A pass changes neither an entry's family nor whether it has an address. */
  lemma StillAddressed(items: seq<Item>, d: nat, s: Service)
    requires d < |items| && Addressed(items)
    ensures PassOne(items[d], s) != [] && Addressed(items[d := PassOne(items[d], s)[0]])
    ensures |PassOne(items[d], s)| > 1 ==>
      var it := PassOne(items[d], s)[1]; HasPort(it) ==> it.addr.Some?
  {
  }

  /** ga_port: one pass over a list that grows while it is traversed. */
  method GaPort(head: AddrInfo?, port: nat, socktype: nat, ghost nodes: seq<AddrInfo>, ghost items: seq<Item>)
    returns (nfound: nat, ghost all: seq<AddrInfo>)
    requires List(head, nodes, items)
    modifies Footprint(nodes)
    ensures List(head, all, Pass(items, Service(socktype, port)))
    ensures nfound == Found(items, Service(socktype, port))
    ensures fresh(Footprint(all) - old(Footprint(nodes)))
  {
    hide Pass, PassOne, Found, List;
    ghost var s := Service(socktype, port);
    ghost var i, d := 0, 0;
    all := nodes;
    nfound := 0;
    var ai := head;
    NoPass(items, s);
    ListIsAligned(head, nodes, items);
    while ai != null
      invariant 0 <= i <= |nodes| == |items| && d <= |all|
      invariant List(head, all, Pass(items[..i], s) + items[i..])
      invariant d == |Pass(items[..i], s)| && all[d..] == nodes[i..]
      invariant ai == if d == |all| then null else all[d]
      invariant forall n :: n in all ==> n in nodes || (fresh(n) && (n.addr == null || fresh(n.addr)))
      invariant forall n :: n in nodes ==> n.addr == old(n.addr)
      invariant nfound == Found(items[..i], s)
      decreases |nodes| - i
    {
      ghost var shown := Pass(items[..i], s) + items[i..];
      CursorAt(all, d, nodes, i);
      CursorAt(shown, d, items, i);
      ListIsAligned(head, all, shown);
      ghost var all';
      var next, found;
      next, found, all' := PortStep(ai, port, socktype, head, all, d, shown);
      nfound := nfound + found;
      PassExtends(items, i, s);
      assert shown[..d] == Pass(items[..i], s);
      ListIsAligned(head, all', Pass(items[..i + 1], s) + items[i + 1..]);
      all, i := all', i + 1;
      d := |Pass(items[..i], s)|;
      ai := next;
    }
    assert nodes[i..] == [] && i == |items|;
    assert items[..i] == items && Pass(items, s) + items[i..] == Pass(items, s);
  }

  /** What is left from d on is what is left of the original from i on. */
  lemma CursorAt<T>(all: seq<T>, d: nat, nodes: seq<T>, i: nat)
    requires d <= |all| && i <= |nodes| && all[d..] == nodes[i..]
    ensures d < |all| <==> i < |nodes|
    ensures d < |all| ==> all[d] == nodes[i] && all[d + 1..] == nodes[i + 1..]
  {
    if d < |all| && i < |nodes| {
      assert all[d..][0] == all[d] && nodes[i..][0] == nodes[i];
      assert all[d..][1..] == all[d + 1..] && nodes[i..][1..] == nodes[i + 1..];
    }
  }

  lemma NoPass(items: seq<Item>, s: Service)
    ensures Pass([], s) == [] && Found([], s) == 0 && items[..0] == [] && [] + items[0..] == items
  {
  }

  lemma ListIsAligned(head: AddrInfo?, nodes: seq<AddrInfo>, items: seq<Item>)
    requires List(head, nodes, items)
    ensures |nodes| == |items| && head == Head(nodes)
  {
  }

  lemma PassExtends(items: seq<Item>, i: nat, s: Service)
    requires i < |items|
    ensures Pass(items[..i + 1], s) == Pass(items[..i], s) + PassOne(items[i], s)
    ensures Found(items[..i + 1], s) == Found(items[..i], s) + Found([items[i]], s)
  {
    assert items[..i + 1] == items[..i] + [items[i]];
    PassConcat(items[..i], [items[i]], s);
    PassSnoc(items[..i], items[i], s);
  }

  /** aihead and paipnext of getaddrinfo; paipnext points at aihead, or at the next field of the last node. */
  class Results {
    var aihead: AddrInfo?
    var last: AddrInfo?
    ghost var nodes: seq<AddrInfo>
    ghost var items: seq<Item>

    ghost predicate Valid()
      reads this, nodes, Addrs(nodes)
    {
      List(aihead, nodes, items) && last == if nodes == [] then null else nodes[|nodes| - 1]
    }

    constructor ()
      ensures Valid() && nodes == [] && items == []
    {
      aihead, last := null, null;
      nodes, items := [], [];
    }

    /** Hangs the node on the last link, which becomes its own. */
    method Link(ai: AddrInfo)
      requires Valid() && ai !in nodes && ai.next == null && (ai.addr == null || ai.addr !in AddrsOf(nodes))
      requires HasPort(ai.Item()) ==> ai.addr != null
      modifies this, last
      ensures Valid() && nodes == old(nodes) + [ai] && items == old(items) + [old(ai.Item())]
      ensures AddrsOf(nodes) == old(AddrsOf(nodes)) + [old(ai.addr)]
    {
      hide Addressed, Separate, Chains, HasPort, List, NextsOf, AddrsOf;
      ghost var was, nexts, addrs := nodes, NextsOf(nodes), AddrsOf(nodes);
      ListParts(aihead, nodes, items);
      if last == null {
        aihead := ai;
      } else {
        SetNext(last, ai, nodes);
      }
      last := ai;
      ghost var shown := items;
      nodes, items := nodes + [ai], items + [ai.Item()];
      ListAppended(aihead, was, nexts, ai, shown);
      AddrsAppended(was, ai);
      assert AddrsOf(was) == addrs;
    }

    /** ga_aistruct: appends a node, and sets AI_CLONE when the caller asked for no socket type. */
    method GaAistruct(hint: nat, protocol: nat, addr: seq<byte>, family: Family, sunPath: nat) returns (rc: Rc)
      requires Valid()
      modifies this, last
      ensures Valid()
      ensures items == old(items) + [Built(hint, protocol, family, addr, sunPath)]
      ensures |nodes| == |old(nodes)| + 1 && nodes[..|old(nodes)|] == old(nodes)
      ensures fresh(nodes[|old(nodes)|]) && (nodes[|old(nodes)|].addr == null || fresh(nodes[|old(nodes)|].addr))
      ensures rc == if family.LOCAL? && |addr| >= sunPath then EaiService else Ok
      ensures fresh(Footprint(nodes) - old(Footprint(nodes)))
    {
      hide Separate, Chains, Addressed, Footprint;
      ghost var addrs := AddrsOf(nodes);
      FootprintParts(nodes);
      var sa: SockAddr? := null;
      rc := Ok;
      if family.LOCAL? && |addr| >= sunPath {
        rc := EaiService;
      } else {
        sa := new SockAddr(addr, 0);
      }
      var ai := new AddrInfo(family, hint, protocol, hint == 0, sa);
      assert ai.Item() == Built(hint, protocol, family, addr, sunPath);
      assert NextsOf(nodes) == old(NextsOf(nodes)) && AddrsOf(nodes) == addrs && ItemsOf(nodes) == old(ItemsOf(nodes));
      Link(ai);
      FootprintParts(nodes);
    }
  }

  lemma ListParts(head: AddrInfo?, nodes: seq<AddrInfo>, items: seq<Item>)
    requires List(head, nodes, items)
    ensures head == Head(nodes) && Chains(nodes, NextsOf(nodes)) && Separate(nodes, AddrsOf(nodes))
    ensures ItemsOf(nodes) == items && Addressed(items)
  {
  }

  lemma AddrsAppended(nodes: seq<AddrInfo>, ai: AddrInfo)
    ensures AddrsOf(nodes + [ai]) == AddrsOf(nodes) + [ai.addr]
  {
  }

  /** Making the last node point on changes nothing else in the list. */
  method SetNext(last: AddrInfo, ai: AddrInfo, ghost nodes: seq<AddrInfo>)
    requires nodes != [] && last == nodes[|nodes| - 1] && Separate(nodes, AddrsOf(nodes))
    modifies last`next
    ensures NextsOf(nodes) == old(NextsOf(nodes))[|nodes| - 1 := ai]
    ensures AddrsOf(nodes) == old(AddrsOf(nodes)) && ItemsOf(nodes) == old(ItemsOf(nodes))
    ensures last != ai ==> ai.next == old(ai.next)
    ensures ai.Item() == old(ai.Item()) && ai.addr == old(ai.addr)
  {
    ghost var nexts, addrs, items := NextsOf(nodes), AddrsOf(nodes), ItemsOf(nodes);
    last.next := ai;
    forall k | 0 <= k < |nodes|
      ensures nodes[k].Item() == items[k] && nodes[k].addr == addrs[k]
      ensures k < |nodes| - 1 ==> nodes[k].next == nexts[k]
    {
      assert items[k] == old(nodes[k].Item());
      if k < |nodes| - 1 {
        assert nodes[k] != last;
      }
    }
  }

  lemma ChainsOn(nodes: seq<AddrInfo>, nexts: seq<AddrInfo?>, ai: AddrInfo)
    requires Chains(nodes, nexts)
    ensures nodes == [] ==> Chains([ai], [null])
    ensures nodes != [] ==> Chains(nodes + [ai], nexts[|nodes| - 1 := ai] + [null])
  {
    if nodes != [] {
      var now, links := nodes + [ai], nexts[|nodes| - 1 := ai] + [null];
      forall k | 0 <= k < |now|
        ensures links[k] == Successor(now, k)
      {
      }
    }
  }

  /** The list with a new last node. */
  lemma ListAppended(head: AddrInfo?, was: seq<AddrInfo>, nexts: seq<AddrInfo?>, ai: AddrInfo, items: seq<Item>)
    requires head == Head(was + [ai]) && ai.next == null && ai !in was && Chains(was, nexts)
    requires was != [] ==> NextsOf(was) == nexts[|was| - 1 := ai]
    requires Separate(was, AddrsOf(was)) && (ai.addr == null || ai.addr !in AddrsOf(was))
    requires ItemsOf(was) == items && Addressed(items) && (HasPort(ai.Item()) ==> ai.addr != null)
    ensures List(head, was + [ai], items + [ai.Item()])
  {
    hide Chains;
    var nodes := was + [ai];
    ChainsOn(was, nexts, ai);
    if was == [] {
      assert nodes == [ai];
      assert NextsOf(nodes) == [null];
    } else {
      assert NextsOf(nodes) == NextsOf(was) + [null];
    }
    assert AddrsOf(nodes) == AddrsOf(was) + [ai.addr];
    assert ItemsOf(nodes) == ItemsOf(was) + [ai.Item()];
  }

  /** ga_serv with a port number. */
  method GaServNumeric(head: AddrInfo?, hint: nat, port: nat, ghost nodes: seq<AddrInfo>, ghost items: seq<Item>)
    returns (nfound: nat, ghost all: seq<AddrInfo>)
    requires List(head, nodes, items)
    modifies Footprint(nodes)
    ensures List(head, all, Passes(items, Services(hint, Numeric(port))))
    ensures nfound == FoundInAll(items, Services(hint, Numeric(port)))
    ensures fresh(Footprint(all) - old(Footprint(nodes)))
  {
    hide List, Pass, Found, Passes, FoundInAll;
    NoPasses(items);
    if hint != 0 {
      nfound, all := GaPort(head, port, hint, nodes, items);
      MorePasses(items, [], Service(hint, port));
    } else {
      var found;
      nfound, all := GaPort(head, port, SOCK_STREAM, nodes, items);
      MorePasses(items, [], Service(SOCK_STREAM, port));
      found, all := GaPort(head, port, SOCK_DGRAM, all, Passes(items, [Service(SOCK_STREAM, port)]));
      MorePasses(items, [Service(SOCK_STREAM, port)], Service(SOCK_DGRAM, port));
      nfound := nfound + found;
    }
  }

  /** ga_serv with a service name: TCP, then UDP. */
  method GaServNamed(head: AddrInfo?, hint: nat, tcp: Option<nat>, udp: Option<nat>,
                     ghost nodes: seq<AddrInfo>, ghost items: seq<Item>)
    returns (nfound: nat, ghost all: seq<AddrInfo>)
    requires List(head, nodes, items)
    modifies Footprint(nodes)
    ensures List(head, all, Passes(items, Services(hint, Named(tcp, udp))))
    ensures nfound == FoundInAll(items, Services(hint, Named(tcp, udp)))
    ensures fresh(Footprint(all) - old(Footprint(nodes)))
  {
    hide List, Pass, Found, Passes, FoundInAll;
    NoPasses(items);
    nfound, all := 0, nodes;
    ghost var ss: seq<Service> := [];
    if (hint == 0 || hint == SOCK_STREAM) && tcp.Some? {
      nfound, all := GaPort(head, tcp.value, SOCK_STREAM, nodes, items);
      ss := [Service(SOCK_STREAM, tcp.value)];
      MorePasses(items, [], ss[0]);
    }
    if (hint == 0 || hint == SOCK_DGRAM) && udp.Some? {
      var found;
      found, all := GaPort(head, udp.value, SOCK_DGRAM, all, Passes(items, ss));
      nfound := nfound + found;
      MorePasses(items, ss, Service(SOCK_DGRAM, udp.value));
      ss := ss + [Service(SOCK_DGRAM, udp.value)];
    }
    assert ss == Services(hint, Named(tcp, udp));
  }

  /** ga_serv: one or two passes, and a failure when they give no entry a port. */
  method GaServ(head: AddrInfo?, hint: nat, serv: Lookup, ghost nodes: seq<AddrInfo>, ghost items: seq<Item>)
    returns (rc: Rc, ghost all: seq<AddrInfo>)
    requires List(head, nodes, items)
    modifies Footprint(nodes)
    ensures List(head, all, Passes(items, Services(hint, serv)))
    ensures rc == if FoundInAll(items, Services(hint, serv)) > 0 then Ok
                  else if hint == 0 then EaiNoname else EaiService
    ensures fresh(Footprint(all) - old(Footprint(nodes)))
  {
    hide List, Passes, FoundInAll, Services;
    var nfound;
    match serv {
      case Numeric(port) => nfound, all := GaServNumeric(head, hint, port, nodes, items);
      case Named(tcp, udp) => nfound, all := GaServNamed(head, hint, tcp, udp, nodes, items);
    }
    if nfound == 0 {
      return if hint == 0 then EaiNoname else EaiService, all;
    }
    rc := Ok;
  }

  lemma NoPasses(items: seq<Item>)
    ensures Passes(items, []) == items && FoundInAll(items, []) == 0
  {
  }

  lemma MorePasses(items: seq<Item>, ss: seq<Service>, s: Service)
    ensures Passes(items, ss + [s]) == Pass(Passes(items, ss), s)
    ensures FoundInAll(items, ss + [s]) == FoundInAll(items, ss) + Found(Passes(items, ss), s)
    ensures ss == [] ==> ss + [s] == [s]
    ensures |ss| == 1 ==> ss + [s] == [ss[0], s]
  {
    assert (ss + [s])[..|ss|] == ss;
  }

  /** The entries for a host's addresses, before the service step. */
  function BuiltAll(hint: nat, protocol: nat, found: seq<(Family, seq<byte>)>): seq<Item> {
    if found == [] then []
    else
      var (family, addr) := found[|found| - 1];
      BuiltAll(hint, protocol, found[..|found| - 1]) + [Built(hint, protocol, family, addr, |addr| + 1)]
  }

  /** The entries once the service string, if there is one, has been dealt with. */
  function Served(hint: nat, protocol: nat, found: seq<(Family, seq<byte>)>, serv: Option<Lookup>): seq<Item> {
    var items := BuiltAll(hint, protocol, found);
    if serv.None? then items else Passes(items, Services(hint, serv.value))
  }

  /** An entry for this address. A local path has no port. */
  predicate Shows(r: Item, to: (Family, seq<byte>), protocol: nat, socktype: nat, port: nat) {
    && r.family == to.0 && r.protocol == protocol && r.socktype == socktype
    && r.addr == Some(Address(to.1, if to.0.LOCAL? then 0 else port))
  }

  /** One entry for every address, in their order. */
  predicate OneEach(items: seq<Item>, found: seq<(Family, seq<byte>)>, protocol: nat, socktype: nat, port: nat) {
    |items| == |found| && forall i :: 0 <= i < |items| ==> Shows(items[i], found[i], protocol, socktype, port)
  }

  /** A stream entry and then a datagram entry for every address, in their order. */
  predicate StreamAndDatagram(items: seq<Item>, found: seq<(Family, seq<byte>)>, protocol: nat, tcp: nat, udp: nat) {
    && |items| == 2 * |found|
    && forall i :: 0 <= i < |found| ==>
         && Shows(items[2 * i], found[i], protocol, SOCK_STREAM, tcp)
         && Shows(items[2 * i + 1], found[i], protocol, SOCK_DGRAM, udp)
  }

  /** What the caller is to get: the socket type asked for, or both if none was, each with the port of the service. */
  predicate Answers(items: seq<Item>, hint: nat, protocol: nat, found: seq<(Family, seq<byte>)>, serv: Option<Lookup>) {
    match serv
    case None => OneEach(items, found, protocol, hint, 0)
    case Some(Numeric(port)) =>
      if hint != 0 then OneEach(items, found, protocol, hint, port)
      else StreamAndDatagram(items, found, protocol, port, port)
    case Some(Named(tcp, udp)) =>
      if hint == 0 && tcp.Some? && udp.Some? then StreamAndDatagram(items, found, protocol, tcp.value, udp.value)
      else if hint in {0, SOCK_STREAM} && tcp.Some? then OneEach(items, found, protocol, SOCK_STREAM, tcp.value)
      else hint in {0, SOCK_DGRAM} && udp.Some? && OneEach(items, found, protocol, SOCK_DGRAM, udp.value)
  }

  lemma {:induction false} BuiltShow(hint: nat, protocol: nat, found: seq<(Family, seq<byte>)>)
    ensures OneEach(BuiltAll(hint, protocol, found), found, protocol, hint, 0)
    ensures forall it :: it in BuiltAll(hint, protocol, found) ==> (it.clone <==> hint == 0) && it.socktype == hint
  {
    if found != [] {
      BuiltShow(hint, protocol, found[..|found| - 1]);
    }
  }

  lemma OneService(items: seq<Item>, hint: nat, protocol: nat, found: seq<(Family, seq<byte>)>, s: Service)
    requires items == BuiltAll(hint, protocol, found) && found != [] && s.socktype != 0 && hint in {0, s.socktype}
    ensures OneEach(Passes(items, [s]), found, protocol, s.socktype, s.port)
  {
    hide Pass, Built, BuiltAll, Passes, Fresh;
    BuiltShow(hint, protocol, found);
    if hint == 0 {
      BuiltAreFresh(protocol, found);
      PassesServe(items, [s], 0, 0);
      forall i | 0 <= i < |items|
        ensures |Passes(items, [s])| == |items| && Shows(Passes(items, [s])[i], found[i], protocol, s.socktype, s.port)
      {
        PassesServe(items, [s], i, 0);
        assert i * 1 + 0 == i && |items| * 1 == |items|;
      }
    } else {
      PassServes(items, s);
      NoPasses(items);
      MorePasses(items, [], s);
    }
  }

  lemma TwoServices(items: seq<Item>, protocol: nat, found: seq<(Family, seq<byte>)>, tcp: nat, udp: nat)
    requires items == BuiltAll(0, protocol, found) && found != []
    ensures
      var ss := [Service(SOCK_STREAM, tcp), Service(SOCK_DGRAM, udp)];
      StreamAndDatagram(Passes(items, ss), found, protocol, tcp, udp)
  {
    hide Pass, Built, BuiltAll, Passes, Fresh;
    var ss := [Service(SOCK_STREAM, tcp), Service(SOCK_DGRAM, udp)];
    BuiltShow(0, protocol, found);
    BuiltAreFresh(protocol, found);
    PassesServe(items, ss, 0, 0);
    forall i | 0 <= i < |found|
      ensures |Passes(items, ss)| == 2 * |items|
      ensures Shows(Passes(items, ss)[2 * i], found[i], protocol, SOCK_STREAM, tcp)
      ensures Shows(Passes(items, ss)[2 * i + 1], found[i], protocol, SOCK_DGRAM, udp)
    {
      PassesServe(items, ss, i, 0);
      PassesServe(items, ss, i, 1);
      assert i * 2 == 2 * i && |items| * 2 == 2 * |items|;
    }
  }

  /** Is there a service of the type asked for? */
  predicate Wanted(hint: nat, serv: Lookup) {
    match serv
    case Numeric(_) => true
    case Named(tcp, udp) => (hint in {0, SOCK_STREAM} && tcp.Some?) || (hint in {0, SOCK_DGRAM} && udp.Some?)
  }

  lemma {:induction false} InternetAddresses(hint: nat, protocol: nat, found: seq<(Family, seq<byte>)>)
    ensures Ports(BuiltAll(hint, protocol, found)) > 0 <==> exists f <- found :: !f.0.LOCAL?
  {
    if found != [] {
      var front, last := found[..|found| - 1], found[|found| - 1];
      assert found == front + [last];
      InternetAddresses(hint, protocol, front);
    }
  }

  /** The passes find something exactly when there is a service of the type asked for and an Internet address. */
  lemma FoundWhen(hint: nat, protocol: nat, found: seq<(Family, seq<byte>)>, serv: Lookup)
    ensures FoundInAll(BuiltAll(hint, protocol, found), Services(hint, serv)) > 0
       <==> Wanted(hint, serv) && exists f <- found :: !f.0.LOCAL?
  {
    hide Pass, Found, Ports, Built, BuiltAll, Passes, FoundInAll, Fresh;
    var items, ss := BuiltAll(hint, protocol, found), Services(hint, serv);
    InternetAddresses(hint, protocol, found);
    NoPasses(items);
    if hint == 0 {
      BuiltAreFresh(protocol, found);
      ServiceStep(items, serv);
    } else if ss != [] {
      BuiltShow(hint, protocol, found);
      PassServes(items, ss[0]);
      MorePasses(items, [], ss[0]);
      assert ss == [ss[0]];
    }
  }

  /** The finished entries are what the caller is to get, unless no service was found. */
  lemma ServedAnswers(hint: nat, protocol: nat, found: seq<(Family, seq<byte>)>, serv: Option<Lookup>)
    requires found != [] && (serv.Some? ==> Services(hint, serv.value) != [])
    ensures Answers(Served(hint, protocol, found, serv), hint, protocol, found, serv)
  {
    hide Passes, BuiltAll, OneEach, StreamAndDatagram;
    var items := BuiltAll(hint, protocol, found);
    if serv.None? {
      BuiltShow(hint, protocol, found);
    } else if |Services(hint, serv.value)| == 1 {
      var s := Services(hint, serv.value)[0];
      assert Services(hint, serv.value) == [s];
      OneService(items, hint, protocol, found, s);
    } else {
      var ss := Services(hint, serv.value);
      assert ss == [Service(SOCK_STREAM, ss[0].port), Service(SOCK_DGRAM, ss[1].port)];
      TwoServices(items, protocol, found, ss[0].port, ss[1].port);
    }
  }

  /** getaddrinfo from the addresses that the search for the host has found (Internet addresses, or a local path that
    * fits) to the finished list. */
  method Resolve(hint: nat, protocol: nat, found: seq<(Family, seq<byte>)>, serv: Option<Lookup>)
    returns (rc: Rc, result: AddrInfo?, ghost all: seq<AddrInfo>)
    ensures rc == Ok ==> List(result, all, Served(hint, protocol, found, serv)) && fresh(Footprint(all))
    ensures rc == Ok && hint == 0 && serv.Some? ==>
      Served(hint, protocol, found, serv) == ExpandedAll(BuiltAll(hint, protocol, found), Services(hint, serv.value))
    ensures rc == Ok ==> Answers(ItemsOf(all), hint, protocol, found, serv)
    ensures found == [] ==> rc == EaiNoname
    ensures found != [] && serv.None? ==> rc == Ok
    ensures found != [] && serv.Some? ==>
      rc == if FoundInAll(BuiltAll(hint, protocol, found), Services(hint, serv.value)) > 0 then Ok
            else if hint == 0 then EaiNoname else EaiService
    ensures serv.Some? ==> (rc == Ok <==> Wanted(hint, serv.value) && exists f <- found :: !f.0.LOCAL?)
  {
    hide List, Services, Passes, FoundInAll, ExpandedAll, Ports, Built, Fresh, Answers, Wanted, Chains, Separate,
         Addressed, NextsOf;
    var list := new Results();
    var i := 0;
    assert found[..0] == [];
    while i < |found|
      invariant 0 <= i <= |found| && list.Valid() && fresh(list) && fresh(Footprint(list.nodes))
      invariant list.items == BuiltAll(hint, protocol, found[..i]) && |list.nodes| == i
    {
      var (family, addr) := found[i];
      assert found[..i + 1][..i] == found[..i] && found[..i + 1][i] == found[i];
      assert list.last == null || list.last in list.nodes;
      assert list.last == null || list.last in Footprint(list.nodes);
      var built := list.GaAistruct(hint, protocol, addr, family, |addr| + 1);
      i := i + 1;
    }
    assert found[..|found|] == found;
    result, all := list.aihead, list.nodes;
    ListIsAligned(result, list.nodes, list.items);
    if result == null {
      return EaiNoname, null, [];
    }
    rc := Ok;
    if serv.Some? {
      if hint == 0 {
        BuiltAreFresh(protocol, found);
        ServiceStep(BuiltAll(hint, protocol, found), serv.value);
      }
      rc, all := GaServ(result, hint, serv.value, list.nodes, list.items);
      NoPasses(list.items);
      FoundWhen(hint, protocol, found, serv.value);
    }
    if rc == Ok {
      ListParts(result, all, Served(hint, protocol, found, serv));
      ServedAnswers(hint, protocol, found, serv);
    }
  }

  lemma {:induction false} BuiltAreFresh(protocol: nat, found: seq<(Family, seq<byte>)>)
    ensures forall it :: it in BuiltAll(0, protocol, found) ==> Fresh(it)
  {
    if found != [] {
      BuiltAreFresh(protocol, found[..|found| - 1]);
    }
  }
}
