/**
 * The D-Bus main loop's intrusive lists of watches and timeouts, the count that sizes the poll array, and
 * the loops that fill and scan that array.
 */
module WatchList {
  /** at_dbus_watch and at_dbus_timeout: a list node with what it stands for. */
  class Node<T> {
    var prev: Node?<T>
    var next: Node?<T>
    var item: T

    constructor (item: T)
      ensures prev == null && next == null && this.item == item
    {
      prev, next, this.item := null, null, item;
    }
  }

  ghost function NodeAt<T>(nodes: seq<Node<T>>, i: int): Node?<T> {
    if 0 <= i < |nodes| then nodes[i] else null
  }

  /**
   * An acyclic doubly linked list: the nodes are distinct, next leads from each to the following one
   * and prev back, nothing comes before the head or after the last.
   */
  ghost predicate Linked<T>(nodes: seq<Node<T>>)
    reads nodes
  {
    && Distinct(nodes)
    && (forall i :: 0 <= i < |nodes| ==> nodes[i].prev == NodeAt(nodes, i - 1) && nodes[i].next == NodeAt(nodes, i + 1))
  }

  /** The sequence without its element at a position. */
  ghost function Without<T>(nodes: seq<Node<T>>, at: nat): (rest: seq<Node<T>>)
    requires at < |nodes|
    ensures |rest| == |nodes| - 1
    ensures forall i {:trigger rest[i]} :: 0 <= i < |rest| ==> rest[i] == nodes[if i < at then i else i + 1]
  {
    nodes[..at] + nodes[at + 1..]
  }

  ghost predicate Distinct<T>(nodes: seq<Node<T>>) {
    forall i, j :: 0 <= i < j < |nodes| ==> nodes[i] != nodes[j]
  }

  /** The links of node i once the neighbours of node at point past it. */
  ghost predicate PointsPast<T>(nodes: seq<Node<T>>, at: nat, i: nat)
    requires i < |nodes|
    reads nodes
  {
    && nodes[i].prev == NodeAt(nodes, if i == at + 1 then i - 2 else i - 1)
    && nodes[i].next == NodeAt(nodes, if i + 1 == at then i + 2 else i + 1)
  }

  lemma LinksOfRest<T>(nodes: seq<Node<T>>, at: nat, i: nat)
    requires at < |nodes| && i < |nodes| - 1
    requires PointsPast(nodes, at, if i < at then i else i + 1)
    ensures var rest := Without(nodes, at);
            rest[i].prev == NodeAt(rest, i - 1) && rest[i].next == NodeAt(rest, i + 1)
  {
    hide Without;
    var rest := Without(nodes, at);
    assert i > 0 ==> rest[i - 1] == nodes[if i - 1 < at then i - 1 else i];
    assert i + 1 < |rest| ==> rest[i + 1] == nodes[if i + 1 < at then i + 1 else i + 2];
  }

  /** Once the neighbours of a node point past it, the other nodes are a list. */
  lemma RestIsLinked<T>(nodes: seq<Node<T>>, at: nat)
    requires at < |nodes| && Distinct(nodes)
    requires forall i :: 0 <= i < |nodes| && i != at ==> PointsPast(nodes, at, i)
    ensures Linked(Without(nodes, at)) && nodes[at] !in Without(nodes, at)
  {
    hide Without, PointsPast;
    var rest := Without(nodes, at);
    forall i | 0 <= i < |rest|
      ensures rest[i].prev == NodeAt(rest, i - 1) && rest[i].next == NodeAt(rest, i + 1)
    {
      LinksOfRest(nodes, at, i);
    }
  }

  ghost predicate Carry<T>(nodes: seq<Node<T>>, items: seq<T>)
    reads nodes
  {
    |items| == |nodes| && forall i :: 0 <= i < |nodes| ==> nodes[i].item == items[i]
  }

  lemma RestCarries<T>(nodes: seq<Node<T>>, items: seq<T>, at: nat)
    requires at < |nodes| && Carry(nodes, items)
    ensures Carry(Without(nodes, at), items[..at] + items[at + 1..])
  {
    hide Without;
    forall i | 0 <= i < |Without(nodes, at)|
      ensures Without(nodes, at)[i].item == (items[..at] + items[at + 1..])[i]
    {
      assert Without(nodes, at)[i] == nodes[if i < at then i else i + 1];
    }
  }

  class List<T> {
    var first: Node?<T>
    /** The nodes from first on. */
    ghost var nodes: seq<Node<T>>
    /** Their items. */
    ghost var items: seq<T>

    ghost predicate Valid()
      reads this, nodes
    {
      first == NodeAt(nodes, 0) && Linked(nodes) && Carry(nodes, items)
    }

    ghost function Repr(): set<Node<T>>
      reads this
    {
      set x | x in nodes
    }

    constructor ()
      ensures Valid() && nodes == [] && items == []
    {
      first, nodes, items := null, [], [];
    }

    /** at_dbus_add_timeout, and at_dbus_add_watch without the count: the new node becomes the head. */
    method Add(node: Node<T>)
      requires Valid() && node !in nodes && node.prev == null
      modifies this, node`next, Repr()`prev
      ensures Valid() && nodes == [node] + old(nodes) && items == [node.item] + old(items)
    {
      ghost var before := nodes;
      node.next := first;
      first := node;
      if node.next != null {
        assert node.next == nodes[0] && node.next.prev == null;
        node.next.prev := node;
      }
      nodes, items := [node] + nodes, [node.item] + items;
      forall i | 0 <= i < |nodes|
        ensures nodes[i].prev == NodeAt(nodes, i - 1) && nodes[i].next == NodeAt(nodes, i + 1)
      {
        if i > 0 {
          assert nodes[i] == before[i - 1];
        }
      }
    }

    /** The node at a place, as dbus_watch_get_data and dbus_timeout_get_data know it. */
    method NodeNumber(at: nat) returns (node: Node<T>)
      requires Valid() && at < |items|
      ensures |items| == |nodes| && node == nodes[at]
    {
      var here := first;
      for i := 0 to at
        invariant here == nodes[i]
      {
        here := here.next;
      }
      node := here;
    }

    /** at_dbus_remove_timeout, and at_dbus_remove_watch without the count. */
    method Remove(node: Node<T>, ghost at: nat)
      requires Valid() && at < |nodes| && nodes[at] == node
      modifies this, Repr()`prev, Repr()`next
      ensures Valid() && nodes == Without(old(nodes), at) && node !in nodes
      ensures items == old(items)[..at] + old(items)[at + 1..]
    {
      hide Without, Carry;
      ghost var before := nodes;
      Unhook(node, at);
      nodes, items := Without(before, at), items[..at] + items[at + 1..];
      RestIsLinked(before, at);
      RestCarries(before, old(items), at);
    }

    /** A node of the list gets another item. */
    method SetItem(node: Node<T>, item: T, ghost at: nat)
      requires Valid() && at < |nodes| && nodes[at] == node
      modifies node`item, this`items
      ensures Valid() && items == old(items)[at := item]
    {
      node.item := item;
      items := items[at := item];
    }

    /** The pointer updates of a removal. */
    method Unhook(node: Node<T>, ghost at: nat)
      requires Valid() && at < |nodes| && nodes[at] == node
      modifies this`first, Repr()`prev, Repr()`next
      ensures first == (if at == 0 then NodeAt(nodes, 1) else nodes[0]) && Carry(nodes, items)
      ensures forall i :: 0 <= i < |nodes| && i != at ==> PointsPast(nodes, at, i)
    {
      if node.prev != null {
        assert node.prev == nodes[at - 1] && first != node;
        node.prev.next := node.next;
      } else {
        assert at == 0 && first == node;
        first := node.next;
      }
      if node.next != null {
        assert node.next == nodes[at + 1];
        node.next.prev := node.prev;
      }
      forall i | 0 <= i < |nodes| && i != at ensures PointsPast(nodes, at, i) {
        assert i != at - 1 ==> nodes[i] != NodeAt(nodes, at - 1);
        assert i != at + 1 ==> nodes[i] != NodeAt(nodes, at + 1);
      }
    }
  }

  // ------------------------------------------------------------------ watches

  /** A watch: its file descriptor and the events it is enabled for, 0 for none. */
  datatype Watch = Watch(fd: int, events: nat)

  /** A timeout: its interval, and when it is due, 0 when it is not enabled. */
  datatype Timeout = Timeout(interval: nat, deadline: nat)

  /** What poll reports for one descriptor; an invalid one is ready without any condition for D-Bus. */
  datatype Ready = Ready(readable: bool, writable: bool, error: bool, hangup: bool, invalid: bool)

  const NOTHING := Ready(false, false, false, false, false)

  /** The conditions that D-Bus is told. */
  datatype Flags = Flags(readable: bool, writable: bool, error: bool, hangup: bool)

  function FlagsOf(r: Ready): Flags {
    Flags(r.readable, r.writable, r.error, r.hangup)
  }

  datatype PollFd = PollFd(fd: int, events: nat, revents: Ready)

  /** The poll entries of the enabled watches, in list order. */
  ghost function Entries(nodes: seq<Node<Watch>>): seq<PollFd>
    reads nodes
  {
    if nodes == [] then []
    else
      var w := nodes[|nodes| - 1].item;
      Entries(nodes[..|nodes| - 1]) + if w.events == 0 then [] else [PollFd(w.fd, w.events, NOTHING)]
  }

  lemma NoEntries()
    ensures Entries([]) == []
  {
  }

  /** Exactly the enabled watches have an entry: their descriptor, the events they wait for, and nothing ready. */
  lemma {:induction false} EntriesAreEnabledWatches(nodes: seq<Node<Watch>>)
    ensures |Entries(nodes)| <= |nodes|
    ensures forall e :: e in Entries(nodes) <==>
              && e.revents == NOTHING && e.events != 0
              && exists i :: 0 <= i < |nodes| && nodes[i].item == Watch(e.fd, e.events)
    decreases |nodes|
  {
    if nodes == [] {
    } else {
      var before, last := nodes[..|nodes| - 1], nodes[|nodes| - 1];
      EntriesAreEnabledWatches(before);
      forall e: PollFd ensures (exists i :: 0 <= i < |nodes| && nodes[i].item == Watch(e.fd, e.events)) <==>
                       last.item == Watch(e.fd, e.events)
                       || exists i :: 0 <= i < |before| && before[i].item == Watch(e.fd, e.events)
      {
        if i :| 0 <= i < |before| && before[i].item == Watch(e.fd, e.events) {
          assert nodes[i].item == Watch(e.fd, e.events);
        }
        if i :| 0 <= i < |nodes| && nodes[i].item == Watch(e.fd, e.events) {
          assert i < |before| ==> before[i] == nodes[i];
        }
      }
    }
  }

  lemma EntriesSnoc(nodes: seq<Node<Watch>>, i: nat)
    requires i < |nodes|
    ensures var w := nodes[i].item;
            Entries(nodes[..i + 1]) ==
              Entries(nodes[..i]) + if w.events == 0 then [] else [PollFd(w.fd, w.events, NOTHING)]
  {
    assert nodes[..i + 1][..i] == nodes[..i];
  }

  // ------------------------------------------------------------------ what D-Bus asks for

  /** The items of both lists, from the heads on. */
  datatype Lists = Lists(watches: seq<Watch>, timeouts: seq<Timeout>)

  /** A call from D-Bus; a node that it holds is told by its place in its list. */
  datatype Op =
    | AddsWatch(fd: int)
    | RemovesWatch(at: nat)
    | TogglesWatch(at: nat, events: nat)
    | AddsTimeout(interval: nat)
    | RemovesTimeout(at: nat)
    | TogglesTimeout(at: nat, deadline: nat)

  /** D-Bus only removes and toggles what it has added. */
  predicate Allowed(l: Lists, op: Op) {
    match op
    case RemovesWatch(at) => at < |l.watches|
    case TogglesWatch(at, _) => at < |l.watches|
    case RemovesTimeout(at) => at < |l.timeouts|
    case TogglesTimeout(at, _) => at < |l.timeouts|
    case _ => true
  }

  function Applied(l: Lists, op: Op): Lists
    requires Allowed(l, op)
  {
    match op
    case AddsWatch(fd) => l.(watches := [Watch(fd, 0)] + l.watches)
    case RemovesWatch(at) => l.(watches := l.watches[..at] + l.watches[at + 1..])
    case TogglesWatch(at, events) => l.(watches := l.watches[at := Watch(l.watches[at].fd, events)])
    case AddsTimeout(interval) => l.(timeouts := [Timeout(interval, 0)] + l.timeouts)
    case RemovesTimeout(at) => l.(timeouts := l.timeouts[..at] + l.timeouts[at + 1..])
    case TogglesTimeout(at, deadline) =>
      l.(timeouts := l.timeouts[at := Timeout(l.timeouts[at].interval, deadline)])
  }

  predicate AllAllowed(l: Lists, ops: seq<Op>)
    decreases |ops|
  {
    ops == [] || (Allowed(l, ops[0]) && AllAllowed(Applied(l, ops[0]), ops[1..]))
  }

  function AppliedAll(l: Lists, ops: seq<Op>): Lists
    requires AllAllowed(l, ops)
    decreases |ops|
  {
    if ops == [] then l else AppliedAll(Applied(l, ops[0]), ops[1..])
  }

  class Connection {
    var n: nat
    const watches: List<Watch>
    const timeouts: List<Timeout>

    ghost predicate Valid()
      reads this, watches, watches.nodes, timeouts, timeouts.nodes
    {
      watches.Valid() && timeouts.Valid() && n == |watches.nodes|
    }

    ghost function Now(): Lists
      reads watches, timeouts
    {
      Lists(watches.items, timeouts.items)
    }

    constructor ()
      ensures Valid() && Now() == Lists([], []) && watches.nodes == [] && timeouts.nodes == []
      ensures fresh(watches) && fresh(timeouts)
    {
      n := 0;
      watches := new List();
      timeouts := new List();
    }

    /** at_dbus_add_watch; dbus_watch_set_data hands the node back for the removal. */
    method AddWatch(fd: int) returns (node: Node<Watch>)
      requires Valid()
      modifies this`n, watches, watches.Repr()`prev
      ensures Valid() && fresh(node) && n == old(n) + 1
      ensures watches.nodes == [node] + old(watches.nodes) && node.item == Watch(fd, 0)
      ensures Now() == Applied(old(Now()), AddsWatch(fd))
    {
      hide Linked, Carry, Without;
      node := new Node(Watch(fd, 0));
      n := n + 1;
      watches.Add(node);
    }

    /** at_dbus_remove_watch */
    method RemoveWatch(node: Node<Watch>, ghost at: nat)
      requires Valid() && at < |watches.nodes| && watches.nodes[at] == node
      modifies this`n, watches, watches.Repr()`prev, watches.Repr()`next
      ensures Valid() && n == old(n) - 1
      ensures watches.nodes == Without(old(watches.nodes), at)
      ensures Now() == Applied(old(Now()), RemovesWatch(at))
    {
      hide Linked, Carry, Without;
      n := n - 1;
      watches.Remove(node, at);
    }

    /** at_dbus_toggle_watch, with the events that D-Bus asks for. */
    method ToggleWatch(node: Node<Watch>, events: nat, ghost at: nat)
      requires Valid() && at < |watches.nodes| && watches.nodes[at] == node
      modifies node`item, watches`items
      ensures Valid() && Now() == Applied(old(Now()), TogglesWatch(at, events))
    {
      watches.SetItem(node, node.item.(events := events), at);
    }

    /** at_dbus_add_timeout */
    method AddTimeout(interval: nat) returns (node: Node<Timeout>)
      requires Valid()
      modifies timeouts, timeouts.Repr()`prev
      ensures Valid() && fresh(node)
      ensures timeouts.nodes == [node] + old(timeouts.nodes) && node.item == Timeout(interval, 0)
      ensures Now() == Applied(old(Now()), AddsTimeout(interval))
    {
      hide Linked, Carry, Without;
      node := new Node(Timeout(interval, 0));
      timeouts.Add(node);
    }

    /** at_dbus_remove_timeout */
    method RemoveTimeout(node: Node<Timeout>, ghost at: nat)
      requires Valid() && at < |timeouts.nodes| && timeouts.nodes[at] == node
      modifies timeouts, timeouts.Repr()`prev, timeouts.Repr()`next
      ensures Valid() && timeouts.nodes == Without(old(timeouts.nodes), at)
      ensures Now() == Applied(old(Now()), RemovesTimeout(at))
    {
      hide Linked, Carry, Without;
      timeouts.Remove(node, at);
    }

    /** at_dbus_toggle_timeout, with the deadline, or 0 to disable it. */
    method ToggleTimeout(node: Node<Timeout>, deadline: nat, ghost at: nat)
      requires Valid() && at < |timeouts.nodes| && timeouts.nodes[at] == node
      modifies node`item, timeouts`items
      ensures Valid() && Now() == Applied(old(Now()), TogglesTimeout(at, deadline))
    {
      timeouts.SetItem(node, node.item.(deadline := deadline), at);
    }

    /** One call from D-Bus. */
    method Apply(op: Op)
      requires Valid() && Allowed(Now(), op)
      modifies this`n, watches, timeouts, watches.Repr(), timeouts.Repr()
      ensures Valid() && Now() == Applied(old(Now()), op)
      ensures fresh(watches.Repr() - old(watches.Repr())) && fresh(timeouts.Repr() - old(timeouts.Repr()))
    {
      hide Linked, Carry, Without;
      match op {
        case AddsWatch(fd) => var _ := AddWatch(fd);
        case RemovesWatch(at) =>
          var node := watches.NodeNumber(at);
          RemoveWatch(node, at);
        case TogglesWatch(at, events) =>
          var node := watches.NodeNumber(at);
          ToggleWatch(node, events, at);
        case AddsTimeout(interval) => var _ := AddTimeout(interval);
        case RemovesTimeout(at) =>
          var node := timeouts.NodeNumber(at);
          RemoveTimeout(node, at);
        case TogglesTimeout(at, deadline) =>
          var node := timeouts.NodeNumber(at);
          ToggleTimeout(node, deadline, at);
      }
    }

    /** Whatever D-Bus adds, removes and toggles, the lists are lists and the count is that of the watches. */
    method ApplyAll(ops: seq<Op>)
      requires Valid() && AllAllowed(Now(), ops)
      modifies this`n, watches, timeouts, watches.Repr(), timeouts.Repr()
      ensures Valid() && Now() == AppliedAll(old(Now()), ops)
      ensures fresh(watches.Repr() - old(watches.Repr())) && fresh(timeouts.Repr() - old(timeouts.Repr()))
    {
      hide Applied, Allowed, Linked, Carry;
      var k := 0;
      assert ops[0..] == ops;
      while k < |ops|
        invariant k <= |ops| && Valid() && AllAllowed(Now(), ops[k..])
        invariant AppliedAll(old(Now()), ops) == AppliedAll(Now(), ops[k..])
        invariant fresh(watches.Repr() - old(watches.Repr())) && fresh(timeouts.Repr() - old(timeouts.Repr()))
      {
        assert ops[k..][0] == ops[k] && ops[k..][1..] == ops[k + 1..];
        Apply(ops[k]);
        k := k + 1;
      }
    }
  }

  lemma NextIn<T>(nodes: seq<Node<T>>, i: nat)
    requires Linked(nodes) && i < |nodes|
    ensures nodes[i].next == NodeAt(nodes, i + 1)
  {
  }

  /** The array that poll gets: slot 0 for the wake-up, then the enabled watches; n is the count of watches. */
  method FillDescriptors(watches: List<Watch>, n: nat, wakeup: int) returns (ufd: array<PollFd>, p: nat)
    requires watches.Valid() && n == |watches.nodes|
    ensures fresh(ufd) && ufd.Length == 1 + n && p <= ufd.Length
    ensures ufd[..p] == [PollFd(wakeup, 1, NOTHING)] + Entries(watches.nodes)
  {
    hide Entries, Linked;
    ghost var nodes := watches.nodes;
    NoEntries();
    assert nodes[..0] == [] && nodes[..|nodes|] == nodes;
    ufd := new PollFd[1 + n](_ => PollFd(0, 0, NOTHING));
    p := 1;
    ghost var filled: seq<PollFd> := [];
    var adw := watches.first;
    ghost var i := 0;
    while adw != null
      invariant i <= |nodes| && adw == NodeAt(nodes, i) && Linked(nodes)
      invariant p == 1 + |filled| <= 1 + i && forall k :: 1 <= k < p ==> ufd[k] == filled[k - 1]
      invariant filled == Entries(nodes[..i])
      decreases |nodes| - i
    {
      EntriesSnoc(nodes, i);
      if adw.item.events != 0 {
        ufd[p] := PollFd(adw.item.fd, adw.item.events, NOTHING);
        filled := filled + [ufd[p]];
        p := p + 1;
      }
      NextIn(nodes, i);
      adw := adw.next;
      i := i + 1;
    }
    ufd[0] := PollFd(wakeup, 1, NOTHING);
  }

  /** The place of the first watch of a descriptor, or the length of the list. */
  function FirstWith(watches: seq<Watch>, fd: int): (at: nat)
    ensures at <= |watches| && (at < |watches| ==> watches[at].fd == fd)
    ensures forall j :: 0 <= j < at ==> watches[j].fd != fd
  {
    if watches == [] || watches[0].fd == fd then 0 else 1 + FirstWith(watches[1..], fd)
  }

  /** The first watch of a descriptor, when the array is scanned after the list may have changed. */
  method FindWatch(watches: List<Watch>, fd: int) returns (node: Node?<Watch>)
    requires watches.Valid()
    ensures var at := FirstWith(watches.items, fd);
            if at < |watches.items| then |watches.items| == |watches.nodes| && node == watches.nodes[at]
            else node == null
  {
    node := watches.first;
    ghost var i := 0;
    while node != null
      invariant i <= |watches.nodes| && node == NodeAt(watches.nodes, i)
      invariant forall j :: 0 <= j < i ==> watches.items[j].fd != fd
      decreases |watches.nodes| - i
    {
      if node.item.fd == fd {
        return;
      }
      node := node.next;
      i := i + 1;
    }
  }

  // ------------------------------------------------------------------ the scan

  function CountReady(slots: seq<PollFd>): nat {
    if slots == [] then 0 else (if slots[0].revents == NOTHING then 0 else 1) + CountReady(slots[1..])
  }

  /** dbus_watch_handle: a watch is told its conditions. */
  datatype Service = Service(watch: Watch, flags: Flags)

  /**
   * What D-Bus is told for the slots, and what the lists come to: for each ready slot, the watch that is
   * the first with its descriptor by then. While the k-th watch is handled, D-Bus makes the k-th changes.
   */
  function Scan(l: Lists, slots: seq<PollFd>, changes: nat -> seq<Op>, k: nat): (seq<Service>, Lists)
    requires ScanAllowed(l, slots, changes, k)
    decreases |slots|
  {
    if slots == [] then ([], l)
    else if !IsServed(l, slots[0]) then Scan(l, slots[1..], changes, k)
    else
      var (more, l') := Scan(AppliedAll(l, changes(k)), slots[1..], changes, k + 1);
      (ServiceOf(l, slots[0]) + more, l')
  }

  /** The conditions go to D-Bus each as its own flag. */
  lemma FlagsAreTheConditions(r: Ready)
    ensures FlagsOf(r).readable <==> r.readable
    ensures FlagsOf(r).writable <==> r.writable
    ensures FlagsOf(r).error <==> r.error
    ensures FlagsOf(r).hangup <==> r.hangup
  {
  }

  /** What is told for a ready slot: nothing when no watch has its descriptor any more. */
  function ServiceOf(l: Lists, slot: PollFd): seq<Service> {
    var at := FirstWith(l.watches, slot.fd);
    if at < |l.watches| then [Service(l.watches[at], FlagsOf(slot.revents))] else []
  }

  /** The slot is ready, and some watch has its descriptor. */
  predicate IsServed(l: Lists, slot: PollFd) {
    slot.revents != NOTHING && FirstWith(l.watches, slot.fd) < |l.watches|
  }

  predicate ScanAllowed(l: Lists, slots: seq<PollFd>, changes: nat -> seq<Op>, k: nat)
    decreases |slots|
  {
    slots == [] ||
    if !IsServed(l, slots[0]) then ScanAllowed(l, slots[1..], changes, k)
    else AllAllowed(l, changes(k)) && ScanAllowed(AppliedAll(l, changes(k)), slots[1..], changes, k + 1)
  }

  lemma {:induction false} NothingReady(l: Lists, slots: seq<PollFd>, changes: nat -> seq<Op>, k: nat)
    requires CountReady(slots) == 0
    ensures ScanAllowed(l, slots, changes, k) && Scan(l, slots, changes, k) == ([], l)
    decreases |slots|
  {
    if slots == [] {
    } else {
      NothingReady(l, slots[1..], changes, k);
    }
  }

  lemma ScanSkips(l: Lists, slots: seq<PollFd>, changes: nat -> seq<Op>, k: nat)
    requires slots != [] && ScanAllowed(l, slots, changes, k) && !IsServed(l, slots[0])
    ensures ScanAllowed(l, slots[1..], changes, k)
    ensures Scan(l, slots, changes, k) == Scan(l, slots[1..], changes, k)
  {
  }

  lemma ScanServes(l: Lists, slots: seq<PollFd>, changes: nat -> seq<Op>, k: nat)
    requires slots != [] && ScanAllowed(l, slots, changes, k) && IsServed(l, slots[0])
    ensures AllAllowed(l, changes(k))
    ensures var l' := AppliedAll(l, changes(k));
            && ScanAllowed(l', slots[1..], changes, k + 1)
            && Scan(l, slots, changes, k).0 == ServiceOf(l, slots[0]) + Scan(l', slots[1..], changes, k + 1).0
            && Scan(l, slots, changes, k).1 == Scan(l', slots[1..], changes, k + 1).1
  {
    hide AppliedAll, AllAllowed, FirstWith, FlagsOf;
  }

  /** The ready slots, in order. */
  function ReadySlots(slots: seq<PollFd>): seq<PollFd> {
    if slots == [] then []
    else (if slots[0].revents == NOTHING then [] else [slots[0]]) + ReadySlots(slots[1..])
  }

  /** A watch of the slot's descriptor is told the slot's conditions. */
  predicate Tells(l: Lists, service: Service, slot: PollFd) {
    && service.watch in l.watches && service.watch.fd == slot.fd
    && service.flags == Flags(slot.revents.readable, slot.revents.writable, slot.revents.error, slot.revents.hangup)
  }

  predicate HasWatch(l: Lists, slot: PollFd) {
    exists j :: 0 <= j < |l.watches| && l.watches[j].fd == slot.fd
  }

  lemma ServiceTells(l: Lists, slot: PollFd)
    requires HasWatch(l, slot)
    ensures IsServed(l, slot) <==> slot.revents != NOTHING
    ensures |ServiceOf(l, slot)| == 1 && Tells(l, ServiceOf(l, slot)[0], slot)
  {
  }

  /** While D-Bus leaves the lists alone, every ready slot with a watch is served once, in order. */
  lemma {:induction false} ScanServesEachReady(l: Lists, slots: seq<PollFd>, changes: nat -> seq<Op>, k: nat)
    requires forall j :: changes(j) == []
    requires forall i :: 0 <= i < |slots| ==> HasWatch(l, slots[i])
    ensures ScanAllowed(l, slots, changes, k) && Scan(l, slots, changes, k).1 == l
    ensures |Scan(l, slots, changes, k).0| == |ReadySlots(slots)|
    ensures forall i :: 0 <= i < |ReadySlots(slots)| ==>
              Tells(l, Scan(l, slots, changes, k).0[i], ReadySlots(slots)[i])
    decreases |slots|
  {
    hide Tells, HasWatch, ServiceOf, IsServed, FirstWith;
    if slots == [] {
    } else {
      var rest := slots[1..];
      ServiceTells(l, slots[0]);
      assert forall i :: 0 <= i < |rest| ==> rest[i] == slots[i + 1];
      assert AppliedAll(l, changes(k)) == l;
      if slots[0].revents == NOTHING {
        ScanServesEachReady(l, rest, changes, k);
      } else {
        ScanServesEachReady(l, rest, changes, k + 1);
        assert ServiceOf(l, slots[0]) == [ServiceOf(l, slots[0])[0]];
      }
    }
  }

  /** The inner loop of the scan: the watch is found, and handled while D-Bus makes changes. */
  method Serve(conn: Connection, slot: PollFd, ops: seq<Op>) returns (service: seq<Service>)
    requires conn.Valid() && slot.revents != NOTHING && (IsServed(conn.Now(), slot) ==> AllAllowed(conn.Now(), ops))
    modifies conn`n, conn.watches, conn.timeouts, conn.watches.Repr(), conn.timeouts.Repr()
    ensures conn.Valid() && fresh(conn.watches.Repr() - old(conn.watches.Repr()))
    ensures fresh(conn.timeouts.Repr() - old(conn.timeouts.Repr()))
    ensures service == ServiceOf(old(conn.Now()), slot)
    ensures conn.Now() == if service == [] then old(conn.Now()) else AppliedAll(old(conn.Now()), ops)
  {
    hide FirstWith, AppliedAll, AllAllowed, Linked, Carry, FlagsOf;
    var node := FindWatch(conn.watches, slot.fd);
    service := [];
    if node != null {
      assert node.item == conn.watches.items[FirstWith(conn.watches.items, slot.fd)] by {
        CarriesItem(conn.watches, FirstWith(conn.watches.items, slot.fd));
      }
      service := [Service(node.item, FlagsOf(slot.revents))];
      conn.ApplyAll(ops);
    }
  }

  lemma CarriesItem(list: List<Watch>, at: nat)
    requires list.Valid() && at < |list.items|
    ensures at < |list.nodes| && list.nodes[at].item == list.items[at]
  {
  }

  /**
   * The scan of the poll array. By poll's contract n counts the ready slots; slot 0 is not among them.
   * The scan has no bound of its own, yet it stays within the filled slots and serves each ready one,
   * whatever D-Bus does to the lists meanwhile.
   */
  method ScanReady(conn: Connection, ufd: seq<PollFd>, ready: nat, changes: nat -> seq<Op>)
    returns (served: seq<Service>)
    requires conn.Valid() && ufd != [] && ready == CountReady(ufd) && ufd[0].revents == NOTHING
    requires ScanAllowed(conn.Now(), ufd[1..], changes, 0)
    modifies conn`n, conn.watches, conn.timeouts, conn.watches.Repr(), conn.timeouts.Repr()
    ensures conn.Valid() && served == Scan(old(conn.Now()), ufd[1..], changes, 0).0
    ensures conn.Now() == Scan(old(conn.Now()), ufd[1..], changes, 0).1
  {
    hide FirstWith, AppliedAll, AllAllowed, Linked, Carry, Scan, ScanAllowed, FlagsOf, ServiceOf, IsServed;
    ghost var slots, begin := ufd[1..], conn.Now();
    var n := ready;
    served := [];
    var i := 1;
    var k := 0;
    assert [] + Scan(begin, slots, changes, 0).0 == Scan(begin, slots, changes, 0).0;
    while n > 0
      invariant 1 <= i <= |ufd| && n == CountReady(ufd[i..])
      invariant conn.Valid() && ScanAllowed(conn.Now(), ufd[i..], changes, k)
      invariant fresh(conn.watches.Repr() - old(conn.watches.Repr()))
      invariant fresh(conn.timeouts.Repr() - old(conn.timeouts.Repr()))
      invariant Scan(begin, slots, changes, 0).0 == served + Scan(conn.Now(), ufd[i..], changes, k).0
      invariant Scan(begin, slots, changes, 0).1 == Scan(conn.Now(), ufd[i..], changes, k).1
      decreases |ufd| - i
    {
      ghost var now, rest := conn.Now(), ufd[i..];
      assert rest[0] == ufd[i] && rest[1..] == ufd[i + 1..];
      var slot := ufd[i];
      i := i + 1;
      ServedIff(now, slot);
      if IsServed(now, slot) {
        ScanServes(now, rest, changes, k);
      } else {
        ScanSkips(now, rest, changes, k);
      }
      if slot.revents == NOTHING {
        continue;
      }
      var service := Serve(conn, slot, changes(k));
      Associate(served, service, Scan(conn.Now(), ufd[i..], changes, if service == [] then k else k + 1).0);
      served := served + service;
      k := if service == [] then k else k + 1;
      n := n - 1;
    }
    NothingReady(conn.Now(), ufd[i..], changes, k);
    assert served + [] == served;
  }

  lemma ServedIff(l: Lists, slot: PollFd)
    ensures IsServed(l, slot) ==> slot.revents != NOTHING
    ensures slot.revents != NOTHING ==> (IsServed(l, slot) <==> ServiceOf(l, slot) != [])
  {
  }

  lemma Associate(a: seq<Service>, b: seq<Service>, c: seq<Service>)
    ensures (a + b) + c == a + (b + c) && (b == [] ==> a + b == a)
  {
  }
}
