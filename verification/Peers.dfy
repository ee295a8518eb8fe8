/** Addresses, peers and the counters that say how many there are. */
module Peers {
  import opened Bytes

  const MAX_OUTGOING: nat := 8
  const MAX_INCOMING: nat := 8

  datatype Direction = Outgoing | Incoming

  datatype PeerState = AwaitingVerackOut | AwaitingVersionOut | AwaitingVersionIn | AwaitingVerackIn | Connected

  /** The last two fields record which commands a peer has sent. */
  datatype Peer = Peer(direction: Direction, addr: Option<nat>, state: PeerState, version: bool, verack: bool)

  /** Addresses and peers are named by numbers. `connected` tells of each address whether a
      peer uses it, and `sources` of each listening socket whether it is polled. */
  datatype State = State(
    connected: map<nat, bool>,
    peers: map<nat, Peer>,
    sources: map<nat, bool>,
    nOutgoing: int,
    nIncoming: int,
    nUnconnected: int,
    next: nat,
    fault: bool)

  const START := State(map[], map[], map[], 0, 0, 0, 0, false)

  // ------------------------------------------------------------- the program

  /** update_all_listen_socket_sources */
  function UpdateSources(s: State): State
  {
    s.(sources := map k | k in s.sources :: s.nIncoming < MAX_INCOMING)
  }

  /** ntb_network_add_listen_address: only the new socket is looked at. */
  function AddListener(s: State): State
  {
    s.(sources := s.sources[s.next := s.nIncoming < MAX_INCOMING], next := s.next + 1)
  }

  function NewAddr(s: State): State
  {
    s.(connected := s.connected[s.next := false], nUnconnected := s.nUnconnected + 1, next := s.next + 1)
  }

  /** remove_addr, with its assertion. */
  function RemoveAddr(s: State, a: nat): State
    requires a in s.connected
  {
    if s.connected[a] then s.(fault := true)
    else s.(connected := s.connected - {a}, nUnconnected := s.nUnconnected - 1)
  }

  /** add_peer updates the listening sockets before the caller counts the peer. */
  function AddPeer(s: State, p: Peer): State
  {
    UpdateSources(s.(peers := s.peers[s.next := p], next := s.next + 1))
  }

  /** connect_queue_cb, once it has picked an address; `ok` says whether the connection
      could be started. */
  function Connect(s: State, a: nat, ok: bool): State
    requires a in s.connected
  {
    if s.nOutgoing >= MAX_OUTGOING || s.nUnconnected <= 0 || !ok then s
    else
      var t := AddPeer(s, Peer(Outgoing, Some(a), AwaitingVerackOut, false, false));
      t.(nOutgoing := t.nOutgoing + 1, connected := t.connected[a := true], nUnconnected := t.nUnconnected - 1)
  }

  /** listen_socket_source_cb */
  function Accept(s: State): State
  {
    var t := AddPeer(s, Peer(Incoming, None, AwaitingVersionIn, false, false));
    t.(nIncoming := t.nIncoming + 1)
  }

  /** handle_version, given the address found or added for the peer, if any. */
  function HandleVersion(s: State, p: nat, addr: Option<nat>): State
    requires p in s.peers
  {
    var peer := s.peers[p];
    var state :=
      match peer.state
      case AwaitingVersionOut => Connected
      case AwaitingVersionIn => AwaitingVerackIn
      case AwaitingVerackOut => peer.state
      case AwaitingVerackIn => peer.state
      case Connected => peer.state;
    if addr.Some? && peer.addr.None? && addr.value in s.connected && !s.connected[addr.value] then
      s.(peers := s.peers[p := peer.(state := state, version := true, addr := addr)],
         connected := s.connected[addr.value := true],
         nUnconnected := s.nUnconnected - 1)
    else s.(peers := s.peers[p := peer.(state := state, version := true)])
  }

  function HandleVerack(s: State, p: nat): State
    requires p in s.peers
  {
    var peer := s.peers[p];
    var state :=
      match peer.state
      case AwaitingVerackOut => AwaitingVersionOut
      case AwaitingVerackIn => Connected
      case AwaitingVersionOut => peer.state
      case AwaitingVersionIn => peer.state
      case Connected => peer.state;
    s.(peers := s.peers[p := peer.(state := state, verack := true)])
  }

  function ReleaseAddr(s: State, addr: Option<nat>): State
  {
    if addr.None? then s
    else if addr.value !in s.connected then s.(fault := true)
    else s.(nUnconnected := s.nUnconnected + 1, connected := s.connected[addr.value := false])
  }

  function Uncount(s: State, d: Direction): State
  {
    match d
    case Outgoing => s.(nOutgoing := s.nOutgoing - 1)
    case Incoming => s.(nIncoming := s.nIncoming - 1)
  }

  function RemovePeer(s: State, p: nat): State
    requires p in s.peers
  {
    var peer := s.peers[p];
    var t := Uncount(ReleaseAddr(s, peer.addr), peer.direction);
    UpdateSources(t.(peers := t.peers - {p}))
  }

  // --------------------------------------------------------- picking an address

  /** How many addresses can be connected to. */
  function CountIf(list: seq<nat>, can: nat -> bool): nat
  {
    if list == [] then 0 else (if can(list[0]) then 1 else 0) + CountIf(list[1..], can)
  }

  /** The address at which the second loop of connect_queue_cb stops, if it does. */
  function Pick(list: seq<nat>, can: nat -> bool, n: int): Option<nat>
  {
    if list == [] then None
    else if can(list[0]) then (if n <= 0 then Some(list[0]) else Pick(list[1..], can, n - 1))
    else Pick(list[1..], can, n)
  }

  /** It stops at an address that can be connected to exactly when the number is below the
      count. */
  lemma {:induction false} PickFinds(list: seq<nat>, can: nat -> bool, n: nat)
    ensures Pick(list, can, n).Some? <==> n < CountIf(list, can)
    ensures Pick(list, can, n).Some? ==> Pick(list, can, n).value in list && can(Pick(list, can, n).value)
    decreases |list|
  {
    if list != [] {
      if can(list[0]) && n > 0 {
        PickFinds(list[1..], can, n - 1);
      } else {
        PickFinds(list[1..], can, n);
      }
    }
  }

  lemma {:induction false} CountIfSome(list: seq<nat>, can: nat -> bool)
    ensures CountIf(list, can) > 0 <==> exists a :: a in list && can(a)
    decreases |list|
  {
    if list != [] {
      CountIfSome(list[1..], can);
      assert list == [list[0]] + list[1..];
      assert can(list[0]) ==> list[0] in list;
    }
  }

  /** The loops themselves. */
  method PickAddr(list: seq<nat>, can: nat -> bool, random: nat, randMax: nat) returns (r: Option<nat>)
    requires random < randMax
    ensures r.Some? <==> CountIf(list, can) > 0
    ensures r.Some? ==> r.value in list && can(r.value)
  {
    var count, i := 0, 0;
    assert list[0..] == list;
    while i < |list|
      invariant i <= |list| && CountIf(list, can) == count + CountIf(list[i..], can)
    {
      assert list[i..][1..] == list[i + 1..];
      if can(list[i]) {
        count := count + 1;
      }
      i := i + 1;
    }
    if count <= 0 {
      return None;
    }
    var n := random * count / randMax;
    RandomIndex(random, count, randMax);
    PickFinds(list, can, n);
    i := 0;
    ghost var n0 := n;
    while i < |list|
      invariant i <= |list| && Pick(list, can, n0) == Pick(list[i..], can, n)
    {
      assert list[i..][1..] == list[i + 1..];
      if can(list[i]) {
        if n <= 0 {
          return Some(list[i]);
        }
        n := n - 1;
      }
      i := i + 1;
    }
    return None;
  }

  /** The random index is one of the list's exactly when the random number is not the
      largest one. */
  lemma RandomIndex(random: nat, count: nat, randMax: nat)
    requires random <= randMax && 0 < count && 0 < randMax
    ensures 0 <= random * count / randMax
    ensures random * count / randMax < count <==> random < randMax
  {
    var v := random * count;
    var q, r := v / randMax, v % randMax;
    assert v == q * randMax + r;
    if random < randMax {
      MulMonotone(random + 1, randMax, count);
      if q >= count {
        MulMonotone(count, q, randMax);
      }
    } else {
      DivModUnique(v, randMax, count, 0);
    }
  }

  // ------------------------------------------------------------- what is kept

  ghost function Users(peers: map<nat, Peer>, a: nat): set<nat>
  {
    set p | p in peers && peers[p].addr == Some(a)
  }

  ghost function Facing(peers: map<nat, Peer>, d: Direction): set<nat>
  {
    set p | p in peers && peers[p].direction == d
  }

  ghost function Free(connected: map<nat, bool>): set<nat>
  {
    set a | a in connected && !connected[a]
  }

  /** An address is connected when exactly one peer uses it, and otherwise none does. */
  ghost predicate AddrOk(connected: map<nat, bool>, peers: map<nat, Peer>, a: nat)
  {
    |Users(peers, a)| == if a in connected && connected[a] then 1 else 0
  }

  ghost predicate AddrsOk(connected: map<nat, bool>, peers: map<nat, Peer>)
  {
    forall a: nat {:trigger AddrOk(connected, peers, a)} :: AddrOk(connected, peers, a)
  }

  ghost predicate CountersOk(s: State)
  {
    && s.nUnconnected == |Free(s.connected)|
    && s.nOutgoing == |Facing(s.peers, Outgoing)| <= MAX_OUTGOING
    && s.nIncoming == |Facing(s.peers, Incoming)| <= MAX_INCOMING + 1
  }

  /** While a socket is polled there is room for one more peer than allowed, and while
      there are fewer than allowed every socket is polled. */
  ghost predicate SourcesOk(s: State)
  {
    forall k :: k in s.sources ==>
      (s.sources[k] ==> s.nIncoming <= MAX_INCOMING) && (s.nIncoming < MAX_INCOMING ==> s.sources[k])
  }

  /** The steps of the handshake, in the order of each direction: an outgoing peer answers
      with a verack and then a version, an incoming one sends a version and then a
      verack. A peer is connected only when both have come. */
  predicate HandshakeOk(p: Peer)
  {
    match p.state
    case AwaitingVerackOut => p.direction == Outgoing && !p.verack
    case AwaitingVersionOut => p.direction == Outgoing && p.verack
    case AwaitingVersionIn => p.direction == Incoming && !p.version
    case AwaitingVerackIn => p.direction == Incoming && p.version
    case Connected => p.version && p.verack
  }

  ghost predicate HandshakesOk(peers: map<nat, Peer>)
  {
    forall p {:trigger p in peers} :: p in peers ==> HandshakeOk(peers[p])
  }

  ghost predicate Named(s: State)
  {
    (forall a :: a in s.connected ==> a < s.next) && (forall p :: p in s.peers ==> p < s.next)
  }

  ghost predicate Inv(s: State)
  {
    && AddrsOk(s.connected, s.peers) && HandshakesOk(s.peers) && CountersOk(s) && SourcesOk(s) && Named(s) && !s.fault
  }

  // ------------------------------------------------------------------- sets

  lemma UsersPut(peers: map<nat, Peer>, p: nat, peer: Peer, a: nat)
    ensures Users(peers[p := peer], a) == if peer.addr == Some(a) then Users(peers, a) + {p} else Users(peers, a) - {p}
  {
  }

  lemma UsersDrop(peers: map<nat, Peer>, p: nat, a: nat)
    ensures Users(peers - {p}, a) == Users(peers, a) - {p}
  {
  }

  lemma FreePut(connected: map<nat, bool>, a: nat, used: bool)
    ensures |Free(connected[a := used])| == |Free(connected)|
      - (if a in connected && !connected[a] then 1 else 0) + (if used then 0 else 1)
  {
    var free := Free(connected);
    assert a in free <==> a in connected && !connected[a];
    if used {
      FreeTaken(connected, a);
      Removed(free, a);
    } else {
      FreeGiven(connected, a);
      Added(free, a);
    }
  }

  lemma FreeTaken(connected: map<nat, bool>, a: nat)
    ensures Free(connected[a := true]) == Free(connected) - {a}
  {
  }

  lemma FreeGiven(connected: map<nat, bool>, a: nat)
    ensures Free(connected[a := false]) == Free(connected) + {a}
  {
  }

  lemma Removed(s: set<nat>, x: nat)
    ensures |s - {x}| == |s| - (if x in s then 1 else 0)
  {
    if x !in s {
      assert s - {x} == s;
    }
  }

  lemma Added(s: set<nat>, x: nat)
    ensures |s + {x}| == |s| + (if x in s then 0 else 1)
  {
    if x in s {
      assert s + {x} == s;
    }
  }

  lemma FreeDrop(connected: map<nat, bool>, a: nat)
    requires a in connected && !connected[a]
    ensures |Free(connected - {a})| == |Free(connected)| - 1
  {
    assert Free(connected - {a}) == Free(connected) - {a};
    assert a in Free(connected);
  }

  lemma FacingAdd(peers: map<nat, Peer>, p: nat, peer: Peer, d: Direction)
    requires p !in peers
    ensures |Facing(peers[p := peer], d)| == |Facing(peers, d)| + (if peer.direction == d then 1 else 0)
  {
    assert Facing(peers[p := peer], d) == Facing(peers, d) + (if peer.direction == d then {p} else {});
  }

  lemma FacingDrop(peers: map<nat, Peer>, p: nat, d: Direction)
    requires p in peers
    ensures |Facing(peers - {p}, d)| == |Facing(peers, d)| - (if peers[p].direction == d then 1 else 0)
  {
    assert Facing(peers - {p}, d) == Facing(peers, d) - {p};
    assert p in Facing(peers, d) <==> peers[p].direction == d;
  }

  lemma FacingSame(peers: map<nat, Peer>, p: nat, peer: Peer, d: Direction)
    requires p in peers && peer.direction == peers[p].direction
    ensures Facing(peers[p := peer], d) == Facing(peers, d)
  {
  }

  // ---------------------------------------------------------- addresses in use

  /** A peer without an address takes up a free one. */
  lemma AddrsUse(connected: map<nat, bool>, peers: map<nat, Peer>, p: nat, peer: Peer, a: nat)
    requires AddrsOk(connected, peers) && a in connected && !connected[a]
    requires p in peers ==> peers[p].addr.None?
    requires peer.addr == Some(a)
    ensures AddrsOk(connected[a := true], peers[p := peer])
  {
    var connected', peers' := connected[a := true], peers[p := peer];
    forall b: nat ensures AddrOk(connected', peers', b) {
      assert AddrOk(connected, peers, b);
      UsersPut(peers, p, peer, b);
      assert p !in Users(peers, b);
      assert b != a ==> Users(peers', b) == Users(peers, b);
    }
  }

  lemma AddrsSame(connected: map<nat, bool>, peers: map<nat, Peer>, p: nat, peer: Peer)
    requires AddrsOk(connected, peers) && peer.addr == (if p in peers then peers[p].addr else None)
    ensures AddrsOk(connected, peers[p := peer])
  {
    var peers' := peers[p := peer];
    forall b: nat ensures AddrOk(connected, peers', b) {
      assert AddrOk(connected, peers, b);
      assert Users(peers', b) == Users(peers, b);
    }
  }

  /** A peer's address is known and connected, and no other peer uses it. */
  lemma PeerAddr(connected: map<nat, bool>, peers: map<nat, Peer>, p: nat)
    requires AddrsOk(connected, peers) && p in peers && peers[p].addr.Some?
    ensures var a := peers[p].addr.value;
      a in connected && connected[a] && Users(peers, a) == {p}
  {
    var a := peers[p].addr.value;
    assert AddrOk(connected, peers, a);
    assert p in Users(peers, a);
    SingletonIs(Users(peers, a), p);
  }

  lemma SingletonIs(s: set<nat>, x: nat)
    requires x in s && |s| <= 1
    ensures s == {x}
  {
    assert |s - {x}| == |s| - 1;
    assert s == s - {x} + {x};
  }

  /** A peer goes and gives up its address. */
  lemma AddrsRelease(connected: map<nat, bool>, peers: map<nat, Peer>, p: nat)
    requires AddrsOk(connected, peers) && p in peers
    ensures AddrsOk(if peers[p].addr.Some? then connected[peers[p].addr.value := false] else connected, peers - {p})
  {
    var addr := peers[p].addr;
    var connected' := if addr.Some? then connected[addr.value := false] else connected;
    var peers' := peers - {p};
    if addr.Some? {
      PeerAddr(connected, peers, p);
    }
    forall b: nat ensures AddrOk(connected', peers', b) {
      assert AddrOk(connected, peers, b);
      UsersDrop(peers, p, b);
      assert addr != Some(b) ==> Users(peers', b) == Users(peers, b);
    }
  }

  // --------------------------------------------------------------- operations

  lemma NewAddrKeeps(s: State)
    requires Inv(s)
    ensures Inv(NewAddr(s))
  {
    var t := NewAddr(s);
    FreePut(s.connected, s.next, false);
    forall a: nat ensures AddrOk(t.connected, t.peers, a) {
      assert AddrOk(s.connected, s.peers, a);
    }
  }

  lemma RemoveAddrKeeps(s: State, a: nat)
    requires Inv(s) && a in s.connected && !s.connected[a]
    ensures Inv(RemoveAddr(s, a))
  {
    var t := RemoveAddr(s, a);
    FreeDrop(s.connected, a);
    forall b: nat ensures AddrOk(t.connected, t.peers, b) {
      assert AddrOk(s.connected, s.peers, b);
    }
  }

  lemma ConnectKeeps(s: State, a: nat, ok: bool)
    requires Inv(s) && a in s.connected && !s.connected[a]
    ensures Inv(Connect(s, a, ok))
  {
    var peer := Peer(Outgoing, Some(a), AwaitingVerackOut, false, false);
    FreePut(s.connected, a, true);
    assert s.next !in s.peers;
    FacingAdd(s.peers, s.next, peer, Outgoing);
    FacingAdd(s.peers, s.next, peer, Incoming);
    AddrsUse(s.connected, s.peers, s.next, peer, a);
  }

  lemma AcceptKeeps(s: State, k: nat)
    requires Inv(s) && k in s.sources && s.sources[k]
    ensures Inv(Accept(s))
  {
    var peer := Peer(Incoming, None, AwaitingVersionIn, false, false);
    assert s.next !in s.peers;
    FacingAdd(s.peers, s.next, peer, Outgoing);
    FacingAdd(s.peers, s.next, peer, Incoming);
    AddrsSame(s.connected, s.peers, s.next, peer);
  }

  lemma VerackKeeps(s: State, p: nat)
    requires Inv(s) && p in s.peers
    ensures Inv(HandleVerack(s, p))
  {
    var peer := HandleVerack(s, p).peers[p];
    FacingSame(s.peers, p, peer, Outgoing);
    FacingSame(s.peers, p, peer, Incoming);
    AddrsSame(s.connected, s.peers, p, peer);
  }

  lemma VersionKeeps(s: State, p: nat, addr: Option<nat>)
    requires Inv(s) && p in s.peers
    ensures Inv(HandleVersion(s, p, addr))
  {
    var peer := HandleVersion(s, p, addr).peers[p];
    FacingSame(s.peers, p, peer, Outgoing);
    FacingSame(s.peers, p, peer, Incoming);
    if addr.Some? && s.peers[p].addr.None? && addr.value in s.connected && !s.connected[addr.value] {
      FreePut(s.connected, addr.value, true);
      AddrsUse(s.connected, s.peers, p, peer, addr.value);
    } else {
      AddrsSame(s.connected, s.peers, p, peer);
    }
  }

  lemma RemovePeerKeeps(s: State, p: nat)
    requires Inv(s) && p in s.peers
    ensures Inv(RemovePeer(s, p)) && RemovePeer(s, p).peers == s.peers - {p}
  {
    var peer := s.peers[p];
    if peer.addr.Some? {
      PeerAddr(s.connected, s.peers, p);
      FreePut(s.connected, peer.addr.value, false);
    }
    AddrsRelease(s.connected, s.peers, p);
    FacingDrop(s.peers, p, Outgoing);
    FacingDrop(s.peers, p, Incoming);
  }

  // --------------------------------------------------------------- every run

  datatype Event =
    | Listen
    | Learn
    | Forget(addr: nat)
    | Dial(addr: nat, ok: bool)
    | Called(socket: nat)
    | Version(peer: nat, found: Option<nat>)
    | Verack(peer: nat)
    | Close(peer: nat)

  /** An address is dropped or dialled only while it is unconnected, and a socket accepts
      only while it is polled. */
  predicate Enabled(s: State, e: Event)
  {
    match e
    case Listen => true
    case Learn => true
    case Forget(a) => a in s.connected && !s.connected[a]
    case Dial(a, _) => a in s.connected && !s.connected[a]
    case Called(k) => k in s.sources && s.sources[k]
    case Version(p, _) => p in s.peers
    case Verack(p) => p in s.peers
    case Close(p) => p in s.peers
  }

  function Next(s: State, e: Event): State
    requires Enabled(s, e)
  {
    match e
    case Listen => AddListener(s)
    case Learn => NewAddr(s)
    case Forget(a) => RemoveAddr(s, a)
    case Dial(a, ok) => Connect(s, a, ok)
    case Called(_) => Accept(s)
    case Version(p, addr) => HandleVersion(s, p, addr)
    case Verack(p) => HandleVerack(s, p)
    case Close(p) => RemovePeer(s, p)
  }

  lemma NextKeeps(s: State, e: Event)
    requires Inv(s) && Enabled(s, e)
    ensures Inv(Next(s, e))
  {
    match e
    case Listen =>
    case Learn => NewAddrKeeps(s);
    case Forget(a) => RemoveAddrKeeps(s, a);
    case Dial(a, ok) => ConnectKeeps(s, a, ok);
    case Called(k) => AcceptKeeps(s, k);
    case Version(p, addr) => VersionKeeps(s, p, addr);
    case Verack(p) => VerackKeeps(s, p);
    case Close(p) => RemovePeerKeeps(s, p);
  }

  predicate Reaches(s: State, events: seq<Event>, last: State)
    decreases |events|
  {
    if events == [] then last == s
    else Enabled(s, events[0]) && Reaches(Next(s, events[0]), events[1..], last)
  }

  lemma {:induction false} RunKeeps(s: State, events: seq<Event>, last: State)
    requires Inv(s) && Reaches(s, events, last)
    ensures Inv(last)
    decreases |events|
  {
    if events != [] {
      NextKeeps(s, events[0]);
      RunKeeps(Next(s, events[0]), events[1..], last);
    }
  }

  lemma StartInv()
    ensures Inv(START)
  {
    forall a: nat ensures AddrOk(START.connected, START.peers, a) {
      assert Users(START.peers, a) == {};
    }
    assert Free(START.connected) == {};
    forall d ensures Facing(START.peers, d) == {} {}
  }

  /** In every run an address is connected exactly when one peer uses it and no address is
      used by two, the counters are the numbers they stand for, there are at most 8
      outgoing and 9 incoming peers, every socket is polled while there are fewer than 8
      incoming ones, and no assertion fails. */
  lemma EveryRun(events: seq<Event>, last: State)
    requires Reaches(START, events, last)
    ensures Inv(last)
  {
    StartInv();
    RunKeeps(START, events, last);
  }

  // ------------------------------------------------- what each operation changes

  /** A connection is made if and only if a peer is wanted and the socket allows it; the
      new peer has the address, and no other peer changes. */
  lemma DialEffect(s: State, a: nat, ok: bool)
    requires Inv(s) && Enabled(s, Dial(a, ok))
    ensures var t := Next(s, Dial(a, ok));
      if ok && s.nOutgoing < MAX_OUTGOING then
        exists p: nat :: p !in s.peers && t.connected == s.connected[a := true]
          && t.peers == s.peers[p := Peer(Outgoing, Some(a), AwaitingVerackOut, false, false)]
      else t == s
  {
    assert a in Free(s.connected);
    var t := Next(s, Dial(a, ok));
    assert s.next !in s.peers;
    assert ok && s.nOutgoing < MAX_OUTGOING ==>
      t.peers == s.peers[s.next := Peer(Outgoing, Some(a), AwaitingVerackOut, false, false)];
  }

  /** A caller becomes a new peer without an address, and no other peer or address
      changes. */
  lemma CallEffect(s: State, k: nat)
    requires Inv(s) && Enabled(s, Called(k))
    ensures var t := Next(s, Called(k));
      exists p: nat :: p !in s.peers && t.connected == s.connected
        && t.peers == s.peers[p := Peer(Incoming, None, AwaitingVersionIn, false, false)]
  {
    var t := Next(s, Called(k));
    assert s.next !in s.peers
      && t.peers == s.peers[s.next := Peer(Incoming, None, AwaitingVersionIn, false, false)];
  }

  /** The address that a peer is found to have becomes its own if and only if it had none
      and no other peer uses it; no other address and no other peer changes. */
  lemma VersionEffect(s: State, p: nat, a: nat, q: nat)
    requires Inv(s) && p in s.peers && a in s.connected
    ensures var t := Next(s, Version(p, Some(a)));
      && p in t.peers
      && (s.peers[p].addr.Some? ==> t.peers[p].addr == s.peers[p].addr && t.connected == s.connected)
      && (s.peers[p].addr.None? ==>
        && t.connected == s.connected[a := true]
        && (t.peers[p].addr == Some(a) <==> Users(s.peers, a) == {})
        && (t.peers[p].addr == None <==> Users(s.peers, a) != {}))
      && (q != p ==> (q in t.peers <==> q in s.peers) && (q in s.peers ==> t.peers[q] == s.peers[q]))
  {
    assert AddrOk(s.connected, s.peers, a);
    assert s.connected[a] ==> s.connected[a := true] == s.connected;
  }

  /** A socket is polled after a peer has gone if and only if fewer than eight callers are
      left. */
  lemma CloseEffect(s: State, p: nat, k: nat)
    requires Inv(s) && p in s.peers && k in s.sources
    ensures var t := Next(s, Close(p));
      && k in t.sources && (t.sources[k] <==> |Facing(t.peers, Incoming)| < MAX_INCOMING)
      && t.peers == s.peers - {p}
      && (s.peers[p].addr.Some? ==> t.connected == s.connected[s.peers[p].addr.value := false])
      && (s.peers[p].addr.None? ==> t.connected == s.connected)
  {
    RemovePeerKeeps(s, p);
    if s.peers[p].addr.Some? {
      PeerAddr(s.connected, s.peers, p);
    }
  }

  // ------------------------------------------------------------- the handshake

  datatype Said = SaidVersion | SaidVerack

  /** What a peer says in one event. */
  function Says(e: Event, p: nat): seq<Said>
  {
    match e
    case Version(q, _) => if q == p then [SaidVersion] else []
    case Verack(q) => if q == p then [SaidVerack] else []
    case _ => []
  }

  /** What it says in a run. */
  function Heard(events: seq<Event>, p: nat): seq<Said>
  {
    if events == [] then [] else Says(events[0], p) + Heard(events[1..], p)
  }

  /** `first` is said and `second` is said some time after it. */
  ghost predicate InOrder(heard: seq<Said>, first: Said, second: Said)
  {
    exists i, j :: 0 <= i < j < |heard| && heard[i] == first && heard[j] == second
  }

  /** A peer that was called answers with its verack and then its version; one that calls
      says them in the other order. */
  function FirstOf(d: Direction): Said
  {
    if d == Outgoing then SaidVerack else SaidVersion
  }

  function SecondOf(d: Direction): Said
  {
    if d == Outgoing then SaidVersion else SaidVerack
  }

  function StateAt(d: Direction, stage: nat): PeerState
  {
    if stage >= 2 then Connected
    else if d == Outgoing then (if stage == 0 then AwaitingVerackOut else AwaitingVersionOut)
    else if stage == 0 then AwaitingVersionIn else AwaitingVerackIn
  }

  /** How far a peer gets from a stage by what it says. */
  ghost function Stage(d: Direction, stage: nat, heard: seq<Said>): nat
  {
    if stage >= 2 || (stage == 1 && SecondOf(d) in heard) || InOrder(heard, FirstOf(d), SecondOf(d)) then 2
    else if stage == 1 || FirstOf(d) in heard then 1
    else 0
  }

  lemma InOrderFirst(x: Said, heard: seq<Said>, first: Said, second: Said)
    ensures InOrder([x] + heard, first, second) <==> (x == first && second in heard) || InOrder(heard, first, second)
  {
    var all := [x] + heard;
    if InOrder(all, first, second) {
      var i, j :| 0 <= i < j < |all| && all[i] == first && all[j] == second;
      assert heard[j - 1] == second;
      assert i > 0 ==> heard[i - 1] == first;
    }
    if x == first && second in heard {
      var j :| 0 <= j < |heard| && heard[j] == second;
      assert all[0] == first && all[j + 1] == second;
    }
    if InOrder(heard, first, second) {
      var i, j :| 0 <= i < j < |heard| && heard[i] == first && heard[j] == second;
      assert all[i + 1] == first && all[j + 1] == second;
    }
  }

  /** Saying one thing and then the rest leads as far as saying it all. */
  lemma StageFirst(d: Direction, stage: nat, x: Said, heard: seq<Said>)
    requires stage <= 2
    ensures Stage(d, Stage(d, stage, [x]), heard) == Stage(d, stage, [x] + heard)
  {
    InOrderFirst(x, heard, FirstOf(d), SecondOf(d));
    InOrderFirst(x, [], FirstOf(d), SecondOf(d));
    assert [x] + [] == [x];
    assert forall y :: y in [x] + heard <==> y == x || y in heard;
  }

  lemma StageNone(d: Direction, stage: nat)
    requires stage <= 2
    ensures Stage(d, stage, []) == stage
  {
  }

  /** A peer that was at a stage has become another by what it has said. */
  ghost predicate Follows(was: Peer, stage: nat, heard: seq<Said>, now: Peer)
  {
    && now.direction == was.direction
    && now.state == StateAt(was.direction, Stage(was.direction, stage, heard))
    && (now.version <==> was.version || SaidVersion in heard)
    && (now.verack <==> was.verack || SaidVerack in heard)
  }

  lemma SilentFollows(was: Peer, stage: nat, now: Peer)
    requires now == was && stage <= 2 && was.state == StateAt(was.direction, stage)
    ensures Follows(was, stage, [], now)
  {
  }

  lemma NotInOrder(x: Said, first: Said, second: Said)
    ensures !InOrder([x], first, second)
  {
  }

  lemma VersionFollows(s: State, p: nat, addr: Option<nat>, stage: nat)
    requires p in s.peers && stage <= 2 && s.peers[p].state == StateAt(s.peers[p].direction, stage)
    ensures Follows(s.peers[p], stage, [SaidVersion], HandleVersion(s, p, addr).peers[p])
  {
    var d := s.peers[p].direction;
    NotInOrder(SaidVersion, FirstOf(d), SecondOf(d));
  }

  lemma VerackFollows(s: State, p: nat, stage: nat)
    requires p in s.peers && stage <= 2 && s.peers[p].state == StateAt(s.peers[p].direction, stage)
    ensures Follows(s.peers[p], stage, [SaidVerack], HandleVerack(s, p).peers[p])
  {
    var d := s.peers[p].direction;
    NotInOrder(SaidVerack, FirstOf(d), SecondOf(d));
  }

  lemma OthersSame(s: State, e: Event, p: nat)
    requires Enabled(s, e) && p in s.peers && p != s.next && p in Next(s, e).peers && Says(e, p) == []
    ensures Next(s, e).peers[p] == s.peers[p]
  {
  }

  /** What one event does to a peer that stays. */
  lemma StepFollows(s: State, e: Event, p: nat, stage: nat)
    requires Named(s) && Enabled(s, e) && p in s.peers && p in Next(s, e).peers && stage <= 2
    requires s.peers[p].state == StateAt(s.peers[p].direction, stage)
    ensures Follows(s.peers[p], stage, Says(e, p), Next(s, e).peers[p])
  {
    if Says(e, p) == [] {
      OthersSame(s, e, p);
      SilentFollows(s.peers[p], stage, Next(s, e).peers[p]);
    } else {
      match e
      case Version(_, addr) => VersionFollows(s, p, addr, stage);
      case Verack(_) => VerackFollows(s, p, stage);
    }
  }

  lemma FollowsTrans(a: Peer, stage: nat, said: seq<Said>, b: Peer, heard: seq<Said>, c: Peer)
    requires |said| <= 1 && stage <= 2
    requires Follows(a, stage, said, b) && Follows(b, Stage(a.direction, stage, said), heard, c)
    ensures Follows(a, stage, said + heard, c)
  {
    if said == [] {
      StageNone(a.direction, stage);
      assert said + heard == heard;
    } else {
      assert said == [said[0]];
      StageFirst(a.direction, stage, said[0], heard);
    }
  }

  /** Names are not given twice. */
  lemma NextNames(s: State, e: Event)
    requires Enabled(s, e)
    ensures s.next <= Next(s, e).next
    ensures forall p :: p in Next(s, e).peers ==> p in s.peers || p == s.next
  {
  }

  /** A peer that has gone does not come back under its name. */
  lemma {:induction false} GoneStays(s: State, events: seq<Event>, last: State, p: nat)
    requires Reaches(s, events, last) && p < s.next && p !in s.peers
    ensures p !in last.peers
    decreases |events|
  {
    if events != [] {
      NextNames(s, events[0]);
      GoneStays(Next(s, events[0]), events[1..], last, p);
    }
  }

  lemma {:induction false} StagesFollow(s: State, events: seq<Event>, last: State, p: nat, stage: nat)
    requires Inv(s) && Reaches(s, events, last) && p in s.peers && p in last.peers && stage <= 2
    requires s.peers[p].state == StateAt(s.peers[p].direction, stage)
    ensures Follows(s.peers[p], stage, Heard(events, p), last.peers[p])
    decreases |events|
  {
    if events == [] {
      SilentFollows(s.peers[p], stage, last.peers[p]);
    } else {
      var e := events[0];
      var t := Next(s, e);
      NextKeeps(s, e);
      if p !in t.peers {
        NextNames(s, e);
        GoneStays(t, events[1..], last, p);
        assert false;
      } else {
        StepFollows(s, e, p, stage);
        var stage' := Stage(s.peers[p].direction, stage, Says(e, p));
        StagesFollow(t, events[1..], last, p, stage');
        FollowsTrans(s.peers[p], stage, Says(e, p), t.peers[p], Heard(events[1..], p), last.peers[p]);
      }
    }
  }

  /** In every run from a new peer on, what it has said alone decides how far the
      handshake has come: it is connected exactly when it has said both, in the order of
      its direction, and it is still at the start exactly when it has not said the first.
      What it says out of order is recorded but does not count. */
  lemma HandshakeFollows(s: State, events: seq<Event>, last: State, p: nat)
    requires Inv(s) && Reaches(s, events, last) && p in s.peers && p in last.peers
    requires s.peers[p].state.AwaitingVerackOut? || s.peers[p].state.AwaitingVersionIn?
    requires !s.peers[p].version && !s.peers[p].verack
    ensures var d, peer, heard := s.peers[p].direction, last.peers[p], Heard(events, p);
      && (peer.state.Connected? <==> InOrder(heard, FirstOf(d), SecondOf(d)))
      && (peer.state == s.peers[p].state <==> FirstOf(d) !in heard)
      && (peer.version <==> SaidVersion in heard)
      && (peer.verack <==> SaidVerack in heard)
  {
    StagesFollow(s, events, last, p, 0);
    var d, heard := s.peers[p].direction, Heard(events, p);
    assert InOrder(heard, FirstOf(d), SecondOf(d)) ==> FirstOf(d) in heard;
  }

  // ------------------------------------------------------------ nine incoming

  /** A number of peers that call one after the other. */
  function CallMany(s: State, n: nat): State
    decreases n
  {
    if n == 0 then s else CallMany(Accept(s), n - 1)
  }

  /** A socket is still polled after the eighth peer was accepted. */
  lemma {:induction false} CallsAccepted(s: State, k: nat, n: nat)
    requires Inv(s) && k in s.sources && s.sources[k] && 0 <= s.nIncoming && s.nIncoming + n <= MAX_INCOMING + 1
    ensures exists events :: |events| == n && Reaches(s, events, CallMany(s, n))
    ensures CallMany(s, n).nIncoming == s.nIncoming + n
    decreases n
  {
    if n == 0 {
      assert Reaches(s, [], s);
    } else {
      var t := Accept(s);
      AcceptKeeps(s, k);
      if n == 1 {
        assert CallMany(t, 0) == t;
        assert Reaches(t, [], t) && [Called(k)][1..] == [];
        assert Reaches(s, [Called(k)], t);
      } else {
        assert t.sources[k];
        CallsAccepted(t, k, n - 1);
        var more :| |more| == n - 1 && Reaches(t, more, CallMany(t, n - 1));
        assert ([Called(k)] + more)[1..] == more;
        assert Reaches(s, [Called(k)] + more, CallMany(s, n));
      }
    }
  }

  /** The bound is 9 and not 8: any number of peers up to nine can be accepted. */
  lemma IncomingReached(n: nat)
    requires n <= MAX_INCOMING + 1
    ensures exists events, last :: Reaches(START, events, last) && last.nIncoming == n
  {
    StartInv();
    var s := AddListener(START);
    NextKeeps(START, Listen);
    CallsAccepted(s, 0, n);
    var events :| |events| == n && Reaches(s, events, CallMany(s, n));
    assert ([Listen] + events)[1..] == events;
    assert Reaches(START, [Listen] + events, CallMany(s, n));
  }

  lemma KeysDrop<V>(m: map<nat, V>, k: nat)
    requires k in m
    ensures |m - {k}| < |m|
  {
    assert (m - {k}).Keys == m.Keys - {k};
    assert |m.Keys| == |m| && |(m - {k}).Keys| == |m - {k}|;
  }

  // ---------------------------------------------------------------- in place

  /** An address that no peer uses and that can be connected to. */
  predicate Dialable(connected: map<nat, bool>, can: nat -> bool, a: nat)
  {
    a in connected && !connected[a] && can(a)
  }

  lemma NoneFree(s: State)
    requires CountersOk(s) && s.nUnconnected <= 0
    ensures forall a :: a in s.connected ==> s.connected[a]
  {
    forall a | a in s.connected ensures s.connected[a] {
      assert a !in Free(s.connected);
    }
  }

  class Network {
    var connected: map<nat, bool>
    var peers: map<nat, Peer>
    var sources: map<nat, bool>
    var nOutgoing: int
    var nIncoming: int
    var nUnconnected: int
    var next: nat
    var fault: bool

    ghost function Abs(): State
      reads this
    {
      State(connected, peers, sources, nOutgoing, nIncoming, nUnconnected, next, fault)
    }

    constructor ()
      ensures Abs() == START && Inv(Abs())
    {
      connected, peers, sources := map[], map[], map[];
      nOutgoing, nIncoming, nUnconnected, next, fault := 0, 0, 0, 0, false;
      new;
      StartInv();
    }

    /** add_peer */
    method NewPeer(p: Peer)
      modifies this
      ensures Abs() == AddPeer(old(Abs()), p)
    {
      peers := peers[next := p];
      next := next + 1;
      sources := map k | k in sources :: nIncoming < MAX_INCOMING;
    }

    /** connect_queue_cb: one of the addresses that can be connected to is dialled, exactly
        when there is one and a peer is wanted. */
    method ConnectQueue(order: seq<nat>, can: nat -> bool, random: nat, randMax: nat, ok: bool) returns (dialled: Option<nat>)
      requires Inv(Abs()) && random < randMax
      modifies this
      ensures Inv(Abs())
      ensures dialled.Some? <==>
        old(nOutgoing) < MAX_OUTGOING && exists a :: a in order && Dialable(old(connected), can, a)
      ensures dialled.None? ==> Abs() == old(Abs())
      ensures dialled.Some? ==>
        && dialled.value in order && dialled.value in old(connected) && !old(connected)[dialled.value]
        && can(dialled.value) && Abs() == Connect(old(Abs()), dialled.value, ok)
    {
      if nOutgoing >= MAX_OUTGOING || nUnconnected <= 0 {
        if nUnconnected <= 0 {
          NoneFree(Abs());
        }
        return None;
      }
      var now := connected;
      var free := (a: nat) => Dialable(now, can, a);
      dialled := PickAddr(order, free, random, randMax);
      CountIfSome(order, free);
      assert forall a :: a in order ==> free(a) == Dialable(now, can, a);
      if dialled.None? {
        return;
      }
      var a := dialled.value;
      assert Dialable(now, can, a);
      DialPeer(a, ok);
    }

    method DialPeer(a: nat, ok: bool)
      requires Inv(Abs()) && a in connected && !connected[a] && nOutgoing < MAX_OUTGOING && nUnconnected > 0
      modifies this
      ensures Inv(Abs()) && Abs() == Connect(old(Abs()), a, ok)
    {
      ConnectKeeps(Abs(), a, ok);
      if ok {
        NewPeer(Peer(Outgoing, Some(a), AwaitingVerackOut, false, false));
        nOutgoing := nOutgoing + 1;
        connected := connected[a := true];
        nUnconnected := nUnconnected - 1;
      }
    }

    /** listen_socket_source_cb */
    method AcceptConnection(socket: nat)
      requires Inv(Abs()) && socket in sources && sources[socket]
      modifies this
      ensures Abs() == Accept(old(Abs())) && Inv(Abs())
    {
      AcceptKeeps(Abs(), socket);
      NewPeer(Peer(Incoming, None, AwaitingVersionIn, false, false));
      nIncoming := nIncoming + 1;
    }

    /** remove_peer */
    method ClosePeer(p: nat)
      requires Inv(Abs()) && p in peers
      modifies this
      ensures Abs() == RemovePeer(old(Abs()), p) && Inv(Abs()) && peers == old(peers) - {p}
    {
      ghost var s := Abs();
      if peers[p].addr.Some? {
        PeerAddr(connected, peers, p);
      }
      UncountPeer(p);
      RemovePeerKeeps(s, p);
    }

    method UncountPeer(p: nat)
      requires p in peers && (peers[p].addr.Some? ==> peers[p].addr.value in connected)
      modifies this
      ensures Abs() == RemovePeer(old(Abs()), p)
    {
      var peer := peers[p];
      if peer.addr.Some? {
        nUnconnected := nUnconnected + 1;
        connected := connected[peer.addr.value := false];
      }
      if peer.direction.Outgoing? {
        nOutgoing := nOutgoing - 1;
      } else {
        nIncoming := nIncoming - 1;
      }
      peers := peers - {p};
      sources := map k | k in sources :: nIncoming < MAX_INCOMING;
    }

    /** remove_addr, whose assertion holds. */
    method ForgetAddr(a: nat)
      requires Inv(Abs()) && a in connected && !connected[a]
      modifies this
      ensures Abs() == RemoveAddr(old(Abs()), a) && Inv(Abs())
      ensures connected == old(connected) - {a} && peers == old(peers)
    {
      RemoveAddrKeeps(Abs(), a);
      connected := connected - {a};
      nUnconnected := nUnconnected - 1;
    }

    /** The loop of free_peers. */
    method FreePeers()
      requires Inv(Abs())
      modifies this
      ensures Inv(Abs()) && peers == map[]
    {
      while peers != map[]
        invariant Inv(Abs())
        decreases |peers|
      {
        assert peers.Keys != {};
        var p :| p in peers;
        KeysDrop(peers, p);
        ClosePeer(p);
      }
    }

    /** The loop of free_addrs: no address is connected once there are no peers. */
    method FreeAddrs()
      requires Inv(Abs()) && peers == map[]
      modifies this
      ensures Inv(Abs()) && peers == map[] && connected == map[]
    {
      while connected != map[]
        invariant Inv(Abs()) && peers == map[]
        decreases |connected|
      {
        assert connected.Keys != {};
        var a :| a in connected;
        assert AddrOk(connected, peers, a);
        assert Users(peers, a) == {};
        KeysDrop(connected, a);
        ForgetAddr(a);
      }
    }

    /** ntb_network_free, up to its final assertions. */
    method FreeNetwork()
      requires Inv(Abs())
      modifies this
      ensures !fault && nOutgoing == 0 && nIncoming == 0 && nUnconnected == 0
    {
      FreePeers();
      FreeAddrs();
      assert Facing(peers, Outgoing) == {} && Facing(peers, Incoming) == {};
      assert Free(connected) == {};
    }
  }
}
