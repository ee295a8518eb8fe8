/** The objects the network knows of. One table leads to all of them; each is also in one
    of several lists, according to its state. */
module Inventory {
  import opened Bytes

  type Hash = seq<byte>

  const MAX_REJECTED: nat := 16384

  /** A stub was asked of a peer and is in that peer's list. An accepted object is in
      memory or only on disk. */
  datatype InvState = Stub(peer: nat) | Rejected | Accepted(inMemory: bool)

  /** struct ntb_network_inventory */
  datatype Inv = Inv(hash: Hash, state: InvState)

  datatype Place = OfPeer(peer: nat) | RejectedList | AcceptedList

  function PlaceOf(state: InvState): Place
  {
    match state
    case Stub(p) => OfPeer(p)
    case Rejected => RejectedList
    case Accepted(_) => AcceptedList
  }

  /** Inventories are named by numbers that stand for their addresses. */
  datatype State = State(
    invs: map<nat, Inv>,
    index: map<Hash, nat>,
    lists: map<Place, seq<nat>>,
    nRejected: int,
    next: nat)

  const START := State(map[], map[], map[RejectedList := [], AcceptedList := []], 0, 0)

  // --------------------------------------------------------------- primitives

  function Without(list: seq<nat>, id: nat): seq<nat>
  {
    if list == [] then [] else if list[0] == id then list[1..] else [list[0]] + Without(list[1..], id)
  }

  /** Allocates an inventory and puts it into the table. */
  function Alloc(s: State, hash: Hash): State
  {
    s.(invs := s.invs[s.next := Inv(hash, Rejected)], index := s.index[hash := s.next], next := s.next + 1)
  }

  function Unlink(s: State, id: nat): State
    requires id in s.invs && PlaceOf(s.invs[id].state) in s.lists
  {
    var place := PlaceOf(s.invs[id].state);
    s.(lists := s.lists[place := Without(s.lists[place], id)])
  }

  /** Sets the state of an inventory and puts it at the front of the list for it. */
  function Link(s: State, id: nat, state: InvState): State
    requires id in s.invs && PlaceOf(state) in s.lists
  {
    var place := PlaceOf(state);
    s.(invs := s.invs[id := s.invs[id].(state := state)], lists := s.lists[place := [id] + s.lists[place]])
  }

  /** Takes an inventory out of the table and frees it. */
  function Free(s: State, id: nat): State
    requires id in s.invs
  {
    s.(index := s.index - {s.invs[id].hash}, invs := s.invs - {id})
  }

  /** Drops the copy of an accepted object that is in memory. */
  function Uncache(s: State, id: nat): State
    requires id in s.invs
  {
    s.(invs := s.invs[id := s.invs[id].(state := Accepted(false))])
  }

  datatype Location = Nowhere | OnDisk | Memory

  /** ntb_network_get_object */
  function GetObject(s: State, hash: Hash): Location
    requires hash in s.index ==> s.index[hash] in s.invs
  {
    if hash !in s.index then Nowhere
    else
      match s.invs[s.index[hash]].state
      case Accepted(inMemory) => if inMemory then Memory else OnDisk
      case Stub(_) => Nowhere
      case Rejected => Nowhere
  }

  // ------------------------------------------------------------- what is kept

  /** The table leads to every inventory by its own hash and to nothing else. */
  ghost predicate IndexOk(s: State)
  {
    && (forall id {:trigger s.invs[id]} :: id in s.invs ==> s.invs[id].hash in s.index && s.index[s.invs[id].hash] == id)
    && (forall h {:trigger s.index[h]} :: h in s.index ==> s.index[h] in s.invs && s.invs[s.index[h]].hash == h)
  }

  /** An inventory is in a list exactly when that is the list its state names, and there
      only once; `skip` is one that is in no list for now. */
  ghost predicate InPlace(s: State, place: Place, id: nat, skip: Option<nat>)
  {
    place in s.lists ==>
      (id in s.lists[place] <==> id in s.invs && skip != Some(id) && PlaceOf(s.invs[id].state) == place)
  }

  ghost predicate ListsOk(s: State, skip: Option<nat>)
  {
    && RejectedList in s.lists && AcceptedList in s.lists
    && (forall place, id {:trigger InPlace(s, place, id, skip)} :: InPlace(s, place, id, skip))
    && (forall place {:trigger s.lists[place]} :: place in s.lists ==> Distinct(s.lists[place]))
    && (forall id {:trigger s.invs[id]} :: id in s.invs && skip != Some(id) ==> PlaceOf(s.invs[id].state) in s.lists)
  }

  ghost predicate CountOk(s: State)
  {
    RejectedList in s.lists && s.nRejected == |s.lists[RejectedList]| <= MAX_REJECTED
  }

  ghost predicate Named(s: State)
  {
    forall id {:trigger id in s.invs} :: id in s.invs ==> id < s.next
  }

  ghost predicate ValidBut(s: State, skip: Option<nat>)
  {
    && IndexOk(s) && ListsOk(s, skip) && CountOk(s) && Named(s)
    && (skip.Some? ==> skip.value in s.invs)
  }

  ghost predicate Valid(s: State)
  {
    ValidBut(s, None)
  }

  // --------------------------------------------------------------- primitives

  lemma {:induction false} WithoutMembers(list: seq<nat>, id: nat)
    requires Distinct(list)
    ensures forall x :: x in Without(list, id) <==> x in list && x != id
    ensures Distinct(Without(list, id))
    ensures |Without(list, id)| == |list| - (if id in list then 1 else 0)
  {
    if list != [] {
      var more := list[1..];
      assert list == [list[0]] + more;
      assert list[0] !in more;
      WithoutMembers(more, id);
      assert Without(list, id) == if list[0] == id then more else [list[0]] + Without(more, id);
    }
  }

  lemma AllocKeeps(s: State, hash: Hash)
    requires Valid(s) && hash !in s.index
    ensures ValidBut(Alloc(s, hash), Some(s.next))
  {
    var t, skip := Alloc(s, hash), Some(s.next);
    assert s.next !in s.invs;
    forall place, id ensures InPlace(t, place, id, skip) {
      assert InPlace(s, place, id, None);
    }
  }

  lemma UnlinkKeeps(s: State, id: nat)
    requires Valid(s) && id in s.invs && !s.invs[id].state.Rejected?
    ensures PlaceOf(s.invs[id].state) in s.lists && ValidBut(Unlink(s, id), Some(id))
  {
    var place := PlaceOf(s.invs[id].state);
    var t, skip := Unlink(s, id), Some(id);
    WithoutMembers(s.lists[place], id);
    forall p, x ensures InPlace(t, p, x, skip) {
      assert InPlace(s, p, x, None);
    }
  }

  lemma LinkKeeps(s: State, id: nat, state: InvState)
    requires ValidBut(s, Some(id)) && PlaceOf(state) in s.lists && !state.Rejected?
    ensures Valid(Link(s, id, state))
  {
    var t := Link(s, id, state);
    assert InPlace(s, PlaceOf(state), id, Some(id));
    forall p, x ensures InPlace(t, p, x, None) {
      assert InPlace(s, p, x, Some(id));
    }
  }

  lemma FreeKeeps(s: State, id: nat)
    requires ValidBut(s, Some(id))
    ensures Valid(Free(s, id))
  {
    var t := Free(s, id);
    forall p, x ensures InPlace(t, p, x, None) {
      assert InPlace(s, p, x, Some(id));
    }
  }

  lemma UncacheKeeps(s: State, id: nat)
    requires Valid(s) && id in s.invs && s.invs[id].state.Accepted?
    ensures Valid(Uncache(s, id))
  {
    var t := Uncache(s, id);
    forall p, x ensures InPlace(t, p, x, None) {
      assert InPlace(s, p, x, None);
    }
  }

  /** Taking a rejected inventory out of its list, and counting it out. */
  lemma UnlinkRejectedKeeps(s: State, id: nat)
    requires Valid(s) && id in s.invs && s.invs[id].state.Rejected?
    ensures PlaceOf(s.invs[id].state) in s.lists
    ensures ValidBut(Unlink(s, id).(nRejected := s.nRejected - 1), Some(id))
  {
    var t, skip := Unlink(s, id).(nRejected := s.nRejected - 1), Some(id);
    WithoutMembers(s.lists[RejectedList], id);
    assert InPlace(s, RejectedList, id, None);
    forall p, x ensures InPlace(t, p, x, skip) {
      assert InPlace(s, p, x, None);
    }
  }

  /** Putting an inventory among the rejected ones, and counting it in. */
  lemma LinkRejectedKeeps(s: State, id: nat)
    requires ValidBut(s, Some(id)) && s.nRejected < MAX_REJECTED
    ensures RejectedList in s.lists
    ensures Valid(Link(s, id, Rejected).(nRejected := s.nRejected + 1))
  {
    var t := Link(s, id, Rejected).(nRejected := s.nRejected + 1);
    assert InPlace(s, RejectedList, id, Some(id));
    forall p, x ensures InPlace(t, p, x, None) {
      assert InPlace(s, p, x, Some(id));
    }
  }

  // --------------------------------------------------------------- operations

  /** request_inventory */
  ghost function Request(s: State, peer: nat, hash: Hash): (r: State)
    requires Valid(s) && OfPeer(peer) in s.lists && hash !in s.index
    ensures Valid(r) && r.lists.Keys == s.lists.Keys
  {
    AllocKeeps(s, hash);
    LinkKeeps(Alloc(s, hash), s.next, Stub(peer));
    Link(Alloc(s, hash), s.next, Stub(peer))
  }

  /** handle_inv asks for every object that is not known yet. */
  ghost function HandleInv(s: State, peer: nat, hashes: seq<Hash>): (r: State)
    requires Valid(s) && OfPeer(peer) in s.lists
    ensures Valid(r) && r.lists.Keys == s.lists.Keys
    decreases |hashes|
  {
    if hashes == [] then s
    else HandleInv(if hashes[0] in s.index then s else Request(s, peer, hashes[0]), peer, hashes[1..])
  }

  /** The oldest of the rejected inventories is freed to make room for another one. */
  lemma EvictKeeps(s: State, id: nat)
    requires ValidBut(s, Some(id)) && s.nRejected >= MAX_REJECTED
    ensures |s.lists[RejectedList]| > 0
    ensures var oldest := s.lists[RejectedList][|s.lists[RejectedList]| - 1];
      && oldest in s.invs && oldest != id && s.invs[oldest].state.Rejected?
      && ValidBut(Free(Unlink(s, oldest), oldest).(nRejected := s.nRejected - 1), Some(id))
  {
    var list := s.lists[RejectedList];
    var oldest := list[|list| - 1];
    assert InPlace(s, RejectedList, oldest, Some(id));
    WithoutMembers(list, oldest);
    var t := Free(Unlink(s, oldest), oldest).(nRejected := s.nRejected - 1);
    forall p, x ensures InPlace(t, p, x, Some(id)) {
      assert InPlace(s, p, x, Some(id));
    }
  }

  /** reject_inventory, for an inventory that is in no list: the oldest rejected one makes
      room when there are too many, and the count stays. */
  ghost function Reject(s: State, id: nat): (r: State)
    requires ValidBut(s, Some(id))
    ensures Valid(r)
  {
    if s.nRejected >= MAX_REJECTED then
      EvictKeeps(s, id);
      var oldest := s.lists[RejectedList][|s.lists[RejectedList]| - 1];
      var t := Free(Unlink(s, oldest), oldest);
      LinkRejectedKeeps(t.(nRejected := s.nRejected - 1), id);
      var r := Link(t, id, Rejected);
      assert r == Link(t.(nRejected := s.nRejected - 1), id, Rejected).(nRejected := s.nRejected);
      r
    else
      LinkRejectedKeeps(s, id);
      Link(s.(nRejected := s.nRejected + 1), id, Rejected)
  }

  /** The inventory that a received object is for: a new one, or the stub, taken from the
      list it was in. Nothing if the object is known already. */
  ghost function Receive(s: State, hash: Hash): (r: Option<(State, nat)>)
    requires Valid(s)
    ensures r.Some? ==> ValidBut(r.value.0, Some(r.value.1)) && r.value.0.invs[r.value.1].hash == hash
  {
    if hash !in s.index then
      AllocKeeps(s, hash);
      Some((Alloc(s, hash), s.next))
    else if s.invs[s.index[hash]].state.Stub? then
      UnlinkKeeps(s, s.index[hash]);
      Some((Unlink(s, s.index[hash]), s.index[hash]))
    else None
  }

  /** What add_object has done by the time it tells that there is a new object. */
  ghost function Accept(s: State, id: nat): (r: State)
    requires ValidBut(s, Some(id))
    ensures Valid(r) && id in r.invs && r.invs[id] == s.invs[id].(state := Accepted(true))
  {
    LinkKeeps(s, id, Accepted(true));
    Link(s, id, Accepted(true))
  }

  /** add_object; `bad` says that the object fails validation and `aged` that it is not
      kept in memory. */
  ghost function AddObject(s: State, hash: Hash, bad: bool, aged: bool): (r: State)
    requires Valid(s)
    ensures Valid(r)
  {
    match Receive(s, hash)
    case None => s
    case Some(r) =>
      if bad then Reject(r.0, r.1)
      else
        var t := Accept(r.0, r.1);
        if aged then UncacheKeeps(t, r.1); Uncache(t, r.1) else t
  }

  /** store_for_each_blob_cb */
  ghost function LoadObject(s: State, hash: Hash): (r: State)
    requires Valid(s)
    ensures Valid(r)
  {
    if hash in s.index then s
    else
      AllocKeeps(s, hash);
      LinkKeeps(Alloc(s, hash), s.next, Accepted(false));
      Link(Alloc(s, hash), s.next, Accepted(false))
  }

  datatype Verdict = Keep | TooOld | OutOfMemory

  /** What garbage collection does to one inventory. */
  ghost function GcOne(s: State, id: nat, verdict: Verdict): (r: State)
    requires Valid(s) && id in s.invs
    ensures Valid(r) && r.lists.Keys == s.lists.Keys
  {
    match verdict
    case Keep => s
    case TooOld =>
      if s.invs[id].state.Rejected? then
        UnlinkRejectedKeeps(s, id);
        var t := Unlink(s, id).(nRejected := s.nRejected - 1);
        FreeKeeps(t, id);
        Free(t, id)
      else
        UnlinkKeeps(s, id);
        FreeKeeps(Unlink(s, id), id);
        Free(Unlink(s, id), id)
    case OutOfMemory =>
      if s.invs[id].state == Accepted(true) then UncacheKeeps(s, id); Uncache(s, id) else s
  }

  /** The loops of gc_inventories, gc_requested_inventories and remove_peer. */
  ghost function GcAll(s: State, ids: seq<nat>, verdict: nat -> Verdict): (r: State)
    requires Valid(s)
    ensures Valid(r) && r.lists.Keys == s.lists.Keys
    decreases |ids|
  {
    if ids == [] then s
    else GcAll(if ids[0] in s.invs then GcOne(s, ids[0], verdict(ids[0])) else s, ids[1..], verdict)
  }

  lemma AddPeerKeeps(s: State, peer: nat)
    requires Valid(s) && OfPeer(peer) !in s.lists
    ensures Valid(s.(lists := s.lists[OfPeer(peer) := []]))
  {
    var t := s.(lists := s.lists[OfPeer(peer) := []]);
    forall p, x ensures InPlace(t, p, x, None) {
      assert InPlace(s, p, x, None);
    }
  }

  lemma DropPeerKeeps(s: State, peer: nat)
    requires Valid(s) && OfPeer(peer) in s.lists && s.lists[OfPeer(peer)] == []
    ensures Valid(s.(lists := s.lists - {OfPeer(peer)}))
  {
    var t := s.(lists := s.lists - {OfPeer(peer)});
    forall p, x ensures InPlace(t, p, x, None) {
      assert InPlace(s, p, x, None);
    }
    forall id | id in t.invs ensures PlaceOf(t.invs[id].state) in t.lists {
      assert InPlace(s, OfPeer(peer), id, None);
    }
  }

  lemma GcOneForgets(s: State, id: nat, place: Place)
    requires Valid(s) && id in s.invs && place in s.lists
    ensures forall x :: x in GcOne(s, id, TooOld).lists[place] ==> x in s.lists[place] && x != id
  {
    var t := GcOne(s, id, TooOld);
    forall x | x in t.lists[place] ensures x in s.lists[place] && x != id {
      assert InPlace(t, place, x, None) && InPlace(s, place, x, None);
    }
  }

  lemma EmptyOrNot(list: seq<nat>)
    ensures list == [] || exists x :: x in list
  {
    if list != [] {
      assert list[0] in list;
    }
  }

  lemma {:induction false} GcForgets(s: State, ids: seq<nat>, place: Place)
    requires Valid(s) && place in s.lists && forall x :: x in s.lists[place] ==> x in ids
    ensures GcAll(s, ids, id => TooOld).lists[place] == []
    decreases |ids|
  {
    if ids == [] {
      EmptyOrNot(s.lists[place]);
    } else {
      assert ids == [ids[0]] + ids[1..];
      if ids[0] in s.invs {
        GcOneForgets(s, ids[0], place);
        GcForgets(GcOne(s, ids[0], TooOld), ids[1..], place);
      } else {
        assert InPlace(s, place, ids[0], None);
        GcForgets(s, ids[1..], place);
      }
    }
  }

  ghost function AddPeer(s: State, peer: nat): (r: State)
    requires Valid(s)
    ensures Valid(r)
  {
    if OfPeer(peer) in s.lists then s
    else
      AddPeerKeeps(s, peer);
      s.(lists := s.lists[OfPeer(peer) := []])
  }

  /** remove_peer gives up everything that was asked of the peer. */
  ghost function RemovePeer(s: State, peer: nat): (r: State)
    requires Valid(s) && OfPeer(peer) in s.lists
    ensures Valid(r)
  {
    GcForgets(s, s.lists[OfPeer(peer)], OfPeer(peer));
    var t := GcAll(s, s.lists[OfPeer(peer)], id => TooOld);
    DropPeerKeeps(t, peer);
    t.(lists := t.lists - {OfPeer(peer)})
  }

  // --------------------------------------------------------------- every run

  datatype Event =
    | Load(hash: Hash)
    | Connect(peer: nat)
    | Advertise(peer: nat, hashes: seq<Hash>)
    | Arrive(hash: Hash, bad: bool, aged: bool)
    | Collect(place: Place, verdict: nat -> Verdict)
    | Disconnect(peer: nat)

  ghost predicate Enabled(s: State, e: Event)
  {
    match e
    case Load(_) => true
    case Connect(_) => true
    case Advertise(peer, _) => OfPeer(peer) in s.lists
    case Arrive(_, _, _) => true
    case Collect(place, _) => place in s.lists
    case Disconnect(peer) => OfPeer(peer) in s.lists
  }

  ghost function Next(s: State, e: Event): (r: State)
    requires Valid(s) && Enabled(s, e)
    ensures Valid(r)
  {
    match e
    case Load(hash) => LoadObject(s, hash)
    case Connect(peer) => AddPeer(s, peer)
    case Advertise(peer, hashes) => HandleInv(s, peer, hashes)
    case Arrive(hash, bad, aged) => AddObject(s, hash, bad, aged)
    case Collect(place, verdict) => GcAll(s, s.lists[place], verdict)
    case Disconnect(peer) => RemovePeer(s, peer)
  }

  ghost predicate Reaches(s: State, events: seq<Event>, last: State)
    requires Valid(s)
    decreases |events|
  {
    if events == [] then last == s
    else Enabled(s, events[0]) && Reaches(Next(s, events[0]), events[1..], last)
  }

  lemma {:induction false} RunKeeps(s: State, events: seq<Event>, last: State)
    requires Valid(s) && Reaches(s, events, last)
    ensures Valid(last)
    decreases |events|
  {
    if events != [] {
      RunKeeps(Next(s, events[0]), events[1..], last);
    }
  }

  lemma StartValid()
    ensures Valid(START)
  {
    forall p, x ensures InPlace(START, p, x, None) {}
  }

  ghost function Begin(): (s: State)
    ensures Valid(s)
  {
    StartValid();
    START
  }

  /** In every run each inventory is indexed under its own hash and is in exactly one list,
      once, the one its state names, and the rejected ones are counted and few. */
  lemma EveryRun(events: seq<Event>, last: State)
    requires Reaches(Begin(), events, last)
    ensures Valid(last)
  {
    RunKeeps(Begin(), events, last);
  }

  /** What being in place means for one inventory. */
  lemma OnePlace(s: State, id: nat)
    requires Valid(s) && id in s.invs
    ensures s.index[s.invs[id].hash] == id
    ensures forall place :: place in s.lists ==> (id in s.lists[place] <==> place == PlaceOf(s.invs[id].state))
    ensures exists k :: 0 <= k < |s.lists[PlaceOf(s.invs[id].state)]| && s.lists[PlaceOf(s.invs[id].state)][k] == id
  {
    forall place | place in s.lists ensures id in s.lists[place] <==> place == PlaceOf(s.invs[id].state) {
      assert InPlace(s, place, id, None);
    }
  }

  /** When the network says that there is a new object, it has it in memory. */
  lemma SignalledInMemory(s: State, hash: Hash)
    requires Valid(s) && Receive(s, hash).Some?
    ensures var r := Receive(s, hash).value;
      GetObject(Accept(r.0, r.1), hash) == Memory
  {
    var r := Receive(s, hash).value;
    assert Accept(r.0, r.1).invs[r.1].hash == hash;
  }

  // ------------------------------------------------- what each operation changes

  /** What the network knows of a hash. */
  ghost function Lookup(s: State, h: Hash): Option<InvState>
    requires IndexOk(s)
  {
    if h in s.index then Some(s.invs[s.index[h]].state) else None
  }

  lemma AllocEffect(s: State, hash: Hash, h: Hash)
    requires Valid(s) && hash !in s.index
    ensures IndexOk(Alloc(s, hash))
    ensures h != hash ==> Lookup(Alloc(s, hash), h) == Lookup(s, h)
  {
    AllocKeeps(s, hash);
  }

  lemma LinkEffect(s: State, id: nat, state: InvState, h: Hash)
    requires IndexOk(s) && id in s.invs && PlaceOf(state) in s.lists
    ensures IndexOk(Link(s, id, state))
    ensures Lookup(Link(s, id, state), h) == if h == s.invs[id].hash then Some(state) else Lookup(s, h)
  {
    var t := Link(s, id, state);
    assert forall x :: x in t.invs ==> t.invs[x].hash == s.invs[x].hash;
  }

  lemma FreeEffect(s: State, id: nat, h: Hash)
    requires IndexOk(s) && id in s.invs
    ensures IndexOk(Free(s, id))
    ensures Lookup(Free(s, id), h) == if h == s.invs[id].hash then None else Lookup(s, h)
  {
  }

  lemma UncacheEffect(s: State, id: nat, h: Hash)
    requires IndexOk(s) && id in s.invs
    ensures IndexOk(Uncache(s, id))
    ensures Lookup(Uncache(s, id), h) == if h == s.invs[id].hash then Some(Accepted(false)) else Lookup(s, h)
  {
    var t := Uncache(s, id);
    assert forall x :: x in t.invs ==> t.invs[x].hash == s.invs[x].hash;
  }

  /** An object is new to the network if it is unknown or only asked for. */
  ghost predicate IsNew(s: State, hash: Hash)
    requires IndexOk(s)
  {
    Lookup(s, hash).None? || Lookup(s, hash).value.Stub?
  }

  /** The hash that has to make room when another one is rejected. */
  ghost predicate MakesRoom(s: State, h: Hash)
  {
    && s.nRejected >= MAX_REJECTED && RejectedList in s.lists && s.lists[RejectedList] != []
    && var oldest := s.lists[RejectedList][|s.lists[RejectedList]| - 1];
      oldest in s.invs && s.invs[oldest].hash == h
  }

  lemma ReceiveEffect(s: State, hash: Hash, h: Hash)
    requires Valid(s)
    ensures Receive(s, hash).Some? == IsNew(s, hash)
    ensures Receive(s, hash).Some? ==>
      var t := Receive(s, hash).value.0;
      && t.nRejected == s.nRejected && t.lists[RejectedList] == s.lists[RejectedList]
      && (h != hash ==> Lookup(t, h) == Lookup(s, h))
  {
    if hash !in s.index {
      AllocEffect(s, hash, h);
    }
  }

  lemma RejectEffect(s: State, id: nat, h: Hash)
    requires ValidBut(s, Some(id))
    ensures var r, hash := Reject(s, id), s.invs[id].hash;
      Lookup(r, h) ==
      if h == hash then Some(Rejected) else if MakesRoom(s, h) then None else Lookup(s, h)
  {
    if s.nRejected >= MAX_REJECTED {
      EvictKeeps(s, id);
      var oldest := s.lists[RejectedList][|s.lists[RejectedList]| - 1];
      var t := Unlink(s, oldest);
      FreeEffect(t, oldest, h);
      LinkEffect(Free(t, oldest), id, Rejected, h);
    } else {
      LinkEffect(s.(nRejected := s.nRejected + 1), id, Rejected, h);
    }
  }

  /** An object that arrives is rejected if it is bad, and otherwise accepted and kept in
      memory unless it is old; nothing else changes, except that the oldest rejected one
      may have to make room. */
  lemma ArriveEffect(s: State, hash: Hash, bad: bool, aged: bool, h: Hash)
    requires Valid(s)
    ensures var r := AddObject(s, hash, bad, aged);
      Lookup(r, h) ==
      if !IsNew(s, hash) then Lookup(s, h)
      else if h == hash then Some(if bad then Rejected else Accepted(!aged))
      else if bad && MakesRoom(s, h) then None
      else Lookup(s, h)
  {
    ReceiveEffect(s, hash, h);
    if IsNew(s, hash) {
      var t, id := Receive(s, hash).value.0, Receive(s, hash).value.1;
      if bad {
        RejectEffect(t, id, h);
        if h != hash {
          RoomSame(s, hash, h);
        }
      } else {
        LinkEffect(t, id, Accepted(true), h);
        if aged {
          UncacheEffect(Accept(t, id), id, h);
        }
      }
    }
  }

  /** Receiving an object does not change which one is the oldest rejected one. */
  lemma RoomSame(s: State, hash: Hash, h: Hash)
    requires Valid(s) && IsNew(s, hash) && h != hash && Receive(s, hash).Some?
    ensures var t := Receive(s, hash).value.0;
      MakesRoom(s, h) <==> MakesRoom(t, h)
  {
    ReceiveEffect(s, hash, h);
    if s.nRejected >= MAX_REJECTED {
      var oldest := s.lists[RejectedList][|s.lists[RejectedList]| - 1];
      assert InPlace(s, RejectedList, oldest, None);
    }
  }

  /** Every advertised hash that is unknown becomes a request to the peer, and nothing else
      changes. */
  lemma {:induction false} AdvertiseEffect(s: State, peer: nat, hashes: seq<Hash>, h: Hash)
    requires Valid(s) && OfPeer(peer) in s.lists
    ensures Lookup(HandleInv(s, peer, hashes), h) ==
      if Lookup(s, h).None? && h in hashes then Some(Stub(peer)) else Lookup(s, h)
    decreases |hashes|
  {
    if hashes != [] {
      var first := hashes[0];
      assert hashes == [first] + hashes[1..];
      if first in s.index {
        AdvertiseEffect(s, peer, hashes[1..], h);
      } else {
        AllocEffect(s, first, h);
        AllocKeeps(s, first);
        LinkEffect(Alloc(s, first), s.next, Stub(peer), h);
        AdvertiseEffect(Request(s, peer, first), peer, hashes[1..], h);
      }
    }
  }

  function Judged(verdict: Verdict, state: InvState): Option<InvState>
  {
    match verdict
    case Keep => Some(state)
    case TooOld => None
    case OutOfMemory => Some(if state == Accepted(true) then Accepted(false) else state)
  }

  lemma GcOneEffect(s: State, id: nat, verdict: Verdict, h: Hash)
    requires Valid(s) && id in s.invs
    ensures Lookup(GcOne(s, id, verdict), h) ==
      if h == s.invs[id].hash then Judged(verdict, s.invs[id].state) else Lookup(s, h)
    ensures forall x :: x in GcOne(s, id, verdict).index ==> x in s.index && GcOne(s, id, verdict).index[x] == s.index[x]
  {
    match verdict
    case Keep =>
    case TooOld =>
      if s.invs[id].state.Rejected? {
        UnlinkRejectedKeeps(s, id);
        FreeEffect(Unlink(s, id).(nRejected := s.nRejected - 1), id, h);
      } else {
        UnlinkKeeps(s, id);
        FreeEffect(Unlink(s, id), id, h);
      }
    case OutOfMemory =>
      if s.invs[id].state == Accepted(true) {
        UncacheEffect(s, id, h);
      }
  }

  /** Each inventory of the list is kept, forgotten or dropped from memory as its age says,
      and no other changes. */
  lemma {:induction false} CollectEffect(s: State, ids: seq<nat>, verdict: nat -> Verdict, h: Hash)
    requires Valid(s) && Distinct(ids)
    ensures Lookup(GcAll(s, ids, verdict), h) ==
      if h in s.index && s.index[h] in ids then Judged(verdict(s.index[h]), s.invs[s.index[h]].state)
      else Lookup(s, h)
    decreases |ids|
  {
    if ids != [] {
      var id, more := ids[0], ids[1..];
      assert ids == [id] + more && id !in more;
      if id in s.invs {
        GcOneEffect(s, id, verdict(id), h);
        CollectEffect(GcOne(s, id, verdict(id)), more, verdict, h);
      } else {
        CollectEffect(s, more, verdict, h);
      }
    }
  }

  /** Only an accepted object can be had, from memory or from disk. */
  lemma ObjectLocation(s: State, h: Hash)
    requires IndexOk(s)
    ensures GetObject(s, h) == Memory <==> Lookup(s, h) == Some(Accepted(true))
    ensures GetObject(s, h) == OnDisk <==> Lookup(s, h) == Some(Accepted(false))
  {
  }

  /** An object found in the store at startup can be had from disk, and no other is
      touched. */
  lemma LoadEffect(s: State, hash: Hash, h: Hash)
    requires Valid(s)
    ensures var t := Next(s, Load(hash));
      && Lookup(t, h) == (if h == hash && h !in s.index then Some(Accepted(false)) else Lookup(s, h))
      && (hash !in s.index ==> GetObject(t, hash) == OnDisk)
  {
    if hash !in s.index {
      AllocKeeps(s, hash);
      AllocEffect(s, hash, h);
      LinkEffect(Alloc(s, hash), s.next, Accepted(false), h);
      LinkEffect(Alloc(s, hash), s.next, Accepted(false), hash);
    }
  }

  /** A good object can be had as soon as it has come, from disk if it is old; a bad one
      cannot be had. */
  lemma ArrivedLocation(s: State, hash: Hash, bad: bool, aged: bool)
    requires Valid(s) && IsNew(s, hash)
    ensures GetObject(Next(s, Arrive(hash, bad, aged)), hash) ==
      if bad then Nowhere else if aged then OnDisk else Memory
  {
    ArriveEffect(s, hash, bad, aged, hash);
    ObjectLocation(AddObject(s, hash, bad, aged), hash);
  }

  /** An object that is dropped from memory can still be had, from disk. */
  lemma CollectedLocation(s: State, place: Place, verdict: nat -> Verdict, h: Hash)
    requires Valid(s) && place in s.lists && GetObject(s, h) != Nowhere
    requires verdict(s.index[h]) != TooOld
    ensures GetObject(Next(s, Collect(place, verdict)), h) != Nowhere
  {
    CollectEffect(s, s.lists[place], verdict, h);
    ObjectLocation(s, h);
  }

  /** When a peer goes, exactly what was asked of it is forgotten. */
  lemma DisconnectEffect(s: State, peer: nat, h: Hash)
    requires Valid(s) && OfPeer(peer) in s.lists
    ensures Lookup(RemovePeer(s, peer), h) == if Lookup(s, h) == Some(Stub(peer)) then None else Lookup(s, h)
  {
    CollectEffect(s, s.lists[OfPeer(peer)], id => TooOld, h);
    if h in s.index {
      assert InPlace(s, OfPeer(peer), s.index[h], None);
    }
  }

  // ---------------------------------------------------------------- in place

  class Network {
    var invs: map<nat, Inv>
    var index: map<Hash, nat>
    var lists: map<Place, seq<nat>>
    var nRejected: int
    var next: nat

    ghost function Abs(): State
      reads this
    {
      State(invs, index, lists, nRejected, next)
    }

    constructor ()
      ensures Abs() == START && Valid(Abs())
    {
      invs, index, lists, nRejected, next := map[], map[], map[RejectedList := [], AcceptedList := []], 0, 0;
      new;
      StartValid();
    }

    method Unlinked(id: nat)
      requires id in invs && PlaceOf(invs[id].state) in lists
      modifies this`lists
      ensures Abs() == Unlink(old(Abs()), id)
    {
      var place := PlaceOf(invs[id].state);
      lists := lists[place := Without(lists[place], id)];
    }

    method Freed(id: nat)
      requires id in invs
      modifies this`index, this`invs
      ensures Abs() == Free(old(Abs()), id)
    {
      index := index - {invs[id].hash};
      invs := invs - {id};
    }

    method Linked(id: nat, state: InvState)
      requires id in invs && PlaceOf(state) in lists
      modifies this`invs, this`lists
      ensures Abs() == Link(old(Abs()), id, state)
    {
      var place := PlaceOf(state);
      invs := invs[id := invs[id].(state := state)];
      lists := lists[place := [id] + lists[place]];
    }

    method Allocated(hash: Hash) returns (id: nat)
      modifies this
      ensures Abs() == Alloc(old(Abs()), hash) && id == old(next)
    {
      id := next;
      invs := invs[id := Inv(hash, Rejected)];
      index := index[hash := id];
      next := next + 1;
    }

    /** handle_inv */
    method HandleInvEvent(peer: nat, hashes: seq<Hash>)
      requires Valid(Abs()) && OfPeer(peer) in lists
      modifies this
      ensures Valid(Abs()) && Abs() == HandleInv(old(Abs()), peer, hashes)
    {
      var i := 0;
      assert hashes[0..] == hashes;
      while i < |hashes|
        invariant i <= |hashes| && Valid(Abs()) && OfPeer(peer) in lists
        invariant HandleInv(Abs(), peer, hashes[i..]) == HandleInv(old(Abs()), peer, hashes)
      {
        ghost var rest := hashes[i..];
        assert rest[0] == hashes[i] && rest[1..] == hashes[i + 1..];
        if hashes[i] !in index {
          RequestInventory(peer, hashes[i]);
        }
        i := i + 1;
      }
    }

    method RequestInventory(peer: nat, hash: Hash)
      requires Valid(Abs()) && OfPeer(peer) in lists && hash !in index
      modifies this
      ensures Abs() == Request(old(Abs()), peer, hash)
    {
      var id := Allocated(hash);
      Linked(id, Stub(peer));
    }

    /** reject_inventory */
    method RejectInventory(id: nat)
      requires ValidBut(Abs(), Some(id))
      modifies this
      ensures Abs() == Reject(old(Abs()), id)
    {
      if nRejected >= MAX_REJECTED {
        EvictKeeps(Abs(), id);
        var oldest := lists[RejectedList][|lists[RejectedList]| - 1];
        Unlinked(oldest);
        Freed(oldest);
      } else {
        nRejected := nRejected + 1;
      }
      Linked(id, Rejected);
    }

    /** add_object: when the new object is announced it is in memory. */
    method AddReceived(hash: Hash, bad: bool, aged: bool) returns (announced: bool)
      requires Valid(Abs())
      modifies this
      ensures Abs() == AddObject(old(Abs()), hash, bad, aged)
      ensures announced <==> !bad && Receive(old(Abs()), hash).Some?
    {
      ghost var s := Abs();
      var id;
      if hash !in index {
        AllocKeeps(s, hash);
        id := Allocated(hash);
      } else {
        id := index[hash];
        if !invs[id].state.Stub? {
          return false;
        }
        UnlinkKeeps(s, id);
        Unlinked(id);
      }
      assert Receive(s, hash) == Some((Abs(), id));
      if bad {
        RejectInventory(id);
        return false;
      }
      LinkKeeps(Abs(), id, Accepted(true));
      Linked(id, Accepted(true));
      SignalledInMemory(s, hash);
      assert GetObject(Abs(), hash) == Memory;
      if aged {
        invs := invs[id := invs[id].(state := Accepted(false))];
      }
      return true;
    }

    method CollectOne(id: nat, verdict: Verdict)
      requires Valid(Abs()) && id in invs
      modifies this
      ensures Abs() == GcOne(old(Abs()), id, verdict)
    {
      if verdict.TooOld? {
        if invs[id].state.Rejected? {
          UnlinkRejectedKeeps(Abs(), id);
          nRejected := nRejected - 1;
        } else {
          UnlinkKeeps(Abs(), id);
        }
        Unlinked(id);
        Freed(id);
      } else if verdict.OutOfMemory? && invs[id].state == Accepted(true) {
        invs := invs[id := invs[id].(state := Accepted(false))];
      }
    }

    /** gc_inventories and gc_requested_inventories: the loop takes its next entry before
        it frees one. */
    method CollectList(ids: seq<nat>, verdict: nat -> Verdict)
      requires Valid(Abs())
      modifies this
      ensures Valid(Abs()) && Abs() == GcAll(old(Abs()), ids, verdict)
    {
      var i := 0;
      assert ids[0..] == ids;
      while i < |ids|
        invariant i <= |ids| && Valid(Abs())
        invariant GcAll(Abs(), ids[i..], verdict) == GcAll(old(Abs()), ids, verdict)
      {
        ghost var rest := ids[i..];
        assert rest[0] == ids[i] && rest[1..] == ids[i + 1..];
        if ids[i] in invs {
          CollectOne(ids[i], verdict(ids[i]));
        }
        i := i + 1;
      }
    }

    /** remove_peer, as far as the requests made to the peer are concerned. */
    method Disconnect(peer: nat)
      requires Valid(Abs()) && OfPeer(peer) in lists
      modifies this
      ensures Abs() == RemovePeer(old(Abs()), peer)
    {
      CollectList(lists[OfPeer(peer)], id => TooOld);
      lists := lists - {OfPeer(peer)};
    }
  }
}
