/** The network and the keyring together. An object that arrives is put into the inventory,
    then the keyring is told of it while it is still in memory; whatever the keyring asks of
    the network is answered from the inventory as it then is. */
module Node {
  import opened Bytes
  import opened Proto
  import opened PowTarget
  import opened MessageLayout
  import opened Acknowledgement
  import PubkeyIndex
  import Inventory
  import Keyring
  import AckdataRuns

  type Key = PubkeyIndex.Key
  type Hash = seq<byte>

  datatype Kind = Getpubkey | Pubkey | Msg | Broadcast

  const CACHE_AGE: int := 10 * 60
  const FUTURE_AGE: int := 30 * 60

  function MaxAge(kind: Kind): int
  {
    if kind.Pubkey? then 4 * 7 * 24 * 60 * 60 else 24 * 60 * 60 * 5 / 2
  }

  /** Foreign code: SHA-512, and what key a pubkey object is for, with its timestamp, if it
      is one. */
  datatype Env = Env(sha: seq<byte> -> seq<byte>, pubkey: seq<byte> -> Option<(Key, int)>)

  /** ntb_proto_double_hash */
  function ObjectHash(sha: seq<byte> -> seq<byte>, data: seq<byte>): (r: Hash)
    requires IsSha512(sha)
    ensures |r| == 32
  {
    sha(sha(data))[..32]
  }

  /** The program loads the objects it has on disk, then the pubkeys among them, then the
      messages, and then runs. */
  datatype Phase = LoadingObjects | LoadingPubkeys | LoadingOutgoings | Running

  datatype State = State(phase: Phase, inv: Inventory.State, ring: Keyring.World)

  datatype Event =
    | Proceed
    | StoredObject(hash: Hash)
    | StoredPubkey(payload: seq<byte>)
    | StoredOutgoing(key: Key, toKey: bool, ackdata: seq<byte>, recent: bool)
    | Peer(event: Inventory.Event)
    | Arrive(kind: Kind, payload: seq<byte>, now: int, trusted: bool)
    | Send(key: Key, toKey: bool)
    | Ended(task: nat, ok: bool, ackdata: seq<byte>, recent: bool, payload: seq<byte>, now: int)
    | Expire(entry: PubkeyIndex.Entry)
    | Resend(msg: nat, recent: bool)

  // ------------------------------------------------------------- the program

  ghost function Where(inv: Inventory.State): Keyring.Locator
    requires Inventory.Valid(inv)
  {
    (h: Hash) => Inventory.GetObject(inv, h)
  }

  /** The timestamp in the header of an object, which every object has. */
  function TimeOf(payload: seq<byte>): Option<nat>
  {
    var nonce := GetFixed(payload, 8);
    if nonce.Fail? then None
    else
      var time := GetTimestamp(nonce.rest);
      if time.Fail? then None else Some(time.value)
  }

  /** should_reject */
  ghost predicate ShouldReject(sha: seq<byte> -> seq<byte>, kind: Kind, payload: seq<byte>, age: int)
    requires IsSha512(sha)
  {
    age <= -FUTURE_AGE || age >= MaxAge(kind) || !NetworkAccepts(sha, payload)
  }

  /** new_object_cb */
  function Heard(env: Env, ring: Keyring.World, kind: Kind, payload: seq<byte>, where: Keyring.Locator): Keyring.World
    requires IsSha512(env.sha)
  {
    match kind
    case Pubkey =>
      (match env.pubkey(payload)
       case None => ring
       case Some(p) => Keyring.HandlePubkey(ring, p.0, ObjectHash(env.sha, payload), p.1, where))
    case Msg =>
      (match MsgContent(payload)
       case None => ring
       case Some(content) => Keyring.CheckAcknowledgement(ring, content))
    case Getpubkey => ring
    case Broadcast => ring
  }

  /** The keyring once it has heard of an object, which is in the inventory by then. */
  ghost function Signal(env: Env, s: State, kind: Kind, payload: seq<byte>): Keyring.World
    requires IsSha512(env.sha) && Inventory.Valid(s.inv)
    requires Inventory.Receive(s.inv, ObjectHash(env.sha, payload)).Some?
  {
    var got := Inventory.Receive(s.inv, ObjectHash(env.sha, payload)).value;
    Heard(env, s.ring, kind, payload, Where(Inventory.Accept(got.0, got.1)))
  }

  /** The part of add_object after the object's hash is known. */
  ghost function Take(env: Env, s: State, kind: Kind, payload: seq<byte>, bad: bool, aged: bool): State
    requires IsSha512(env.sha) && Inventory.Valid(s.inv)
  {
    var hash := ObjectHash(env.sha, payload);
    var inv := Inventory.AddObject(s.inv, hash, bad, aged);
    if bad || Inventory.Receive(s.inv, hash).None? then s.(inv := inv)
    else State(s.phase, inv, Signal(env, s, kind, payload))
  }

  /** add_object; objects of the node's own are trusted and not validated. */
  ghost function AddObject(env: Env, s: State, kind: Kind, payload: seq<byte>, now: int, trusted: bool): State
    requires IsSha512(env.sha) && Inventory.Valid(s.inv)
  {
    match TimeOf(payload)
    case None => s
    case Some(time) =>
      var age := now - time;
      Take(env, s, kind, payload, !trusted && ShouldReject(env.sha, kind, payload, age), age >= CACHE_AGE)
  }

  /** What a message's calculation posts, if anything. */
  function Posts(purpose: Keyring.MState): Option<Kind>
  {
    if purpose.CalculatingGetpubkeyPow? then Some(Getpubkey)
    else if purpose.CalculatingMsgPow? then Some(Kind.Msg)
    else None
  }

  /** A message that is posted is encrypted, and so never as short as an acknowledgement. */
  predicate NotAcknowledgement(payload: seq<byte>)
  {
    MsgContent(payload).Some? ==> |MsgContent(payload).value| != ACKDATA_SIZE
  }

  predicate Enabled(s: State, e: Event)
  {
    match e
    case Proceed => true
    case StoredObject(_) => s.phase.LoadingObjects?
    case StoredPubkey(_) => s.phase.LoadingPubkeys?
    case StoredOutgoing(_, _, _, _) => s.phase.LoadingOutgoings?
    case Peer(e) => s.phase.Running? && !e.Load? && !e.Arrive? && PeerKnown(s.inv, e)
    case Arrive(_, _, _, _) => s.phase.Running?
    case Send(_, _) => s.phase.Running?
    case Ended(t, _, _, _, payload, _) =>
      s.phase.Running? && t in s.ring.tasks && (s.ring.tasks[t].purpose.CalculatingMsgPow? ==> NotAcknowledgement(payload))
    case Expire(_) => s.phase.Running?
    case Resend(i, _) => s.phase.Running? && i in s.ring.msgs
  }

  predicate PeerKnown(inv: Inventory.State, e: Inventory.Event)
  {
    match e
    case Advertise(peer, _) => Inventory.OfPeer(peer) in inv.lists
    case Collect(place, _) => place in inv.lists
    case Disconnect(peer) => Inventory.OfPeer(peer) in inv.lists
    case _ => true
  }

  function NextPhase(p: Phase): Phase
  {
    match p
    case LoadingObjects => LoadingPubkeys
    case LoadingPubkeys => LoadingOutgoings
    case LoadingOutgoings => Running
    case Running => Running
  }

  /** A calculation that posts an object does so before its message goes on. */
  ghost function Posted(env: Env, s: State, t: nat, payload: seq<byte>, now: int): State
    requires IsSha512(env.sha) && Inventory.Valid(s.inv) && t in s.ring.tasks
  {
    match Posts(s.ring.tasks[t].purpose)
    case None => s
    case Some(kind) => AddObject(env, s, kind, payload, now, true)
  }

  ghost function RingStep(s: State, e: Keyring.Event): State
    requires Keyring.Enabled(s.ring, e)
  {
    s.(ring := Keyring.Next(s.ring, e))
  }

  ghost function Next(env: Env, s: State, e: Event): State
    requires IsSha512(env.sha) && Safe(s) && Enabled(s, e)
  {
    match e
    case Proceed => s.(phase := NextPhase(s.phase))
    case StoredObject(hash) => s.(inv := Inventory.LoadObject(s.inv, hash))
    case StoredPubkey(payload) => s.(ring := Heard(env, s.ring, Pubkey, payload, Where(s.inv)))
    case StoredOutgoing(key, toKey, ackdata, recent) =>
      RingStep(s, Keyring.Restore(key, toKey, ackdata, Where(s.inv), recent))
    case Peer(e) => s.(inv := Inventory.Next(s.inv, e))
    case Arrive(kind, payload, now, trusted) => AddObject(env, s, kind, payload, now, trusted)
    case Send(key, toKey) => RingStep(s, Keyring.Send(key, toKey))
    case Ended(t, ok, ackdata, recent, payload, now) =>
      PostedLeavesRing(env, s, t, payload, now);
      var s1 := Posted(env, s, t, payload, now);
      RingStep(s1, Keyring.End(t, ok, ackdata, Where(s1.inv), recent))
    case Expire(entry) => RingStep(s, Keyring.Expire(entry))
    case Resend(i, recent) => RingStep(s, Keyring.Resend(i, recent))
  }

  // ------------------------------------------------------------- what is kept

  /** Both parts are as they should be, and there are no messages before the pubkeys have
      been read. */
  ghost predicate Safe(s: State)
  {
    && Inventory.Valid(s.inv) && Keyring.Inv(s.ring)
    && (s.phase.LoadingObjects? || s.phase.LoadingPubkeys? ==> s.ring.msgs == map[])
  }

  lemma PostedLeavesRing(env: Env, s: State, t: nat, payload: seq<byte>, now: int)
    requires IsSha512(env.sha) && Inventory.Valid(s.inv) && t in s.ring.tasks
    requires s.ring.tasks[t].purpose.CalculatingMsgPow? ==> NotAcknowledgement(payload)
    ensures var s1 := Posted(env, s, t, payload, now);
      s1.ring == s.ring && s1.phase == s.phase && Inventory.Valid(s1.inv)
  {
    if NotAcknowledgement(payload) && MsgContent(payload).Some? {
      Keyring.NeverFound(s.ring, 0, MsgContent(payload).value);
    }
  }

  /** What the keyring is told of leaves it in order, if it can get at a pubkey that it is
      told of, or nobody asks for it. */
  lemma HeardKeeps(env: Env, ring: Keyring.World, kind: Kind, payload: seq<byte>, where: Keyring.Locator)
    requires IsSha512(env.sha) && Keyring.Inv(ring)
    requires where(ObjectHash(env.sha, payload)).Nowhere? ==> ring.msgs == map[]
    ensures Keyring.Inv(Heard(env, ring, kind, payload, where))
  {
    if kind.Pubkey? && env.pubkey(payload).Some? {
      var p := env.pubkey(payload).value;
      assert Keyring.Available(ring, p.0, ObjectHash(env.sha, payload), where);
      Keyring.HandlePubkeyKeeps(ring, p.0, ObjectHash(env.sha, payload), p.1, where);
    } else if kind.Msg? && MsgContent(payload).Some? {
      Keyring.AcknowledgementKeeps(ring, MsgContent(payload).value);
    }
  }

  /** An object is in memory when the keyring hears of it. */
  lemma SignalKeeps(env: Env, s: State, kind: Kind, payload: seq<byte>)
    requires IsSha512(env.sha) && Inventory.Valid(s.inv) && Keyring.Inv(s.ring)
    requires Inventory.Receive(s.inv, ObjectHash(env.sha, payload)).Some?
    ensures Keyring.Inv(Signal(env, s, kind, payload))
  {
    var hash := ObjectHash(env.sha, payload);
    var got := Inventory.Receive(s.inv, hash).value;
    Inventory.SignalledInMemory(s.inv, hash);
    HeardKeeps(env, s.ring, kind, payload, Where(Inventory.Accept(got.0, got.1)));
  }

  lemma AddObjectKeeps(env: Env, s: State, kind: Kind, payload: seq<byte>, now: int, trusted: bool)
    requires IsSha512(env.sha) && Safe(s) && s.phase.Running?
    ensures Safe(AddObject(env, s, kind, payload, now, trusted))
  {
    if TimeOf(payload).Some? {
      var age := now - TimeOf(payload).value;
      TakeKeeps(env, s, kind, payload, !trusted && ShouldReject(env.sha, kind, payload, age), age >= CACHE_AGE);
    }
  }

  lemma TakeKeeps(env: Env, s: State, kind: Kind, payload: seq<byte>, bad: bool, aged: bool)
    requires IsSha512(env.sha) && Safe(s) && s.phase.Running?
    ensures Safe(Take(env, s, kind, payload, bad, aged))
  {
    if Inventory.Receive(s.inv, ObjectHash(env.sha, payload)).Some? {
      SignalKeeps(env, s, kind, payload);
    }
  }

  lemma HeardAtStart(env: Env, ring: Keyring.World, payload: seq<byte>, where: Keyring.Locator)
    requires IsSha512(env.sha) && ring.msgs == map[]
    ensures Heard(env, ring, Pubkey, payload, where).msgs == map[]
  {
    if env.pubkey(payload).Some? {
      var p := env.pubkey(payload).value;
      NoOrder(ring.next);
      assert Keyring.HandlePubkey(ring, p.0, ObjectHash(env.sha, payload), p.1, where).msgs == map[];
    }
  }

  lemma NoOrder(n: nat)
    ensures Keyring.Order(map[], n) == []
  {
  }

  lemma RingStepKeeps(s: State, e: Keyring.Event)
    requires Safe(s) && Keyring.Enabled(s.ring, e) && !e.NewPubkey? && (s.phase.LoadingOutgoings? || s.phase.Running?)
    ensures Safe(RingStep(s, e))
  {
    Keyring.NextKeeps(s.ring, e);
  }

  lemma NextKeeps(env: Env, s: State, e: Event)
    requires IsSha512(env.sha) && Safe(s) && Enabled(s, e)
    ensures Safe(Next(env, s, e))
  {
    match e
    case Proceed =>
    case StoredObject(hash) =>
    case StoredPubkey(payload) =>
      HeardKeeps(env, s.ring, Pubkey, payload, Where(s.inv));
      HeardAtStart(env, s.ring, payload, Where(s.inv));
    case StoredOutgoing(key, toKey, ackdata, recent) =>
      RingStepKeeps(s, Keyring.Restore(key, toKey, ackdata, Where(s.inv), recent));
    case Peer(e) =>
    case Arrive(kind, payload, now, trusted) => AddObjectKeeps(env, s, kind, payload, now, trusted);
    case Send(key, toKey) => RingStepKeeps(s, Keyring.Send(key, toKey));
    case Ended(t, ok, ackdata, recent, payload, now) =>
      PostedLeavesRing(env, s, t, payload, now);
      var s1 := Posted(env, s, t, payload, now);
      RingStepKeeps(s1, Keyring.End(t, ok, ackdata, Where(s1.inv), recent));
    case Expire(entry) => RingStepKeeps(s, Keyring.Expire(entry));
    case Resend(i, recent) => RingStepKeeps(s, Keyring.Resend(i, recent));
  }

  ghost predicate Reaches(env: Env, s: State, events: seq<Event>, last: State)
    requires IsSha512(env.sha) && Safe(s)
    decreases |events|
  {
    if events == [] then last == s
    else
      Enabled(s, events[0]) &&
      (NextKeeps(env, s, events[0]);
       Reaches(env, Next(env, s, events[0]), events[1..], last))
  }

  lemma {:induction false} RunKeeps(env: Env, s: State, events: seq<Event>, last: State)
    requires IsSha512(env.sha) && Safe(s) && Reaches(env, s, events, last)
    ensures Safe(last)
    decreases |events|
  {
    if events != [] {
      NextKeeps(env, s, events[0]);
      RunKeeps(env, Next(env, s, events[0]), events[1..], last);
    }
  }

  /** Nothing is known yet. */
  ghost function Begin(): (s: State)
    ensures Safe(s)
  {
    Keyring.StartInv();
    State(LoadingObjects, Inventory.Begin(), Keyring.START)
  }

  /** In every run of the network and the keyring, from startup on: every message has
      exactly the work its state calls for, even when a pubkey arrives while it calculates
      a request for it, because the network has the object before it tells of it; and
      nothing absent or freed is used. */
  lemma EveryRunSafe(env: Env, events: seq<Event>, last: State)
    requires IsSha512(env.sha) && Reaches(env, Begin(), events, last)
    ensures Safe(last)
  {
    RunKeeps(env, Begin(), events, last);
  }

  /** How long an object is kept by the network, in seconds: a pubkey 28 days, any other two
      and a half. */
  function Lifetime(kind: Kind): int
  {
    if kind.Pubkey? then 28 * 24 * 60 * 60 else 216000
  }

  /** The work in front of an object is too little: its value is above the floor of
      2^64 / ((length + 14000) * 320). */
  ghost predicate TooLittleWork(sha: seq<byte> -> seq<byte>, payload: seq<byte>)
    requires IsSha512(sha) && |payload| >= 8
  {
    FromBe(sha(sha(payload[..8] + sha(payload[8..])))[..8]) > TWO_64 / ((|payload| + 14000) * 320)
  }

  lemma TimeHasSize(payload: seq<byte>)
    ensures TimeOf(payload).Some? ==> |payload| >= 12
  {
  }

  lemma RejectIs(sha: seq<byte> -> seq<byte>, kind: Kind, payload: seq<byte>, age: int)
    requires IsSha512(sha) && 8 <= |payload| < TWO_32
    ensures ShouldReject(sha, kind, payload, age) <==>
      age <= -1800 || age >= Lifetime(kind) || TooLittleWork(sha, payload)
  {
    MinimumIs(sha, payload);
  }

  /** What the network and the keyring make of an object that they take. */
  lemma TakeDecides(env: Env, s: State, kind: Kind, payload: seq<byte>, bad: bool, aged: bool)
    requires IsSha512(env.sha) && Inventory.Valid(s.inv)
    ensures var s', hash := Take(env, s, kind, payload, bad, aged), ObjectHash(env.sha, payload);
      && Inventory.Valid(s'.inv) && s'.phase == s.phase
      && (!Inventory.IsNew(s.inv, hash) ==> s' == s)
      && (Inventory.IsNew(s.inv, hash) ==>
          Inventory.Lookup(s'.inv, hash) == Some(if bad then Inventory.Rejected else Inventory.Accepted(!aged)))
      && (bad ==> s'.ring == s.ring)
  {
    var hash := ObjectHash(env.sha, payload);
    Inventory.ReceiveEffect(s.inv, hash, hash);
    Inventory.ArriveEffect(s.inv, hash, bad, aged, hash);
  }

  /** An object that a peer sends, which the network does not have: it is rejected, and the
      keyring is not told, if and only if it is dated half an hour or more ahead, or too
      old, or has too little work in front of it; otherwise it is accepted, and stays in
      memory if and only if it is less than ten minutes old. */
  lemma ArriveDecides(env: Env, s: State, kind: Kind, payload: seq<byte>, now: int, t: nat)
    requires IsSha512(env.sha) && Safe(s) && s.phase.Running? && |payload| < TWO_32
    requires TimeOf(payload) == Some(t) && Inventory.IsNew(s.inv, ObjectHash(env.sha, payload))
    ensures |payload| >= 8
    ensures
      var s' := Next(env, s, Arrive(kind, payload, now, false));
      var bad := now - t <= -1800 || now - t >= Lifetime(kind) || TooLittleWork(env.sha, payload);
      && Inventory.Valid(s'.inv) && (bad ==> s'.ring == s.ring)
      && Inventory.Lookup(s'.inv, ObjectHash(env.sha, payload))
         == Some(if bad then Inventory.Rejected else Inventory.Accepted(now - t < 600))
  {
    TimeHasSize(payload);
    RejectIs(env.sha, kind, payload, now - t);
    ArriveTakes(env, s, kind, payload, now, false, t);
    TakeDecides(env, s, kind, payload, ShouldReject(env.sha, kind, payload, now - t), now - t >= CACHE_AGE);
  }

  lemma AddObjectTakes(env: Env, s: State, kind: Kind, payload: seq<byte>, now: int, trusted: bool, t: nat)
    requires IsSha512(env.sha) && Inventory.Valid(s.inv) && TimeOf(payload) == Some(t)
    ensures AddObject(env, s, kind, payload, now, trusted) ==
      Take(env, s, kind, payload, !trusted && ShouldReject(env.sha, kind, payload, now - t), now - t >= CACHE_AGE)
  {
  }

  lemma NextArrive(env: Env, s: State, kind: Kind, payload: seq<byte>, now: int, trusted: bool)
    requires IsSha512(env.sha) && Safe(s) && s.phase.Running?
    ensures Next(env, s, Arrive(kind, payload, now, trusted)) == AddObject(env, s, kind, payload, now, trusted)
  {
  }

  lemma ArriveTakes(env: Env, s: State, kind: Kind, payload: seq<byte>, now: int, trusted: bool, t: nat)
    requires IsSha512(env.sha) && Safe(s) && s.phase.Running? && TimeOf(payload) == Some(t)
    ensures Next(env, s, Arrive(kind, payload, now, trusted)) ==
      Take(env, s, kind, payload, !trusted && ShouldReject(env.sha, kind, payload, now - t), now - t >= CACHE_AGE)
  {
    NextArrive(env, s, kind, payload, now, trusted);
    AddObjectTakes(env, s, kind, payload, now, trusted, t);
  }

  /** An object of the node's own is always accepted; one that the network has changes
      nothing, and neither does one without a header. */
  lemma ArriveOtherwise(env: Env, s: State, kind: Kind, payload: seq<byte>, now: int, trusted: bool)
    requires IsSha512(env.sha) && Safe(s) && s.phase.Running?
    ensures
      var s', hash := Next(env, s, Arrive(kind, payload, now, trusted)), ObjectHash(env.sha, payload);
      && Inventory.Valid(s'.inv)
      && (TimeOf(payload).None? || !Inventory.IsNew(s.inv, hash) ==> s' == s)
      && (TimeOf(payload).Some? && Inventory.IsNew(s.inv, hash) && trusted ==>
          Inventory.Lookup(s'.inv, hash) == Some(Inventory.Accepted(now - TimeOf(payload).value < 600)))
  {
    if TimeOf(payload).Some? {
      var t := TimeOf(payload).value;
      ArriveTakes(env, s, kind, payload, now, trusted, t);
      TakeDecides(env, s, kind, payload, !trusted && ShouldReject(env.sha, kind, payload, now - t), now - t >= CACHE_AGE);
    } else {
      assert Next(env, s, Arrive(kind, payload, now, trusted)) == s;
    }
  }

  /** When the work for a request or a message is done the object is posted, if it is new,
      before the message goes on; the end of any other work posts nothing. */
  lemma EndedPosts(env: Env, s: State, t: nat, ok: bool, ackdata: seq<byte>, recent: bool, payload: seq<byte>, now: int)
    requires IsSha512(env.sha) && Safe(s) && Enabled(s, Ended(t, ok, ackdata, recent, payload, now))
    ensures
      var s', hash := Next(env, s, Ended(t, ok, ackdata, recent, payload, now)), ObjectHash(env.sha, payload);
      var posts := s.ring.tasks[t].purpose.CalculatingGetpubkeyPow? || s.ring.tasks[t].purpose.CalculatingMsgPow?;
      && Inventory.Valid(s'.inv)
      && (posts && TimeOf(payload).Some? && Inventory.IsNew(s.inv, hash) ==>
          Inventory.Lookup(s'.inv, hash) == Some(Inventory.Accepted(now - TimeOf(payload).value < 600)))
      && (!posts || TimeOf(payload).None? || !Inventory.IsNew(s.inv, hash) ==> s'.inv == s.inv)
      && s'.ring == Keyring.Next(s.ring, Keyring.End(t, ok, ackdata, Where(s'.inv), recent))
  {
    PostedLeavesRing(env, s, t, payload, now);
    var purpose := s.ring.tasks[t].purpose;
    if TimeOf(payload).Some? && (purpose.CalculatingGetpubkeyPow? || purpose.CalculatingMsgPow?) {
      var kind := Posts(purpose).value;
      TakeDecides(env, s, kind, payload, false, now - TimeOf(payload).value >= CACHE_AGE);
    }
  }

  /** At startup an object in the store can be had from disk. */
  lemma StoredIsThere(env: Env, s: State, hash: Hash)
    requires IsSha512(env.sha) && Safe(s) && s.phase.LoadingObjects? && hash !in s.inv.index
    ensures var inv := Next(env, s, StoredObject(hash)).inv;
      Inventory.Valid(inv) && Inventory.GetObject(inv, hash) == Inventory.OnDisk
  {
    Inventory.LoadEffect(s.inv, hash, hash);
  }

  /** A pubkey among them is there for messages to come, with those for its key before it. */
  lemma StoredPubkeyIsThere(env: Env, s: State, payload: seq<byte>)
    requires IsSha512(env.sha) && Safe(s) && s.phase.LoadingPubkeys? && env.pubkey(payload).Some?
    ensures var key, list := env.pubkey(payload).value.0, Next(env, s, StoredPubkey(payload)).ring.list;
      && (exists e :: e in list && e.key == key && e.hash == ObjectHash(env.sha, payload))
      && (forall e :: e in s.ring.list && e.key == key ==> e in list)
  {
    StoredPubkeyAdds(s.ring, env.pubkey(payload).value, ObjectHash(env.sha, payload), Where(s.inv));
  }

  /** A list whose group of a key has got a new entry in it. */
  lemma GroupGrown(list: seq<PubkeyIndex.Entry>, list': seq<PubkeyIndex.Entry>, e: PubkeyIndex.Entry)
    requires var g := PubkeyIndex.Group(list, e.key);
      PubkeyIndex.Group(list', e.key) == if g == [] then [e] else [g[0], e] + g[1..]
    ensures e in list' && forall x :: x in list && x.key == e.key ==> x in list'
  {
    var g := PubkeyIndex.Group(list, e.key);
    PubkeyIndex.GroupMembers(list', e.key, e);
    assert g != [] ==> ([g[0], e] + g[1..])[1] == e;
    forall x | x in list && x.key == e.key ensures x in list' {
      PubkeyIndex.GroupMembers(list, e.key, x);
      PubkeyIndex.GroupMembers(list', e.key, x);
      assert g == [g[0]] + g[1..];
    }
  }

  lemma StoredPubkeyAdds(ring: Keyring.World, found: (Key, int), hash: Hash, where: Keyring.Locator)
    ensures var list := Keyring.HandlePubkey(ring, found.0, hash, found.1, where).list;
      && (exists e :: e in list && e.key == found.0 && e.hash == hash)
      && (forall e :: e in ring.list && e.key == found.0 ==> e in list)
  {
    Keyring.HandlePubkeyAdds(ring, found.0, hash, found.1, where, found.0, 0);
    GroupGrown(ring.list, Keyring.HandlePubkey(ring, found.0, hash, found.1, where).list,
               PubkeyIndex.Entry(ring.next, found.0, hash, found.1));
  }

  /** A pubkey that arrives, for the first time and acceptable, is tried at once by every
      message that waits for it or calculates a request for it. */
  lemma PubkeyIsTried(env: Env, s: State, payload: seq<byte>, aged: bool, i: nat)
    requires IsSha512(env.sha) && Safe(s) && env.pubkey(payload).Some?
    requires Inventory.IsNew(s.inv, ObjectHash(env.sha, payload))
    requires i in s.ring.msgs && s.ring.msgs[i].key == env.pubkey(payload).value.0
    requires s.ring.msgs[i].state.CalculatingGetpubkeyPow? || s.ring.msgs[i].state.AwaitingPubkey?
    ensures var m := Take(env, s, Pubkey, payload, false, aged).ring.msgs;
      && i in m && m[i].state.TryingBlob? && m[i].trying.Some?
      && m[i].trying.value.hash == ObjectHash(env.sha, payload)
  {
    var hash := ObjectHash(env.sha, payload);
    Inventory.ReceiveEffect(s.inv, hash, hash);
    SignalTries(env, s, payload, i);
  }

  lemma SignalTries(env: Env, s: State, payload: seq<byte>, i: nat)
    requires IsSha512(env.sha) && Inventory.Valid(s.inv) && Keyring.Inv(s.ring) && env.pubkey(payload).Some?
    requires Inventory.Receive(s.inv, ObjectHash(env.sha, payload)).Some?
    requires i in s.ring.msgs && s.ring.msgs[i].key == env.pubkey(payload).value.0
    requires s.ring.msgs[i].state.CalculatingGetpubkeyPow? || s.ring.msgs[i].state.AwaitingPubkey?
    ensures var m := Signal(env, s, Pubkey, payload).msgs;
      && i in m && m[i].state.TryingBlob? && m[i].trying.Some?
      && m[i].trying.value.hash == ObjectHash(env.sha, payload)
  {
    var hash, p := ObjectHash(env.sha, payload), env.pubkey(payload).value;
    Inventory.SignalledInMemory(s.inv, hash);
    var got := Inventory.Receive(s.inv, hash).value;
    var where := Where(Inventory.Accept(got.0, got.1));
    assert Signal(env, s, Pubkey, payload) == Keyring.HandlePubkey(s.ring, p.0, hash, p.1, where);
    Keyring.HandlePubkeyTries(s.ring, p.0, hash, p.1, where, i);
  }

  // ------------------------------------------------------------ acknowledgements

  lemma AckTime(nonce: nat, timestamp: nat, stream: nat, ackdata: seq<byte>)
    requires nonce < TWO_64 && timestamp < TWO_32
    ensures TimeOf(AckPayload(nonce, timestamp, stream, ackdata)) == Some(timestamp)
  {
    var tail := AddVarInt(stream) + ackdata;
    assert AckRest(timestamp, stream, ackdata) == Be(timestamp, 8) + tail;
    Pow256Values();
    FixedRoundTrip(nonce, 8, AckRest(timestamp, stream, ackdata));
    TimestampRoundTrip(timestamp, tail);
  }

  /** An acknowledgement that reaches the sender in time, and for the first time, ends the
      message it was made for and no other. */
  lemma AckArrives(env: Env, s: State, i: nat, payload: seq<byte>, timestamp: nat, now: int)
    requires IsSha512(env.sha) && Safe(s) && s.phase.Running? && i in s.ring.msgs
    requires !s.ring.msgs[i].state.GeneratingAckdata? && |s.ring.msgs[i].ackdata| == ACKDATA_SIZE
    requires Keyring.DistinctAckdata(s.ring.msgs)
    requires TimeOf(payload) == Some(timestamp) && -FUTURE_AGE < now - timestamp < MaxAge(Kind.Msg)
    requires NetworkAccepts(env.sha, payload) && MsgContent(payload) == Some(s.ring.msgs[i].ackdata)
    requires Inventory.IsNew(s.inv, ObjectHash(env.sha, payload))
    ensures AddObject(env, s, Kind.Msg, payload, now, false).ring.msgs == s.ring.msgs - {i}
  {
    var ackdata := s.ring.msgs[i].ackdata;
    AckAccepted(env, s, payload, timestamp, now);
    AckTaken(env, s, payload, ackdata, now - timestamp >= CACHE_AGE);
    AckEnds(s.ring, i);
  }

  lemma AckEnds(ring: Keyring.World, i: nat)
    requires Keyring.Inv(ring) && Keyring.DistinctAckdata(ring.msgs) && i in ring.msgs
    requires !ring.msgs[i].state.GeneratingAckdata? && |ring.msgs[i].ackdata| == ACKDATA_SIZE
    ensures Keyring.CheckAcknowledgement(ring, ring.msgs[i].ackdata).msgs == ring.msgs - {i}
  {
    Keyring.AcknowledgedExactly(ring, ring.msgs[i].ackdata, i);
  }

  lemma AckAccepted(env: Env, s: State, payload: seq<byte>, timestamp: nat, now: int)
    requires IsSha512(env.sha) && Inventory.Valid(s.inv)
    requires TimeOf(payload) == Some(timestamp) && -FUTURE_AGE < now - timestamp < MaxAge(Kind.Msg)
    requires NetworkAccepts(env.sha, payload)
    ensures AddObject(env, s, Kind.Msg, payload, now, false)
         == Take(env, s, Kind.Msg, payload, false, now - timestamp >= CACHE_AGE)
  {
    var age := now - timestamp;
    assert !ShouldReject(env.sha, Kind.Msg, payload, age);
  }

  lemma AckTaken(env: Env, s: State, payload: seq<byte>, content: seq<byte>, aged: bool)
    requires IsSha512(env.sha) && Inventory.Valid(s.inv) && MsgContent(payload) == Some(content)
    requires Inventory.IsNew(s.inv, ObjectHash(env.sha, payload))
    ensures Take(env, s, Kind.Msg, payload, false, aged).ring == Keyring.CheckAcknowledgement(s.ring, content)
  {
    var hash := ObjectHash(env.sha, payload);
    Inventory.ReceiveEffect(s.inv, hash, hash);
    AckHeard(env, s, payload, content);
  }

  lemma AckHeard(env: Env, s: State, payload: seq<byte>, content: seq<byte>)
    requires IsSha512(env.sha) && Inventory.Valid(s.inv) && MsgContent(payload) == Some(content)
    requires Inventory.Receive(s.inv, ObjectHash(env.sha, payload)).Some?
    ensures Signal(env, s, Kind.Msg, payload) == Keyring.CheckAcknowledgement(s.ring, content)
  {
  }

  /** The whole way of an acknowledgement: the sender builds it into its message, completes
      it when its work is done, and encrypts and signs the message; the recipient finds it
      there and posts it; and when it comes back, the sender's message is ended, and no
      other. */
  lemma AcknowledgementReturns(env: Env, s: State, i: nat, p: Plain, checksum: seq<byte>, junk: seq<byte>,
                               nonce: nat, timestamp: nat, sig: seq<byte>, now: int)
    requires IsSha512(env.sha) && Safe(s) && s.phase.Running? && i in s.ring.msgs
    requires !s.ring.msgs[i].state.GeneratingAckdata? && |s.ring.msgs[i].ackdata| == ACKDATA_SIZE
    requires Keyring.DistinctAckdata(s.ring.msgs)
    requires Sized(p) && |checksum| == 4 && |junk| == 8
    requires nonce < TWO_64 && timestamp < TWO_32 && |p.content| + |sig| + 600 < TWO_31
    requires SolvesMinimum(env.sha, AckRest(timestamp, p.stream, s.ring.msgs[i].ackdata), nonce)
    requires -FUTURE_AGE < now - timestamp < MaxAge(Kind.Msg)
    ensures |AckRest(timestamp, p.stream, s.ring.msgs[i].ackdata)| <= 48
    ensures
      var rest := AckRest(timestamp, p.stream, s.ring.msgs[i].ackdata);
      var received := GetDecryptedMsg(Signed(SentMessage(env.sha, p, checksum, junk, rest, nonce), sig));
      received.Some? &&
      match SendAcknowledgement(received.value.ack)
      case Object(name, payload) =>
        name == MSG_NAME &&
        (Inventory.IsNew(s.inv, ObjectHash(env.sha, payload)) ==>
          Next(env, s, Arrive(Kind.Msg, payload, now, false)).ring.msgs == s.ring.msgs - {i})
      case _ => false
  {
    var ackdata := s.ring.msgs[i].ackdata;
    AckJourney(env.sha, p, checksum, junk, nonce, timestamp, ackdata, sig);
    AckTime(nonce, timestamp, p.stream, ackdata);
    var payload := AckPayload(nonce, timestamp, p.stream, ackdata);
    if Inventory.IsNew(s.inv, ObjectHash(env.sha, payload)) {
      AckArrives(env, s, i, payload, timestamp, now);
      assert Next(env, s, Arrive(Kind.Msg, payload, now, false)) == AddObject(env, s, Kind.Msg, payload, now, false);
    }
  }

  // ------------------------------------------------------ ackdata over a run

  /** The ackdata that a step hands out, if any, are not those of another message. */
  ghost predicate Fresh(s: State, e: Event)
  {
    match e
    case StoredOutgoing(_, _, ackdata, _) => AckdataRuns.NotTaken(s.ring.msgs, ackdata)
    case Ended(t, _, ackdata, _, _, _) =>
      t in s.ring.tasks && s.ring.tasks[t].purpose.GeneratingAckdata? ==> AckdataRuns.NotTaken(s.ring.msgs, ackdata)
    case _ => true
  }

  ghost predicate AllFresh(env: Env, s: State, events: seq<Event>)
    requires IsSha512(env.sha) && Safe(s)
    decreases |events|
  {
    events != [] && Enabled(s, events[0]) ==>
      && Fresh(s, events[0])
      && (NextKeeps(env, s, events[0]);
          AllFresh(env, Next(env, s, events[0]), events[1..]))
  }

  lemma HeardDistinct(env: Env, ring: Keyring.World, kind: Kind, payload: seq<byte>, where: Keyring.Locator)
    requires IsSha512(env.sha) && Keyring.Inv(ring) && Keyring.DistinctAckdata(ring.msgs)
    ensures Keyring.DistinctAckdata(Heard(env, ring, kind, payload, where).msgs)
  {
    if kind.Pubkey? && env.pubkey(payload).Some? {
      var p := env.pubkey(payload).value;
      AckdataRuns.NextDistinct(ring, Keyring.NewPubkey(p.0, ObjectHash(env.sha, payload), p.1, where));
    } else if kind.Msg? && MsgContent(payload).Some? {
      AckdataRuns.NextDistinct(ring, Keyring.Received(MsgContent(payload).value));
    }
  }

  lemma TakeDistinct(env: Env, s: State, kind: Kind, payload: seq<byte>, bad: bool, aged: bool)
    requires IsSha512(env.sha) && Inventory.Valid(s.inv) && Keyring.Inv(s.ring) && Keyring.DistinctAckdata(s.ring.msgs)
    ensures Keyring.DistinctAckdata(Take(env, s, kind, payload, bad, aged).ring.msgs)
  {
    var got := Inventory.Receive(s.inv, ObjectHash(env.sha, payload));
    if got.Some? {
      HeardDistinct(env, s.ring, kind, payload, Where(Inventory.Accept(got.value.0, got.value.1)));
    }
  }

  lemma AddObjectDistinct(env: Env, s: State, kind: Kind, payload: seq<byte>, now: int, trusted: bool)
    requires IsSha512(env.sha) && Inventory.Valid(s.inv) && Keyring.Inv(s.ring) && Keyring.DistinctAckdata(s.ring.msgs)
    ensures Keyring.DistinctAckdata(AddObject(env, s, kind, payload, now, trusted).ring.msgs)
  {
    if TimeOf(payload).Some? {
      var age := now - TimeOf(payload).value;
      TakeDistinct(env, s, kind, payload, !trusted && ShouldReject(env.sha, kind, payload, age), age >= CACHE_AGE);
    }
  }

  lemma NextDistinct(env: Env, s: State, e: Event)
    requires IsSha512(env.sha) && Safe(s) && Enabled(s, e) && Fresh(s, e) && Keyring.DistinctAckdata(s.ring.msgs)
    ensures Keyring.DistinctAckdata(Next(env, s, e).ring.msgs)
  {
    match e
    case Proceed =>
    case StoredObject(hash) =>
    case StoredPubkey(payload) => HeardDistinct(env, s.ring, Pubkey, payload, Where(s.inv));
    case StoredOutgoing(key, toKey, ackdata, recent) =>
      AckdataRuns.NextDistinct(s.ring, Keyring.Restore(key, toKey, ackdata, Where(s.inv), recent));
    case Peer(e) =>
    case Arrive(kind, payload, now, trusted) => AddObjectDistinct(env, s, kind, payload, now, trusted);
    case Send(key, toKey) => AckdataRuns.NextDistinct(s.ring, Keyring.Send(key, toKey));
    case Ended(t, ok, ackdata, recent, payload, now) =>
      PostedLeavesRing(env, s, t, payload, now);
      var s1 := Posted(env, s, t, payload, now);
      AckdataRuns.NextDistinct(s1.ring, Keyring.End(t, ok, ackdata, Where(s1.inv), recent));
    case Expire(entry) => AckdataRuns.NextDistinct(s.ring, Keyring.Expire(entry));
    case Resend(i, recent) => AckdataRuns.NextDistinct(s.ring, Keyring.Resend(i, recent));
  }

  lemma {:induction false} RunDistinct(env: Env, s: State, events: seq<Event>, last: State)
    requires IsSha512(env.sha) && Safe(s) && Reaches(env, s, events, last) && AllFresh(env, s, events)
    requires Keyring.DistinctAckdata(s.ring.msgs)
    ensures Safe(last) && Keyring.DistinctAckdata(last.ring.msgs)
    decreases |events|
  {
    if events != [] {
      NextKeeps(env, s, events[0]);
      NextDistinct(env, s, events[0]);
      RunDistinct(env, Next(env, s, events[0]), events[1..], last);
    }
  }

  /** In every run in which ackdata are new when they are handed out, an acknowledgement
      that comes back for the first time ends the message it belongs to and no other. */
  lemma EveryAcknowledgementReturns(env: Env, events: seq<Event>, s: State, i: nat, payload: seq<byte>, timestamp: nat,
                                    now: int)
    requires IsSha512(env.sha) && Reaches(env, Begin(), events, s) && AllFresh(env, Begin(), events)
    requires s.phase.Running? && i in s.ring.msgs && !s.ring.msgs[i].state.GeneratingAckdata?
    requires |s.ring.msgs[i].ackdata| == ACKDATA_SIZE
    requires TimeOf(payload) == Some(timestamp) && -FUTURE_AGE < now - timestamp < MaxAge(Kind.Msg)
    requires NetworkAccepts(env.sha, payload) && MsgContent(payload) == Some(s.ring.msgs[i].ackdata)
    ensures Safe(s)
    ensures Inventory.IsNew(s.inv, ObjectHash(env.sha, payload)) ==>
      AddObject(env, s, Kind.Msg, payload, now, false).ring.msgs == s.ring.msgs - {i}
  {
    RunDistinct(env, Begin(), events, s);
    if Inventory.IsNew(s.inv, ObjectHash(env.sha, payload)) {
      AckArrives(env, s, i, payload, timestamp, now);
    }
  }
}
