/** The objects a peer has asked for: those at hand wait in one queue, those on disk in
    another, of which only one is being loaded at any time. */
module SendQueue {
  import opened Bytes

  type Hash = seq<byte>
  type Blob = seq<byte>

  /** How an object is framed as a command. */
  type Frame = Blob -> seq<byte>

  ghost predicate NotEmpty(frame: Frame)
  {
    forall b :: frame(b) != []
  }

  /** An entry of either queue; `id` tells requests apart and `direct` those whose object
      was at hand. */
  datatype Request = Request(id: nat, hash: Hash, direct: bool)
  datatype Ready = Ready(request: Request, blob: Blob)

  /** What has been put into the output buffer. */
  datatype Item = Object(ready: Ready) | Other(octets: seq<byte>)

  datatype State = State(
    outBuf: seq<byte>,
    ready: seq<Ready>,
    toLoad: seq<Request>,
    loading: Option<Hash>,
    pollOut: bool,
    written: seq<byte>,
    log: seq<Item>)

  const START := State([], [], [], None, false, [], [])

  const BATCH: nat := 1024

  predicate ReadyToWrite(s: State)
  {
    s.outBuf != [] || s.ready != []
  }

  function UpdatePollFlags(s: State): State
  {
    s.(pollOut := ReadyToWrite(s))
  }

  function MaybeQueueLoad(s: State): State
  {
    if s.loading.Some? || s.ready != [] || s.toLoad == [] then s
    else s.(loading := Some(s.toLoad[0].hash))
  }

  /** ntb_connection_send_blob */
  function SendBlob(s: State, r: Request, blob: Option<Blob>): State
  {
    if blob.Some? then UpdatePollFlags(s.(ready := s.ready + [Ready(r, blob.value)]))
    else MaybeQueueLoad(s.(toLoad := s.toLoad + [r]))
  }

  /** load_cb: the object goes to the first entry, wherever it came from. */
  function LoadDone(s: State, blob: Blob): State
    requires s.toLoad != []
  {
    UpdatePollFlags(s.(toLoad := s.toLoad[1..], ready := s.ready + [Ready(s.toLoad[0], blob)], loading := None))
  }

  function FrameFirst(frame: Frame, s: State): State
    requires s.ready != []
  {
    MaybeQueueLoad(s.(outBuf := s.outBuf + frame(s.ready[0].blob), ready := s.ready[1..], log := s.log + [Object(s.ready[0])]))
  }

  /** add_ready_objects */
  function AddReady(frame: Frame, s: State): State
    decreases |s.ready|
  {
    if |s.outBuf| < BATCH && s.ready != [] then AddReady(frame, FrameFirst(frame, s)) else s
  }

  /** handle_write, with how much the socket took, if it took anything. */
  function HandleWrite(frame: Frame, s: State, wrote: Option<nat>): State
    requires wrote.Some? ==> wrote.value <= |AddReady(frame, s).outBuf|
  {
    var t := AddReady(frame, s);
    if wrote.None? then t
    else UpdatePollFlags(t.(outBuf := t.outBuf[wrote.value..], written := t.written + t.outBuf[..wrote.value]))
  }

  /** Any other command. */
  function SendOther(s: State, octets: seq<byte>): State
  {
    UpdatePollFlags(s.(outBuf := s.outBuf + octets, log := s.log + [Other(octets)]))
  }

  // --------------------------------------------------------------- every run

  datatype Event =
    | Send(hash: Hash, blob: Option<Blob>)
    | Load(loaded: Blob)
    | Write(wrote: Option<nat>)
    | Command(octets: seq<byte>)

  /** The requests made so far are counted to name them. */
  datatype World = World(s: State, requests: seq<Request>)

  const BEGIN := World(START, [])

  /** Loads end only when one is under way, and the socket is written to only when
      writing was polled for and takes no more than there is. */
  predicate Enabled(frame: Frame, w: World, e: Event)
  {
    match e
    case Send(_, _) => true
    case Load(_) => w.s.loading.Some?
    case Write(wrote) => w.s.pollOut && (wrote.Some? ==> wrote.value <= |AddReady(frame, w.s).outBuf|)
    case Command(_) => true
  }

  function Next(frame: Frame, w: World, e: Event): World
  {
    if !Enabled(frame, w, e) then w
    else
      match e
      case Send(hash, blob) =>
        var r := Request(|w.requests|, hash, blob.Some?);
        World(SendBlob(w.s, r, blob), w.requests + [r])
      case Load(blob) => if w.s.toLoad == [] then w else w.(s := LoadDone(w.s, blob))
      case Write(wrote) => w.(s := HandleWrite(frame, w.s, wrote))
      case Command(octets) => w.(s := SendOther(w.s, octets))
  }

  function Run(frame: Frame, w: World, events: seq<Event>): World
    decreases |events|
  {
    if events == [] then w else Run(frame, Next(frame, w, events[0]), events[1..])
  }

  /** The requests of one kind, in order. */
  function Only(direct: bool, rs: seq<Request>): seq<Request>
  {
    if rs == [] then []
    else (if rs[0].direct == direct then [rs[0]] else []) + Only(direct, rs[1..])
  }

  function Requests(rs: seq<Ready>): (r: seq<Request>)
    ensures |r| == |rs|
  {
    seq(|rs|, i requires 0 <= i < |rs| => rs[i].request)
  }

  function RequestOf(item: Item): seq<Request>
  {
    if item.Object? then [item.ready.request] else []
  }

  function TextOf(frame: Frame, item: Item): seq<byte>
  {
    if item.Object? then frame(item.ready.blob) else item.octets
  }

  /** The requests whose objects have been framed. */
  function Framed(log: seq<Item>): seq<Request>
  {
    if log == [] then [] else RequestOf(log[0]) + Framed(log[1..])
  }

  function Octets(frame: Frame, log: seq<Item>): seq<byte>
  {
    if log == [] then [] else TextOf(frame, log[0]) + Octets(frame, log[1..])
  }

  /** A load is under way only for the first entry, and there is one under way or an
      object ready whenever something is to be loaded. */
  predicate Progress(s: State)
  {
    && (s.loading.Some? ==> s.toLoad != [] && s.loading.value == s.toLoad[0].hash)
    && (s.toLoad != [] ==> s.loading.Some? || s.ready != [])
  }

  /** Writing is polled for exactly when there is something to write. */
  predicate Polled(s: State)
  {
    s.pollOut <==> ReadyToWrite(s)
  }

  /** Every octet ever put into the buffer was written or is still there. */
  ghost predicate OctetsKept(frame: Frame, s: State)
  {
    s.written + s.outBuf == Octets(frame, s.log)
  }

  /** Objects at hand are framed or still ready, in the order they were asked for; those
      loaded are framed, ready or still to be loaded, in that order too. */
  ghost predicate RequestsKept(s: State, requests: seq<Request>)
  {
    Accounted(Done(s), s.toLoad, requests)
  }

  function Done(s: State): seq<Request>
  {
    Framed(s.log) + Requests(s.ready)
  }

  ghost predicate Accounted(done: seq<Request>, toLoad: seq<Request>, requests: seq<Request>)
  {
    && Only(true, requests) == Only(true, done)
    && Only(false, requests) == Only(false, done) + toLoad
    && (forall r :: r in toLoad ==> !r.direct)
  }

  ghost predicate Inv(frame: Frame, w: World)
  {
    Progress(w.s) && Polled(w.s) && OctetsKept(frame, w.s) && RequestsKept(w.s, w.requests)
  }

  // ------------------------------------------------------------------ lemmas

  lemma {:induction false} OnlyAppend(direct: bool, a: seq<Request>, b: seq<Request>)
    ensures Only(direct, a + b) == Only(direct, a) + Only(direct, b)
    decreases |a|
  {
    if a == [] {
      assert a + b == b;
    } else {
      OnlyAppend(direct, a[1..], b);
      assert (a + b)[1..] == a[1..] + b;
      var first := if a[0].direct == direct then [a[0]] else [];
      assert first + (Only(direct, a[1..]) + Only(direct, b)) == first + Only(direct, a[1..]) + Only(direct, b);
    }
  }

  lemma OnlyOne(direct: bool, a: seq<Request>, r: Request)
    ensures Only(direct, a + [r]) == Only(direct, a) + (if r.direct == direct then [r] else [])
  {
    OnlyAppend(direct, a, [r]);
    assert Only(direct, [r]) == (if r.direct == direct then [r] else []) + Only(direct, []);
  }

  lemma {:induction false} FramedAppend(log: seq<Item>, item: Item)
    ensures Framed(log + [item]) == Framed(log) + RequestOf(item)
    decreases |log|
  {
    var last := RequestOf(item);
    if log == [] {
      assert log + [item] == [item] && [item][1..] == [];
      assert last + [] == last && [] + last == last;
    } else {
      FramedAppend(log[1..], item);
      assert (log + [item])[1..] == log[1..] + [item];
      assert RequestOf(log[0]) + (Framed(log[1..]) + last) == RequestOf(log[0]) + Framed(log[1..]) + last;
    }
  }

  lemma {:induction false} OctetsAppend(frame: Frame, log: seq<Item>, item: Item)
    ensures Octets(frame, log + [item]) == Octets(frame, log) + TextOf(frame, item)
    decreases |log|
  {
    var last := TextOf(frame, item);
    if log == [] {
      assert log + [item] == [item] && [item][1..] == [];
      assert last + [] == last && [] + last == last;
    } else {
      OctetsAppend(frame, log[1..], item);
      assert (log + [item])[1..] == log[1..] + [item];
      var first := TextOf(frame, log[0]);
      assert first + (Octets(frame, log[1..]) + last) == first + Octets(frame, log[1..]) + last;
    }
  }

  lemma OctetsMore(frame: Frame, written: seq<byte>, outBuf: seq<byte>, log: seq<Item>, item: Item)
    requires written + outBuf == Octets(frame, log)
    ensures written + (outBuf + TextOf(frame, item)) == Octets(frame, log + [item])
  {
    OctetsAppend(frame, log, item);
    assert written + (outBuf + TextOf(frame, item)) == written + outBuf + TextOf(frame, item);
  }

  /** The parts of the invariant that hold even in the middle of an operation. */
  ghost predicate Kept(frame: Frame, s: State, requests: seq<Request>)
  {
    OctetsKept(frame, s) && RequestsKept(s, requests)
  }

  lemma AccountDirect(done: seq<Request>, toLoad: seq<Request>, requests: seq<Request>, r: Request)
    requires Accounted(done, toLoad, requests) && r.direct
    ensures Accounted(done + [r], toLoad, requests + [r])
  {
    OnlyOne(true, requests, r);
    OnlyOne(false, requests, r);
    OnlyOne(true, done, r);
    OnlyOne(false, done, r);
    assert Only(false, requests) + [] == Only(false, requests) && Only(false, done) + [] == Only(false, done);
  }

  lemma AccountLater(done: seq<Request>, toLoad: seq<Request>, requests: seq<Request>, r: Request)
    requires Accounted(done, toLoad, requests) && !r.direct
    ensures Accounted(done, toLoad + [r], requests + [r])
  {
    OnlyOne(true, requests, r);
    OnlyOne(false, requests, r);
    assert Only(true, requests) + [] == Only(true, requests);
    assert Only(false, done) + toLoad + [r] == Only(false, done) + (toLoad + [r]);
  }

  lemma AccountLoaded(done: seq<Request>, toLoad: seq<Request>, requests: seq<Request>)
    requires Accounted(done, toLoad, requests) && toLoad != []
    ensures Accounted(done + [toLoad[0]], toLoad[1..], requests)
  {
    var r := toLoad[0];
    assert r in toLoad;
    OnlyOne(true, done, r);
    OnlyOne(false, done, r);
    assert Only(true, done) + [] == Only(true, done);
    assert Only(false, done) + [r] + toLoad[1..] == Only(false, done) + toLoad;
  }

  lemma DoneMore(log: seq<Item>, ready: seq<Ready>, r: Ready)
    ensures Framed(log) + Requests(ready + [r]) == Framed(log) + Requests(ready) + [r.request]
  {
    assert Requests(ready + [r]) == Requests(ready) + [r.request];
  }

  lemma DoneFramed(log: seq<Item>, ready: seq<Ready>)
    requires ready != []
    ensures Framed(log + [Object(ready[0])]) + Requests(ready[1..]) == Framed(log) + Requests(ready)
  {
    FramedAppend(log, Object(ready[0]));
    assert Requests(ready) == [ready[0].request] + Requests(ready[1..]);
  }

  lemma SendDirectKeeps(frame: Frame, s: State, requests: seq<Request>, r: Request, blob: Blob)
    requires Kept(frame, s, requests) && Progress(s) && r.direct
    ensures var t := SendBlob(s, r, Some(blob)); Kept(frame, t, requests + [r]) && Progress(t) && Polled(t)
  {
    DoneMore(s.log, s.ready, Ready(r, blob));
    AccountDirect(Done(s), s.toLoad, requests, r);
  }

  lemma SendLaterKeeps(frame: Frame, s: State, requests: seq<Request>, r: Request)
    requires Kept(frame, s, requests) && Progress(s) && Polled(s) && !r.direct
    ensures var t := SendBlob(s, r, None); Kept(frame, t, requests + [r]) && Progress(t) && Polled(t)
  {
    AccountLater(Done(s), s.toLoad, requests, r);
  }

  lemma LoadKeeps(frame: Frame, s: State, requests: seq<Request>, blob: Blob)
    requires Kept(frame, s, requests) && s.toLoad != []
    ensures var t := LoadDone(s, blob); Kept(frame, t, requests) && Progress(t) && Polled(t)
  {
    DoneMore(s.log, s.ready, Ready(s.toLoad[0], blob));
    AccountLoaded(Done(s), s.toLoad, requests);
  }

  lemma FrameKeeps(frame: Frame, s: State, requests: seq<Request>)
    requires Kept(frame, s, requests) && Progress(s) && s.ready != []
    ensures var t := FrameFirst(frame, s); Kept(frame, t, requests) && Progress(t)
  {
    var t := FrameFirst(frame, s);
    var item := Object(s.ready[0]);
    assert t.log == s.log + [item] && t.ready == s.ready[1..] && t.toLoad == s.toLoad;
    assert t.written == s.written && t.outBuf == s.outBuf + TextOf(frame, item);
    DoneFramed(s.log, s.ready);
    OctetsMore(frame, s.written, s.outBuf, s.log, item);
    assert Done(t) == Done(s);
  }

  lemma {:induction false} AddReadyKeeps(frame: Frame, s: State, requests: seq<Request>)
    requires Kept(frame, s, requests) && Progress(s) && NotEmpty(frame)
    ensures var t := AddReady(frame, s);
      && Kept(frame, t, requests) && Progress(t)
      && t.pollOut == s.pollOut && (ReadyToWrite(s) ==> t.outBuf != []) && (!ReadyToWrite(s) ==> !ReadyToWrite(t))
    decreases |s.ready|
  {
    if |s.outBuf| < BATCH && s.ready != [] {
      FrameKeeps(frame, s, requests);
      assert frame(s.ready[0].blob) != [];
      AddReadyKeeps(frame, FrameFirst(frame, s), requests);
    }
  }

  lemma WriteKeeps(frame: Frame, s: State, requests: seq<Request>, wrote: Option<nat>)
    requires Kept(frame, s, requests) && Progress(s) && Polled(s) && NotEmpty(frame) && s.pollOut
    requires wrote.Some? ==> wrote.value <= |AddReady(frame, s).outBuf|
    ensures var t := HandleWrite(frame, s, wrote); Kept(frame, t, requests) && Progress(t) && Polled(t)
  {
    AddReadyKeeps(frame, s, requests);
    var t := AddReady(frame, s);
    if wrote.Some? {
      assert t.written + t.outBuf[..wrote.value] + t.outBuf[wrote.value..] == t.written + t.outBuf;
    }
  }

  lemma OtherKeeps(frame: Frame, s: State, requests: seq<Request>, octets: seq<byte>)
    requires Kept(frame, s, requests) && Progress(s)
    ensures var t := SendOther(s, octets); Kept(frame, t, requests) && Progress(t) && Polled(t)
  {
    FramedAppend(s.log, Other(octets));
    OctetsMore(frame, s.written, s.outBuf, s.log, Other(octets));
    assert Framed(s.log) + [] == Framed(s.log);
  }

  lemma NextKeeps(frame: Frame, w: World, e: Event)
    requires NotEmpty(frame) && Inv(frame, w)
    ensures Inv(frame, Next(frame, w, e))
  {
    if Enabled(frame, w, e) {
      match e
      case Send(hash, blob) =>
        var r := Request(|w.requests|, hash, blob.Some?);
        if blob.Some? {
          SendDirectKeeps(frame, w.s, w.requests, r, blob.value);
        } else {
          SendLaterKeeps(frame, w.s, w.requests, r);
        }
      case Load(blob) =>
        if w.s.toLoad != [] {
          LoadKeeps(frame, w.s, w.requests, blob);
        }
      case Write(wrote) => WriteKeeps(frame, w.s, w.requests, wrote);
      case Command(octets) => OtherKeeps(frame, w.s, w.requests, octets);
    }
  }

  lemma {:induction false} RunKeeps(frame: Frame, w: World, events: seq<Event>)
    requires NotEmpty(frame) && Inv(frame, w)
    ensures Inv(frame, Run(frame, w, events))
    decreases |events|
  {
    if events != [] {
      NextKeeps(frame, w, events[0]);
      RunKeeps(frame, Next(frame, w, events[0]), events[1..]);
    }
  }

  /** In every run: a load that ends has an entry waiting for exactly that object, so the
      assertion of load_cb holds; something waiting to be loaded never lacks a load or an
      object ready; writing is polled for exactly when needed; no octet and no request is
      lost, doubled or put out of order. */
  lemma EveryRun(frame: Frame, events: seq<Event>)
    requires NotEmpty(frame)
    ensures Inv(frame, Run(frame, BEGIN, events))
  {
    RunKeeps(frame, BEGIN, events);
  }

  // ----------------------------------------------------------- what is framed

  /** The object with a hash. */
  type Objects = Hash -> Blob

  ghost predicate IsRight(objects: Objects, r: Ready)
  {
    r.blob == objects(r.request.hash)
  }

  /** Every object that is ready or framed is the one that was asked for. */
  ghost predicate AllRight(objects: Objects, s: State)
  {
    && (forall r :: r in s.ready ==> IsRight(objects, r))
    && (forall item :: item in s.log && item.Object? ==> IsRight(objects, item.ready))
  }

  /** The network has an object under its own hash, and the store loads what it is asked
      for. */
  ghost predicate Truthful(objects: Objects, w: World, e: Event)
  {
    match e
    case Send(hash, blob) => blob.Some? ==> blob.value == objects(hash)
    case Load(blob) => w.s.loading.Some? ==> blob == objects(w.s.loading.value)
    case Write(_) => true
    case Command(_) => true
  }

  ghost predicate AllTruthful(frame: Frame, objects: Objects, w: World, events: seq<Event>)
    decreases |events|
  {
    events != [] ==> Truthful(objects, w, events[0]) && AllTruthful(frame, objects, Next(frame, w, events[0]), events[1..])
  }

  lemma {:induction false} AddReadyRight(frame: Frame, objects: Objects, s: State)
    requires AllRight(objects, s)
    ensures AllRight(objects, AddReady(frame, s))
    decreases |s.ready|
  {
    if |s.outBuf| < BATCH && s.ready != [] {
      var t := FrameFirst(frame, s);
      assert s.ready[0] in s.ready;
      assert t.log == s.log + [Object(s.ready[0])] && t.ready == s.ready[1..];
      AddReadyRight(frame, objects, t);
    }
  }

  lemma LoadRight(objects: Objects, s: State, blob: Blob)
    requires AllRight(objects, s) && Progress(s) && s.loading.Some? && blob == objects(s.loading.value)
    ensures AllRight(objects, LoadDone(s, blob))
  {
  }

  lemma NextRight(frame: Frame, objects: Objects, w: World, e: Event)
    requires Inv(frame, w) && AllRight(objects, w.s) && Truthful(objects, w, e)
    ensures AllRight(objects, Next(frame, w, e).s)
  {
    if Enabled(frame, w, e) {
      match e
      case Send(hash, blob) =>
      case Load(blob) => LoadRight(objects, w.s, blob);
      case Write(wrote) => AddReadyRight(frame, objects, w.s);
      case Command(octets) =>
    }
  }

  lemma {:induction false} RunRight(frame: Frame, objects: Objects, w: World, events: seq<Event>)
    requires NotEmpty(frame) && Inv(frame, w) && AllRight(objects, w.s) && AllTruthful(frame, objects, w, events)
    ensures Inv(frame, Run(frame, w, events)) && AllRight(objects, Run(frame, w, events).s)
    decreases |events|
  {
    if events != [] {
      NextKeeps(frame, w, events[0]);
      NextRight(frame, objects, w, events[0]);
      RunRight(frame, objects, Next(frame, w, events[0]), events[1..]);
    }
  }

  lemma {:induction false} OnlyParts(rs: seq<Request>)
    ensures multiset(rs) == multiset(Only(true, rs)) + multiset(Only(false, rs))
  {
    if rs != [] {
      OnlyParts(rs[1..]);
      assert rs == [rs[0]] + rs[1..];
    }
  }

  predicate Empty(s: State)
  {
    s.ready == [] && s.toLoad == [] && s.outBuf == []
  }

  lemma EmptyIsDelivered(frame: Frame, w: World)
    requires Inv(frame, w) && Empty(w.s)
    ensures w.s.written == Octets(frame, w.s.log)
    ensures Only(true, Framed(w.s.log)) == Only(true, w.requests)
    ensures Only(false, Framed(w.s.log)) == Only(false, w.requests)
    ensures multiset(Framed(w.s.log)) == multiset(w.requests)
  {
    assert w.s.written + [] == w.s.written;
    assert Framed(w.s.log) + Requests([]) == Framed(w.s.log);
    assert Only(false, Framed(w.s.log)) + [] == Only(false, Framed(w.s.log));
    OnlyParts(w.requests);
    OnlyParts(Framed(w.s.log));
  }

  /** In every run that has come to an end, however loads, writes and requests were
      interleaved: each request has been framed exactly once, each kind in its order, the
      object framed is the one that was asked for, and every octet has been written. */
  lemma EveryRunDelivers(frame: Frame, objects: Objects, events: seq<Event>)
    requires NotEmpty(frame) && AllTruthful(frame, objects, BEGIN, events) && Empty(Run(frame, BEGIN, events).s)
    ensures var w := Run(frame, BEGIN, events);
      && w.s.written == Octets(frame, w.s.log) && multiset(Framed(w.s.log)) == multiset(w.requests)
      && Only(true, Framed(w.s.log)) == Only(true, w.requests)
      && Only(false, Framed(w.s.log)) == Only(false, w.requests)
      && forall item :: item in w.s.log && item.Object? ==> item.ready.blob == objects(item.ready.request.hash)
  {
    RunRight(frame, objects, BEGIN, events);
    EmptyIsDelivered(frame, Run(frame, BEGIN, events));
  }

  // ---------------------------------------------------------------- progress

  /** What a peer does that reads everything, with a store whose loads succeed. */
  ghost function Drain(frame: Frame, disk: Hash -> Blob, w: World): World
    requires NotEmpty(frame) && Inv(frame, w)
    decreases 2 * |w.s.toLoad| + |w.s.ready|, |w.s.outBuf|
  {
    if w.s.loading.Some? then
      LoadKeeps(frame, w.s, w.requests, disk(w.s.loading.value));
      Drain(frame, disk, w.(s := LoadDone(w.s, disk(w.s.loading.value))))
    else if w.s.pollOut then
      var n := |AddReady(frame, w.s).outBuf|;
      WriteKeeps(frame, w.s, w.requests, Some(n));
      WriteShrinks(frame, w.s);
      Drain(frame, disk, w.(s := HandleWrite(frame, w.s, Some(n))))
    else w
  }

  lemma WriteShrinks(frame: Frame, s: State)
    requires NotEmpty(frame) && Polled(s) && s.pollOut
    ensures var t := AddReady(frame, s);
      var u := HandleWrite(frame, s, Some(|t.outBuf|));
      && u.toLoad == s.toLoad && u.outBuf == []
      && (|u.ready| < |s.ready| || (|u.ready| == |s.ready| && |s.outBuf| > 0))
  {
    AddReadyShrinks(frame, s);
  }

  lemma {:induction false} AddReadyShrinks(frame: Frame, s: State)
    ensures var t := AddReady(frame, s);
      && t.toLoad == s.toLoad && t.written == s.written && |t.ready| <= |s.ready|
      && (s.ready != [] && |s.outBuf| < BATCH ==> |t.ready| < |s.ready|)
    decreases |s.ready|
  {
    if |s.outBuf| < BATCH && s.ready != [] {
      AddReadyShrinks(frame, FrameFirst(frame, s));
    }
  }

  /** Then every request ever made has been framed, each kind in its order, and every
      octet has been written. */
  lemma {:induction false} Drained(frame: Frame, disk: Hash -> Blob, w: World)
    requires NotEmpty(frame) && Inv(frame, w)
    ensures var d := Drain(frame, disk, w);
      && Empty(d.s) && d.requests == w.requests
      && d.s.written == Octets(frame, d.s.log) && multiset(Framed(d.s.log)) == multiset(w.requests)
      && Only(true, Framed(d.s.log)) == Only(true, w.requests)
      && Only(false, Framed(d.s.log)) == Only(false, w.requests)
      && (AllRight(disk, w.s) ==> AllRight(disk, d.s))
    decreases 2 * |w.s.toLoad| + |w.s.ready|, |w.s.outBuf|
  {
    if w.s.loading.Some? {
      LoadKeeps(frame, w.s, w.requests, disk(w.s.loading.value));
      if AllRight(disk, w.s) {
        LoadRight(disk, w.s, disk(w.s.loading.value));
      }
      Drained(frame, disk, w.(s := LoadDone(w.s, disk(w.s.loading.value))));
    } else if w.s.pollOut {
      var n := |AddReady(frame, w.s).outBuf|;
      WriteKeeps(frame, w.s, w.requests, Some(n));
      WriteShrinks(frame, w.s);
      if AllRight(disk, w.s) {
        AddReadyRight(frame, disk, w.s);
      }
      Drained(frame, disk, w.(s := HandleWrite(frame, w.s, Some(n))));
    } else {
      assert Empty(w.s);
      EmptyIsDelivered(frame, w);
    }
  }

  // ----------------------------------------------------------------- in place

  class Queue {
    const frame: Frame
    var outBuf: seq<byte>
    var ready: seq<Ready>
    var toLoad: seq<Request>
    var loading: Option<Hash>
    var pollOut: bool
    var next: nat
    ghost var written: seq<byte>
    ghost var log: seq<Item>
    ghost var requests: seq<Request>

    ghost function Abs(): State
      reads this
    {
      State(outBuf, ready, toLoad, loading, pollOut, written, log)
    }

    ghost predicate Safe()
      reads this
    {
      NotEmpty(frame) && Inv(frame, World(Abs(), requests)) && next == |requests|
    }

    constructor (frame: Frame)
      requires NotEmpty(frame)
      ensures World(Abs(), requests) == BEGIN && Safe() && this.frame == frame
    {
      this.frame := frame;
      outBuf, ready, toLoad, loading, pollOut, next := [], [], [], None, false, 0;
      written, log, requests := [], [], [];
      new;
      EveryRun(frame, []);
    }

    /** maybe_queue_load */
    method QueueLoad()
      modifies this`loading
      ensures Abs() == MaybeQueueLoad(old(Abs()))
    {
      if loading.Some? {
        return;
      }
      if ready != [] {
        return;
      }
      if toLoad == [] {
        return;
      }
      loading := Some(toLoad[0].hash);
    }

    /** ntb_connection_send_blob: an object at hand is the last to go out, and writing is
        polled for; another waits behind those to be loaded, and is sure to be reached,
        since a load is under way or something is ready. */
    method Send(hash: Hash, blob: Option<Blob>) returns (r: Request)
      requires Safe()
      modifies this
      ensures Safe() && World(Abs(), requests) == Next(frame, World(old(Abs()), old(requests)), Event.Send(hash, blob))
      ensures r.hash == hash && r.id == |old(requests)| && requests == old(requests) + [r]
      ensures outBuf == old(outBuf) && written == old(written) && log == old(log)
      ensures blob.Some? ==> pollOut && ready == old(ready) + [Ready(r, blob.value)] && toLoad == old(toLoad)
      ensures blob.None? ==> toLoad == old(toLoad) + [r] && ready == old(ready) && (loading.Some? || ready != [])
      ensures old(loading).Some? ==> loading == old(loading)
    {
      ghost var w := World(Abs(), requests);
      r := Request(next, hash, blob.Some?);
      next := next + 1;
      requests := requests + [r];
      Enqueue(r, blob);
      SendMeans(frame, w, hash, blob);
    }

    method Enqueue(r: Request, blob: Option<Blob>)
      modifies this`ready, this`pollOut, this`toLoad, this`loading
      ensures Abs() == SendBlob(old(Abs()), r, blob)
    {
      if blob.Some? {
        ready := ready + [Ready(r, blob.value)];
        pollOut := outBuf != [] || ready != [];
      } else {
        toLoad := toLoad + [r];
        QueueLoad();
      }
    }

    /** load_cb: there is an entry, its object is the one that was being loaded, and it goes
        out after what is ready. */
    method Loaded(blob: Blob) returns (entry: Request)
      requires Safe() && loading.Some?
      modifies this
      ensures Safe() && World(Abs(), requests) == Next(frame, World(old(Abs()), requests), Load(blob))
      ensures entry.hash == old(loading).value && entry in requests && !entry.direct
      ensures old(toLoad) == [entry] + toLoad && ready == old(ready) + [Ready(entry, blob)]
      ensures loading.None? && pollOut && requests == old(requests) && written == old(written)
    {
      ghost var w := World(Abs(), requests);
      FirstIsLoading(frame, w);
      entry := MoveFirst(blob);
      LoadMeans(frame, w, blob);
    }

    method MoveFirst(blob: Blob) returns (entry: Request)
      requires toLoad != []
      modifies this`ready, this`pollOut, this`toLoad, this`loading
      ensures entry == old(toLoad)[0] && Abs() == LoadDone(old(Abs()), blob)
    {
      entry := toLoad[0];
      toLoad := toLoad[1..];
      ready := ready + [Ready(entry, blob)];
      loading := None;
      pollOut := outBuf != [] || ready != [];
    }

    /** add_ready_objects */
    method AddReadyObjects()
      modifies this`outBuf, this`ready, this`loading, this`log
      ensures Abs() == AddReady(frame, old(Abs()))
    {
      while |outBuf| < BATCH && ready != []
        invariant AddReady(frame, Abs()) == AddReady(frame, old(Abs()))
        decreases |ready|
      {
        var entry := ready[0];
        outBuf := outBuf + frame(entry.blob);
        log := log + [Object(entry)];
        ready := ready[1..];
        QueueLoad();
      }
    }

    /** handle_write, given how much room the socket has: whatever was written before stays,
        what is written next continues it, and there is something to write. */
    method Write(room: Option<nat>) returns (wrote: Option<nat>)
      requires Safe() && pollOut
      modifies this
      ensures Enabled(frame, World(old(Abs()), requests), Event.Write(wrote))
      ensures Safe() && World(Abs(), requests) == Next(frame, World(old(Abs()), requests), Event.Write(wrote))
      ensures requests == old(requests) && toLoad == old(toLoad)
      ensures wrote.Some? <==> room.Some?
      ensures wrote.Some? ==> wrote.value <= room.value && (wrote.value < room.value ==> outBuf == [])
      ensures wrote.Some? ==> |written| == |old(written)| + wrote.value && (room.value > 0 ==> wrote.value > 0)
      ensures old(written) <= written <= Octets(frame, log)
    {
      ghost var w := World(Abs(), requests);
      wrote := WriteSome(room);
      WriteMeans(frame, w, wrote);
    }

    method WriteSome(room: Option<nat>) returns (wrote: Option<nat>)
      modifies this`outBuf, this`ready, this`loading, this`log, this`written, this`pollOut
      ensures wrote == Taken(room, AddReady(frame, old(Abs())))
      ensures Abs() == HandleWrite(frame, old(Abs()), wrote)
    {
      AddReadyObjects();
      wrote := room;
      if room.Some? {
        wrote := Some(if room.value > |outBuf| then |outBuf| else room.value);
        written := written + outBuf[..wrote.value];
        outBuf := outBuf[wrote.value..];
        pollOut := outBuf != [] || ready != [];
      }
    }

    /** Any other command is put behind the frames in the buffer. */
    method Command(octets: seq<byte>)
      requires Safe()
      modifies this
      ensures Safe() && World(Abs(), requests) == Next(frame, World(old(Abs()), requests), Event.Command(octets))
      ensures outBuf == old(outBuf) + octets && requests == old(requests)
    {
      ghost var w := World(Abs(), requests);
      outBuf, log := outBuf + octets, log + [Other(octets)];
      pollOut := outBuf != [] || ready != [];
      NextKeeps(frame, w, Event.Command(octets));
    }

    method Step(e: Event)
      requires Safe() && Enabled(frame, World(Abs(), requests), e)
      modifies this
      ensures Safe() && World(Abs(), requests) == Next(frame, World(old(Abs()), old(requests)), e)
    {
      match e {
        case Send(hash, blob) => var _ := Send(hash, blob);
        case Load(blob) => var _ := Loaded(blob);
        case Write(wrote) => var _ := Write(wrote);
        case Command(octets) => Command(octets);
      }
    }
  }

  ghost predicate Feasible(frame: Frame, w: World, events: seq<Event>)
    decreases |events|
  {
    events != [] ==> Enabled(frame, w, events[0]) && Feasible(frame, Next(frame, w, events[0]), events[1..])
  }

  /** A connection's queues after any run of requests, loads and writes are those of the
      run, and nothing is lost. */
  method Drive(frame: Frame, events: seq<Event>) returns (q: Queue)
    requires NotEmpty(frame) && Feasible(frame, BEGIN, events)
    ensures fresh(q) && q.frame == frame && q.Safe() && World(q.Abs(), q.requests) == Run(frame, BEGIN, events)
  {
    q := new Queue(frame);
    var i := 0;
    while i < |events|
      invariant i <= |events| && fresh(q) && q.frame == frame && q.Safe()
      invariant Feasible(frame, World(q.Abs(), q.requests), events[i..])
      invariant Run(frame, World(q.Abs(), q.requests), events[i..]) == Run(frame, BEGIN, events)
    {
      assert events[i..][1..] == events[i + 1..];
      q.Step(events[i]);
      i := i + 1;
    }
  }

  lemma FirstIsLoading(frame: Frame, w: World)
    requires Inv(frame, w) && w.s.loading.Some?
    ensures w.s.toLoad != [] && w.s.toLoad[0].hash == w.s.loading.value
    ensures w.s.toLoad[0] in w.requests && !w.s.toLoad[0].direct
  {
    var r := w.s.toLoad[0];
    assert r in w.s.toLoad;
    assert r in Only(false, Done(w.s)) + w.s.toLoad;
    OnlyWithin(false, w.requests, r);
  }

  lemma {:induction false} OnlyWithin(direct: bool, rs: seq<Request>, r: Request)
    requires r in Only(direct, rs)
    ensures r in rs
  {
    if r !in (if rs[0].direct == direct then [rs[0]] else []) {
      OnlyWithin(direct, rs[1..], r);
    }
  }

  /** What the socket takes, given its room. */
  function Taken(room: Option<nat>, s: State): Option<nat>
  {
    if room.Some? && room.value > |s.outBuf| then Some(|s.outBuf|) else room
  }

  lemma SendMeans(frame: Frame, w: World, hash: Hash, blob: Option<Blob>)
    requires NotEmpty(frame) && Inv(frame, w)
    ensures var w' := Next(frame, w, Event.Send(hash, blob));
      && Inv(frame, w') && w'.requests == w.requests + [Request(|w.requests|, hash, blob.Some?)]
      && (blob.Some? ==> w'.s.pollOut) && (w'.s.toLoad != [] ==> w'.s.loading.Some? || w'.s.ready != [])
      && (w.s.loading.Some? ==> w'.s.loading == w.s.loading)
  {
    NextKeeps(frame, w, Event.Send(hash, blob));
  }

  lemma LoadMeans(frame: Frame, w: World, blob: Blob)
    requires NotEmpty(frame) && Inv(frame, w) && w.s.loading.Some?
    ensures w.s.toLoad != [] && Inv(frame, Next(frame, w, Load(blob)))
    ensures Next(frame, w, Load(blob)) == World(LoadDone(w.s, blob), w.requests)
  {
    NextKeeps(frame, w, Load(blob));
  }

  lemma WriteMeans(frame: Frame, w: World, wrote: Option<nat>)
    requires NotEmpty(frame) && Inv(frame, w) && w.s.pollOut
    requires wrote.Some? ==> wrote.value <= |AddReady(frame, w.s).outBuf|
    ensures AddReady(frame, w.s).outBuf != []
    ensures var w' := Next(frame, w, Event.Write(wrote));
      && Inv(frame, w') && w' == World(HandleWrite(frame, w.s, wrote), w.requests)
      && w'.s.toLoad == w.s.toLoad && w.s.written <= w'.s.written <= Octets(frame, w'.s.log)
      && (wrote.Some? ==> |w'.s.written| == |w.s.written| + wrote.value)
  {
    NextKeeps(frame, w, Event.Write(wrote));
    AddReadyKeeps(frame, w.s, w.requests);
    AddReadyShrinks(frame, w.s);
  }
}
