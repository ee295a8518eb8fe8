/** The keyring, the network and the store they share: everything they do to files goes
    through one queue, in order, so that a load finds what an earlier save has left. */
module StoreAgreement {
  import opened Bytes

  type Hash = seq<byte>
  type Data = seq<byte>

  /** The files: the contents of outgoing messages and the objects of the network. */
  datatype Name = Content(id: nat) | Object(hash: Hash)

  /** A load goes with what whoever asks for it counts on: that there is a file, and what
      was put into it for them. */
  datatype Op = Save(name: Name, data: Data) | Delete(name: Name) | Load(name: Name, there: bool, want: Option<Data>)

  /** An outgoing message: the id of its content, and the content it was sent with or that
      was on disk when it was restored, if there was one. */
  datatype Message = Message(id: nat, content: Option<Data>)

  /** An object that can be passed on, and whether it is in memory. */
  datatype Kept = Kept(inMemory: bool, data: Data)

  /** The store's thread works from the beginning; until the program has started, the main
      thread also reads and removes files itself, and `used` has the content ids of the saved
      messages read so far. `missing` has the ids that saved messages refer to but whose
      files are not there. The counter for ids has 64 bits; `wrapped` records that it has
      passed their end. */
  datatype World = World(
    disk: map<Name, Data>,
    queue: seq<Op>,
    msgs: map<nat, Message>,
    accepted: map<Hash, Kept>,
    nextContent: nat,
    wrapped: bool,
    nextMsg: nat,
    started: bool,
    used: set<nat>,
    missing: set<nat>)

  function Start(disk: map<Name, Data>): World
  {
    World(disk, [], map[], map[], 0, false, 0, false, {}, {})
  }

  /** What the store's thread does for one task. */
  function Apply(disk: map<Name, Data>, op: Op): map<Name, Data>
  {
    match op
    case Save(n, data) => disk[n := data]
    case Delete(n) => disk - {n}
    case Load(_, _, _) => disk
  }

  /** The files once some tasks are done. */
  function After(disk: map<Name, Data>, ops: seq<Op>): map<Name, Data>
    decreases |ops|
  {
    if ops == [] then disk else After(Apply(disk, ops[0]), ops[1..])
  }

  function Lookup(disk: map<Name, Data>, n: Name): Option<Data>
  {
    if n in disk then Some(disk[n]) else None
  }

  function Enqueue(w: World, op: Op): World
  {
    w.(queue := w.queue + [op])
  }

  // ------------------------------------------------------------------- events

  datatype Event =
    | FoundObject(hash: Hash)
    | Restore(id: nat, ours: bool)
    | CleanUp(drop: set<nat>)
    | Begin
    | Send(recipients: nat, data: Data)
    | LoadContent(msg: nat)
    | Abandon(msg: nat)
    | Acknowledged(msg: nat)
    | AddObject(hash: Hash, keep: bool, blob: Data)
    | Uncache(hash: Hash)
    | Expire(hash: Hash)
    | LoadObject(hash: Hash)
    | Work

  predicate Enabled(w: World, e: Event)
  {
    match e
    case FoundObject(h) => !w.started && Object(h) in w.disk
    case Restore(id, _) => !w.started && id < TWO_64
    case CleanUp(drop) => !w.started && drop !! w.used
    case Begin => !w.started
    case Send(_, _) => w.started
    case LoadContent(m) => m in w.msgs
    case Abandon(m) => w.started && m in w.msgs
    case Acknowledged(m) => w.started && m in w.msgs
    case AddObject(h, _, _) => w.started && h !in w.accepted
    case Uncache(h) => h in w.accepted
    case Expire(h) => w.started && h in w.accepted
    case LoadObject(h) => h in w.accepted && !w.accepted[h].inMemory
    case Work => w.queue != []
  }

  /** The counter after an id, which may be the last of 64 bits. */
  function Bump(w: World, id: nat): World
  {
    w.(nextContent := (id + 1) % TWO_64, wrapped := w.wrapped || id + 1 >= TWO_64)
  }

  /** for_each_outgoing_cb: the next id is set beyond every id in the file, even where the
      sender's key is gone and the message is skipped. */
  function RestoreOne(w: World, id: nat, ours: bool): World
  {
    var t := (if id >= w.nextContent then Bump(w, id) else w).(used := w.used + {id});
    if !ours then t
    else t.(msgs := t.msgs[t.nextMsg := Message(id, Lookup(w.disk, Content(id)))], nextMsg := t.nextMsg + 1,
            missing := if Content(id) in w.disk then t.missing else t.missing + {id})
  }

  /** delete_unused_outgoings, or a part of it: the main thread removes contents that no
      saved message uses, past the queue and while the store's thread may be at work. */
  function CleanUpDisk(w: World, drop: set<nat>): World
  {
    w.(disk := map n | n in w.disk && !(n.Content? && n.id in drop) :: w.disk[n])
  }

  /** ntb_keyring_send_message: one content for all recipients. */
  function AddMsgs(w: World, msg: Message, n: nat): World
    decreases n
  {
    if n == 0 then w
    else AddMsgs(w.(msgs := w.msgs[w.nextMsg := msg], nextMsg := w.nextMsg + 1), msg, n - 1)
  }

  function SaveContent(w: World, data: Data): World
  {
    var id := w.nextContent;
    Enqueue(Bump(w, id).(missing := w.missing - {id}), Save(Content(id), data))
  }

  function SendOne(w: World, recipients: nat, data: Data): World
  {
    AddMsgs(SaveContent(w, data), Message(w.nextContent, Some(data)), recipients)
  }

  /** Some message uses a content. */
  predicate InUse(msgs: map<nat, Message>, id: nat)
  {
    exists m :: m in msgs && msgs[m].id == id
  }

  /** message_acknowledged: the content goes with its last message. */
  function Acknowledge(w: World, m: nat): World
    requires m in w.msgs
  {
    var id := w.msgs[m].id;
    var t := w.(msgs := w.msgs - {m});
    if InUse(t.msgs, id) then t else Enqueue(t, Delete(Content(id)))
  }

  function ContentLoad(w: World, m: nat): Op
    requires m in w.msgs
  {
    Load(Content(w.msgs[m].id), w.msgs[m].id !in w.missing, w.msgs[m].content)
  }

  function Next(w: World, e: Event): World
    requires Enabled(w, e)
  {
    match e
    case FoundObject(h) => w.(accepted := w.accepted[h := Kept(false, w.disk[Object(h)])])
    case Restore(id, ours) => RestoreOne(w, id, ours)
    case CleanUp(drop) => CleanUpDisk(w, drop)
    case Begin => w.(started := true)
    case Send(n, data) => SendOne(w, n, data)
    case LoadContent(m) => Enqueue(w, ContentLoad(w, m))
    case Abandon(m) => w.(msgs := w.msgs - {m})
    case Acknowledged(m) => Acknowledge(w, m)
    case AddObject(h, keep, data) => Enqueue(w.(accepted := w.accepted[h := Kept(keep, data)]), Save(Object(h), data))
    case Uncache(h) => w.(accepted := w.accepted[h := w.accepted[h].(inMemory := false)])
    case Expire(h) => Enqueue(w.(accepted := w.accepted - {h}), Delete(Object(h)))
    case LoadObject(h) => Enqueue(w, Load(Object(h), true, Some(w.accepted[h].data)))
    case Work => w.(disk := Apply(w.disk, w.queue[0]), queue := w.queue[1..])
  }

  // ------------------------------------------------------------- what is kept

  /** What is on disk agrees with what is counted on: the file is there or not, and, if
      contents are their messages' own, holds what was put into it for them. */
  ghost predicate Agrees(got: Option<Data>, there: bool, want: Option<Data>, own: bool)
  {
    got.Some? == there && (own ==> got == want)
  }

  ghost predicate MsgDue(after: map<Name, Data>, msg: Message, missing: set<nat>, own: bool)
  {
    Agrees(Lookup(after, Content(msg.id)), msg.id !in missing, msg.content, own)
  }

  /** Messages and objects will be on disk once the queue has been worked off. */
  ghost predicate LiveDue(w: World, own: bool)
  {
    && (forall m {:trigger w.msgs[m]} :: m in w.msgs ==> MsgDue(After(w.disk, w.queue), w.msgs[m], w.missing, own))
    && (forall h {:trigger w.accepted[h]} :: h in w.accepted ==>
        Lookup(After(w.disk, w.queue), Object(h)) == Some(w.accepted[h].data))
  }

  /** Where a load stands in the queue, what it asks for will be there by then. */
  ghost predicate LoadDue(disk: map<Name, Data>, queue: seq<Op>, own: bool, k: nat)
    requires k < |queue|
  {
    queue[k].Load? ==> Agrees(Lookup(After(disk, queue[..k]), queue[k].name), queue[k].there, queue[k].want, own)
  }

  ghost predicate LoadsDue(disk: map<Name, Data>, queue: seq<Op>, own: bool)
  {
    forall k: nat {:trigger LoadDue(disk, queue, own, k)} :: k < |queue| ==> LoadDue(disk, queue, own, k)
  }

  /** Every id in use is below the counter, unless that has wrapped. */
  ghost predicate IdsOk(w: World)
  {
    && w.nextContent < TWO_64
    && (forall m :: m in w.msgs ==> m < w.nextMsg && w.msgs[m].id < TWO_64)
    && (!w.wrapped ==> forall m :: m in w.msgs ==> w.msgs[m].id < w.nextContent)
  }

  /** While the program starts, only loads are queued, and only for what is in use. */
  ghost predicate BootOk(w: World)
  {
    !w.started ==>
      && (forall m :: m in w.msgs ==> w.msgs[m].id in w.used)
      && (forall k :: 0 <= k < |w.queue| ==> w.queue[k].Load?)
      && (forall k :: 0 <= k < |w.queue| && w.queue[k].name.Content? ==> w.queue[k].name.id in w.used)
      && (forall id :: id in w.missing ==> Content(id) !in w.disk)
  }

  /** `own` says that every content is still its messages' own. */
  ghost predicate Inv(w: World, own: bool)
  {
    LiveDue(w, own) && LoadsDue(w.disk, w.queue, own) && IdsOk(w) && BootOk(w)
  }

  // -------------------------------------------------------------------- queue

  lemma {:induction false} AfterConcat(disk: map<Name, Data>, a: seq<Op>, b: seq<Op>)
    ensures After(disk, a + b) == After(After(disk, a), b)
    decreases |a|
  {
    if a == [] {
      assert a + b == b;
    } else {
      AfterConcat(Apply(disk, a[0]), a[1..], b);
      assert (a + b)[1..] == a[1..] + b;
    }
  }

  lemma AfterOne(disk: map<Name, Data>, a: seq<Op>, op: Op)
    ensures After(disk, a + [op]) == Apply(After(disk, a), op)
  {
    AfterConcat(disk, a, [op]);
    assert [op][1..] == [];
  }

  lemma {:induction false} AfterLoads(disk: map<Name, Data>, ops: seq<Op>)
    requires forall k :: 0 <= k < |ops| ==> ops[k].Load?
    ensures After(disk, ops) == disk
  {
    if ops != [] {
      AfterLoads(disk, ops[1..]);
    }
  }

  /** A task at the end of the queue changes nothing for those before it. */
  lemma LoadsEnqueue(disk: map<Name, Data>, queue: seq<Op>, own: bool, op: Op)
    requires LoadsDue(disk, queue, own)
    requires op.Load? ==> Agrees(Lookup(After(disk, queue), op.name), op.there, op.want, own)
    ensures LoadsDue(disk, queue + [op], own)
  {
    var queue' := queue + [op];
    forall k: nat | k < |queue'| ensures LoadDue(disk, queue', own, k) {
      if k < |queue| {
        assert LoadDue(disk, queue, own, k);
        assert queue'[..k] == queue[..k];
      } else {
        assert queue'[..k] == queue;
      }
    }
  }

  /** Doing the first task brings every other one forward. */
  lemma LoadsWork(disk: map<Name, Data>, queue: seq<Op>, own: bool)
    requires LoadsDue(disk, queue, own) && queue != []
    ensures LoadsDue(Apply(disk, queue[0]), queue[1..], own)
  {
    var disk', queue' := Apply(disk, queue[0]), queue[1..];
    forall k: nat | k < |queue'| ensures LoadDue(disk', queue', own, k) {
      assert LoadDue(disk, queue, own, k + 1);
      assert queue[..k + 1][1..] == queue'[..k];
    }
  }

  // ------------------------------------------------------------------- events

  lemma LoadContentKeeps(w: World, m: nat, own: bool)
    requires Inv(w, own) && m in w.msgs
    ensures Inv(Enqueue(w, ContentLoad(w, m)), own)
  {
    var op := ContentLoad(w, m);
    LoadsEnqueue(w.disk, w.queue, own, op);
    AfterOne(w.disk, w.queue, op);
  }

  lemma LoadObjectKeeps(w: World, h: Hash, own: bool)
    requires Inv(w, own) && h in w.accepted
    ensures Inv(Enqueue(w, Load(Object(h), true, Some(w.accepted[h].data))), own)
  {
    var op := Load(Object(h), true, Some(w.accepted[h].data));
    LoadsEnqueue(w.disk, w.queue, own, op);
    AfterOne(w.disk, w.queue, op);
  }

  lemma WorkKeeps(w: World, own: bool)
    requires Inv(w, own) && w.queue != []
    ensures Inv(Next(w, Work), own)
  {
    LoadsWork(w.disk, w.queue, own);
    var t := Next(w, Work);
    assert forall k :: 0 <= k < |t.queue| ==> t.queue[k] == w.queue[k + 1];
  }

  lemma {:induction false} AddMsgsKeeps(w: World, msg: Message, n: nat, own: bool)
    requires Inv(w, own) && w.started && msg.id < TWO_64 && (!w.wrapped ==> msg.id < w.nextContent)
    requires MsgDue(After(w.disk, w.queue), msg, w.missing, own)
    ensures Inv(AddMsgs(w, msg, n), own)
    decreases n
  {
    if n > 0 {
      AddMsgsKeeps(w.(msgs := w.msgs[w.nextMsg := msg], nextMsg := w.nextMsg + 1), msg, n - 1, own);
    }
  }

  /** No message loses its content to a new one: the id handed out is not in use, or for
      the very same content. */
  ghost predicate Spares(w: World, data: Data)
  {
    forall m :: m in w.msgs && w.msgs[m].id == w.nextContent ==> w.msgs[m].content == Some(data)
  }

  lemma SaveContentKeeps(w: World, data: Data, own: bool)
    requires Inv(w, own) && w.started && (own ==> Spares(w, data))
    ensures Inv(SaveContent(w, data), own)
    ensures var t := SaveContent(w, data);
      && MsgDue(After(t.disk, t.queue), Message(w.nextContent, Some(data)), t.missing, own)
      && (!t.wrapped ==> w.nextContent < t.nextContent)
  {
    var id, t := w.nextContent, SaveContent(w, data);
    LoadsEnqueue(w.disk, w.queue, own, Save(Content(id), data));
    AfterOne(w.disk, w.queue, Save(Content(id), data));
    forall m | m in t.msgs ensures MsgDue(After(t.disk, t.queue), t.msgs[m], t.missing, own) {
      assert MsgDue(After(w.disk, w.queue), w.msgs[m], w.missing, own);
    }
  }

  lemma SendKeeps(w: World, n: nat, data: Data, own: bool)
    requires Inv(w, own) && w.started && (own ==> Spares(w, data))
    ensures Inv(SendOne(w, n, data), own)
  {
    SaveContentKeeps(w, data, own);
    AddMsgsKeeps(SaveContent(w, data), Message(w.nextContent, Some(data)), n, own);
  }

  lemma {:induction false} AddMsgsFrame(w: World, msg: Message, n: nat)
    requires forall m :: m in w.msgs ==> m < w.nextMsg
    ensures var t := AddMsgs(w, msg, n);
      t.disk == w.disk && t.queue == w.queue && t.missing == w.missing && forall m :: m in w.msgs ==> m in t.msgs && t.msgs[m] == w.msgs[m]
    decreases n
  {
    if n > 0 {
      AddMsgsFrame(w.(msgs := w.msgs[w.nextMsg := msg], nextMsg := w.nextMsg + 1), msg, n - 1);
    }
  }

  /** A content saved under an id that is in use takes the place of what was there. */
  lemma SendOverwrites(w: World, n: nat, data: Data, m: nat)
    requires Inv(w, true) && m in w.msgs && w.msgs[m].id == w.nextContent && w.msgs[m].content != Some(data)
    ensures var t := SendOne(w, n, data);
      && m in t.msgs && t.msgs[m] == w.msgs[m]
      && Lookup(After(t.disk, t.queue), Content(w.nextContent)) == Some(data) && !Inv(t, true)
  {
    var s := SaveContent(w, data);
    AddMsgsFrame(s, Message(w.nextContent, Some(data)), n);
    AfterOne(w.disk, w.queue, Save(Content(w.nextContent), data));
    var t := SendOne(w, n, data);
    assert !MsgDue(After(t.disk, t.queue), t.msgs[m], t.missing, true);
  }

  lemma AcknowledgeKeeps(w: World, m: nat, own: bool)
    requires Inv(w, own) && w.started && m in w.msgs
    ensures Inv(Acknowledge(w, m), own)
  {
    var id := w.msgs[m].id;
    var t := w.(msgs := w.msgs - {m});
    if !InUse(t.msgs, id) {
      var op := Delete(Content(id));
      LoadsEnqueue(w.disk, w.queue, own, op);
      AfterOne(w.disk, w.queue, op);
      var u := Enqueue(t, op);
      forall x | x in u.msgs ensures MsgDue(After(u.disk, u.queue), u.msgs[x], u.missing, own) {
        assert MsgDue(After(w.disk, w.queue), w.msgs[x], w.missing, own);
      }
    }
  }

  lemma AddObjectKeeps(w: World, h: Hash, keep: bool, data: Data, own: bool)
    requires Inv(w, own) && w.started
    ensures Inv(Enqueue(w.(accepted := w.accepted[h := Kept(keep, data)]), Save(Object(h), data)), own)
  {
    var op := Save(Object(h), data);
    LoadsEnqueue(w.disk, w.queue, own, op);
    AfterOne(w.disk, w.queue, op);
    var u := Enqueue(w.(accepted := w.accepted[h := Kept(keep, data)]), op);
    forall x | x in u.msgs ensures MsgDue(After(u.disk, u.queue), u.msgs[x], u.missing, own) {
      assert MsgDue(After(w.disk, w.queue), w.msgs[x], w.missing, own);
    }
  }

  lemma ExpireKeeps(w: World, h: Hash, own: bool)
    requires Inv(w, own) && w.started
    ensures Inv(Enqueue(w.(accepted := w.accepted - {h}), Delete(Object(h))), own)
  {
    var op := Delete(Object(h));
    LoadsEnqueue(w.disk, w.queue, own, op);
    AfterOne(w.disk, w.queue, op);
    var u := Enqueue(w.(accepted := w.accepted - {h}), op);
    forall x | x in u.msgs ensures MsgDue(After(u.disk, u.queue), u.msgs[x], u.missing, own) {
      assert MsgDue(After(w.disk, w.queue), w.msgs[x], w.missing, own);
    }
  }

  /** While the program starts the queue does not change the disk. */
  lemma BootLoads(w: World)
    requires BootOk(w) && !w.started
    ensures After(w.disk, w.queue) == w.disk
    ensures forall k :: 0 <= k <= |w.queue| ==> After(w.disk, w.queue[..k]) == w.disk
  {
    AfterLoads(w.disk, w.queue);
    forall k | 0 <= k <= |w.queue| ensures After(w.disk, w.queue[..k]) == w.disk {
      AfterLoads(w.disk, w.queue[..k]);
    }
  }

  lemma RestoreLive(w: World, id: nat, ours: bool, own: bool)
    requires Inv(w, own) && !w.started && id < TWO_64
    ensures LiveDue(RestoreOne(w, id, ours), own)
  {
    var t := RestoreOne(w, id, ours);
    BootLoads(w);
    forall m | m in t.msgs ensures MsgDue(After(t.disk, t.queue), t.msgs[m], t.missing, own) {
      if m in w.msgs && !(ours && m == w.nextMsg) {
        assert MsgDue(After(w.disk, w.queue), w.msgs[m], w.missing, own);
      }
    }
  }

  lemma RestoreKeeps(w: World, id: nat, ours: bool, own: bool)
    requires Inv(w, own) && !w.started && id < TWO_64
    ensures Inv(RestoreOne(w, id, ours), own)
  {
    RestoreLive(w, id, ours, own);
    RestoreIds(w, id, ours);
    RestoreBoot(w, id, ours);
  }

  lemma RestoreIds(w: World, id: nat, ours: bool)
    requires IdsOk(w) && id < TWO_64
    ensures IdsOk(RestoreOne(w, id, ours))
  {
  }

  lemma RestoreBoot(w: World, id: nat, ours: bool)
    requires BootOk(w) && !w.started
    ensures BootOk(RestoreOne(w, id, ours))
    ensures RestoreOne(w, id, ours).disk == w.disk && RestoreOne(w, id, ours).queue == w.queue
  {
  }

  lemma CleanUpKeeps(w: World, drop: set<nat>, own: bool)
    requires Inv(w, own) && !w.started && drop !! w.used
    ensures Inv(CleanUpDisk(w, drop), own)
  {
    var t := CleanUpDisk(w, drop);
    BootLoads(w);
    BootLoads(t);
    forall k: nat | k < |t.queue| ensures LoadDue(t.disk, t.queue, own, k) {
      assert LoadDue(w.disk, w.queue, own, k);
    }
    forall m | m in t.msgs ensures MsgDue(After(t.disk, t.queue), t.msgs[m], t.missing, own) {
      assert MsgDue(After(w.disk, w.queue), w.msgs[m], w.missing, own);
    }
  }

  lemma FoundKeeps(w: World, h: Hash, own: bool)
    requires Inv(w, own) && !w.started && Object(h) in w.disk
    ensures Inv(w.(accepted := w.accepted[h := Kept(false, w.disk[Object(h)])]), own)
  {
    BootLoads(w);
  }

  /** The one step that can take a content from its messages. */
  ghost predicate KeepsContents(w: World, e: Event)
  {
    e.Send? ==> Spares(w, e.data)
  }

  /** Every step keeps what is due on disk, and every content its messages' own if it hands
      out no id that is in use for another. */
  lemma NextKeeps(w: World, e: Event, own: bool)
    requires Inv(w, own) && Enabled(w, e) && (own ==> KeepsContents(w, e))
    ensures Inv(Next(w, e), own)
  {
    match e
    case FoundObject(h) => FoundKeeps(w, h, own);
    case Restore(id, ours) => RestoreKeeps(w, id, ours, own);
    case CleanUp(drop) => CleanUpKeeps(w, drop, own);
    case Begin =>
    case Send(n, data) => SendKeeps(w, n, data, own);
    case LoadContent(m) => LoadContentKeeps(w, m, own);
    case Abandon(m) =>
    case Acknowledged(m) => AcknowledgeKeeps(w, m, own);
    case AddObject(h, keep, data) => AddObjectKeeps(w, h, keep, data, own);
    case Uncache(h) =>
    case Expire(h) => ExpireKeeps(w, h, own);
    case LoadObject(h) => LoadObjectKeeps(w, h, own);
    case Work => WorkKeeps(w, own);
  }

  /** Contents stay their messages' own exactly if the step hands out no id that is in use
      for another content. */
  lemma NextKeepsOwnIff(w: World, e: Event)
    requires Inv(w, true) && Enabled(w, e)
    ensures Inv(Next(w, e), true) <==> KeepsContents(w, e)
  {
    if KeepsContents(w, e) {
      NextKeeps(w, e, true);
    } else {
      var m :| m in w.msgs && w.msgs[m].id == w.nextContent && w.msgs[m].content != Some(e.data);
      SendOverwrites(w, e.recipients, e.data, m);
    }
  }

  // ------------------------------------------------------- what each step changes

  /** What will be in a file once the queue has been worked off. */
  function Finally(w: World, n: Name): Option<Data>
  {
    Lookup(After(w.disk, w.queue), n)
  }

  lemma EnqueueEffect(w: World, op: Op, n: Name)
    ensures Finally(Enqueue(w, op), n) ==
      match op
      case Save(m, data) => if n == m then Some(data) else Finally(w, n)
      case Delete(m) => if n == m then None else Finally(w, n)
      case Load(_, _, _) => Finally(w, n)
  {
    AfterOne(w.disk, w.queue, op);
  }

  /** An acknowledged message's content goes if and only if no message left has its id; every
      other file stays as it is. */
  lemma AcknowledgedEffect(w: World, m: nat, n: Name)
    requires Enabled(w, Acknowledged(m))
    ensures var t := Next(w, Acknowledged(m));
      && t.msgs == w.msgs - {m}
      && Finally(t, n) ==
         if n == Content(w.msgs[m].id) && (forall x :: x in t.msgs ==> t.msgs[x].id != w.msgs[m].id) then None
         else Finally(w, n)
  {
    EnqueueEffect(w.(msgs := w.msgs - {m}), Delete(Content(w.msgs[m].id)), n);
  }

  /** So the content is gone exactly if it was not there before or its last message went. */
  lemma GoneIff(w: World, m: nat)
    requires Enabled(w, Acknowledged(m))
    ensures var t, content := Next(w, Acknowledged(m)), Content(w.msgs[m].id);
      Finally(t, content).None? <==>
      Finally(w, content).None? || forall x :: x in w.msgs && x != m ==> w.msgs[x].id != w.msgs[m].id
  {
    AcknowledgedEffect(w, m, Content(w.msgs[m].id));
    var t := Next(w, Acknowledged(m));
    assert forall x :: x in w.msgs && x != m ==> x in t.msgs && t.msgs[x] == w.msgs[x];
  }

  /** A content that is sent will be in the file of its id, and nothing else changes; its
      messages are as many as the recipients and have that id and content. */
  lemma SendEffect(w: World, recipients: nat, data: Data, n: Name)
    requires Enabled(w, Send(recipients, data)) && forall m :: m in w.msgs ==> m < w.nextMsg
    ensures var t := Next(w, Send(recipients, data));
      && Finally(t, n) == (if n == Content(w.nextContent) then Some(data) else Finally(w, n))
      && t.nextContent == (w.nextContent + 1) % TWO_64
      && (forall m :: m in t.msgs <==> m in w.msgs || w.nextMsg <= m < w.nextMsg + recipients)
      && (forall m :: m in t.msgs ==>
            t.msgs[m] == if m in w.msgs then w.msgs[m] else Message(w.nextContent, Some(data)))
  {
    var id := w.nextContent;
    EnqueueEffect(Bump(w, id).(missing := w.missing - {id}), Save(Content(id), data), n);
    AddedMsgs(SaveContent(w, data), Message(w.nextContent, Some(data)), recipients);
  }

  lemma {:induction false} AddedMsgs(w: World, msg: Message, n: nat)
    requires forall m :: m in w.msgs ==> m < w.nextMsg
    ensures var t := AddMsgs(w, msg, n);
      && t.disk == w.disk && t.queue == w.queue && t.nextContent == w.nextContent
      && (forall m :: m in t.msgs <==> m in w.msgs || w.nextMsg <= m < w.nextMsg + n)
      && (forall m :: m in t.msgs ==> t.msgs[m] == if m in w.msgs then w.msgs[m] else msg)
    decreases n
  {
    if n > 0 {
      AddedMsgs(w.(msgs := w.msgs[w.nextMsg := msg], nextMsg := w.nextMsg + 1), msg, n - 1);
    }
  }

  /** An object that is added will be in its file, and one that expires will not; nothing else
      changes. */
  lemma ObjectEffect(w: World, e: Event, n: Name)
    requires (e.AddObject? || e.Expire?) && Enabled(w, e)
    ensures Finally(Next(w, e), n) ==
      if e.AddObject? && n == Object(e.hash) then Some(e.blob)
      else if e.Expire? && n == Object(e.hash) then None
      else Finally(w, n)
    ensures e.hash in Next(w, e).accepted <==> e.AddObject?
  {
    if e.AddObject? {
      EnqueueEffect(w.(accepted := w.accepted[e.hash := Kept(e.keep, e.blob)]), Save(Object(e.hash), e.blob), n);
    } else {
      EnqueueEffect(w.(accepted := w.accepted - {e.hash}), Delete(Object(e.hash)), n);
    }
  }

  /** Removing unused contents at startup removes exactly those. */
  lemma CleanUpEffect(w: World, drop: set<nat>, n: Name)
    requires Inv(w, false) && Enabled(w, CleanUp(drop))
    ensures Finally(Next(w, CleanUp(drop)), n) == if n.Content? && n.id in drop then None else Finally(w, n)
  {
    CleanUpKeeps(w, drop, false);
    BootLoads(w);
    BootLoads(CleanUpDisk(w, drop));
  }

  /** No other step changes what will be on disk: not the store's thread, which only brings it
      about, and not the loads. */
  lemma OtherEffect(w: World, e: Event, n: Name)
    requires Enabled(w, e) && !e.Acknowledged? && !e.Send? && !e.AddObject? && !e.Expire? && !e.CleanUp?
    ensures Finally(Next(w, e), n) == Finally(w, n)
  {
    match e
    case LoadContent(m) => EnqueueEffect(w, ContentLoad(w, m), n);
    case LoadObject(h) => EnqueueEffect(w, Load(Object(h), true, Some(w.accepted[h].data)), n);
    case _ =>
  }

  /** A message or an object that is loaded asks for its own file, behind all that is queued. */
  lemma LoadEffect(w: World, e: Event)
    requires (e.LoadContent? || e.LoadObject?) && Enabled(w, e)
    ensures Next(w, e).queue[..|w.queue|] == w.queue && |Next(w, e).queue| == |w.queue| + 1
    ensures var op := Next(w, e).queue[|w.queue|];
      op.Load? && op.name == if e.LoadContent? then Content(w.msgs[e.msg].id) else Object(e.hash)
  {
  }

  // --------------------------------------------------------------- every run

  predicate Reaches(w: World, events: seq<Event>, last: World)
    decreases |events|
  {
    if events == [] then last == w
    else Enabled(w, events[0]) && Reaches(Next(w, events[0]), events[1..], last)
  }

  lemma {:induction false} RunKeeps(w: World, events: seq<Event>, last: World)
    requires Inv(w, false) && Reaches(w, events, last)
    ensures Inv(last, false)
    decreases |events|
  {
    if events != [] {
      NextKeeps(w, events[0], false);
      RunKeeps(Next(w, events[0]), events[1..], last);
    }
  }

  /** In every run, from any disk, whatever the counter does: when the store comes to a load,
      the file is there exactly if it was not missing when it was asked for. */
  lemma EveryLoadFinds(disk: map<Name, Data>, events: seq<Event>, last: World)
    requires Reaches(Start(disk), events, last)
    requires last.queue != [] && last.queue[0].Load?
    ensures last.queue[0].name in last.disk <==> last.queue[0].there
  {
    RunKeeps(Start(disk), events, last);
    assert LoadDue(last.disk, last.queue, false, 0);
  }

  /** The last task before a position that saves or deletes a name. */
  function LastChange(ops: seq<Op>, n: Name): Option<Op>
  {
    if ops == [] then None
    else
      var op := ops[|ops| - 1];
      if (op.Save? || op.Delete?) && op.name == n then Some(op) else LastChange(ops[..|ops| - 1], n)
  }

  lemma {:induction false} LastChangeDecides(disk: map<Name, Data>, ops: seq<Op>, n: Name)
    ensures Lookup(After(disk, ops), n) ==
      match LastChange(ops, n)
      case None => Lookup(disk, n)
      case Some(op) => if op.Save? then Some(op.data) else None
    decreases |ops|
  {
    if ops != [] {
      var front := ops[..|ops| - 1];
      LastChangeDecides(disk, front, n);
      assert ops == front + [ops[|ops| - 1]];
      AfterOne(disk, front, ops[|ops| - 1]);
    }
  }

  /** For every load in the queue that counts on a file, the last earlier task that saves or
      deletes that file is a save, or there is none and the file is there already. */
  lemma EveryLoadIsPreceded(disk: map<Name, Data>, events: seq<Event>, last: World, k: nat)
    requires Reaches(Start(disk), events, last)
    requires k < |last.queue| && last.queue[k].Load? && last.queue[k].there
    ensures match LastChange(last.queue[..k], last.queue[k].name)
      case None => last.queue[k].name in last.disk
      case Some(op) => op.Save?
  {
    RunKeeps(Start(disk), events, last);
    assert LoadDue(last.disk, last.queue, false, k);
    LastChangeDecides(last.disk, last.queue[..k], last.queue[k].name);
  }

  // ---------------------------------------------------------------- in place

  /** A load and what it has found. */
  datatype Finding = Finding(load: Op, got: Option<Data>)

  /** The queue and the files that its tasks change. */
  class Store {
    var disk: map<Name, Data>
    var queue: seq<Op>
    /** What the loads have found. */
    var found: seq<Finding>

    constructor (disk: map<Name, Data>)
      ensures this.disk == disk && queue == [] && found == []
    {
      this.disk, queue, found := disk, [], [];
    }

    /** new_task */
    method NewTask(op: Op)
      modifies this`queue
      ensures queue == old(queue) + [op]
    {
      queue := queue + [op];
    }

    /** The loop of store_thread_func until the queue is empty: the files are those after all
        tasks in order, and each load has found what the tasks before it left. */
    method StoreThread()
      modifies this
      ensures queue == [] && disk == After(old(disk), old(queue))
      ensures found == old(found) + Findings(old(disk), old(queue))
    {
      assert found + Findings(disk, queue) == old(found) + Findings(old(disk), old(queue));
      while queue != []
        invariant After(disk, queue) == After(old(disk), old(queue))
        invariant found + Findings(disk, queue) == old(found) + Findings(old(disk), old(queue))
        decreases |queue|
      {
        var op := queue[0];
        ghost var more := Findings(Apply(disk, op), queue[1..]);
        queue := queue[1..];
        match op {
          case Save(n, data) =>
            assert [] + more == more;
            disk := disk[n := data];
          case Delete(n) =>
            assert [] + more == more;
            disk := disk - {n};
          case Load(n, _, _) =>
            var finding := Finding(op, if n in disk then Some(disk[n]) else None);
            assert found + ([finding] + more) == found + [finding] + more;
            found := found + [finding];
        }
      }
      assert found + [] == found;
    }
  }

  function Findings(disk: map<Name, Data>, ops: seq<Op>): seq<Finding>
    decreases |ops|
  {
    if ops == [] then []
    else (if ops[0].Load? then [Finding(ops[0], Lookup(disk, ops[0].name))] else []) + Findings(Apply(disk, ops[0]), ops[1..])
  }

  ghost predicate Satisfied(f: Finding, own: bool)
  {
    f.load.Load? && Agrees(f.got, f.load.there, f.load.want, own)
  }

  lemma {:induction false} FindingsDue(disk: map<Name, Data>, ops: seq<Op>, own: bool)
    requires LoadsDue(disk, ops, own)
    ensures forall f :: f in Findings(disk, ops) ==> Satisfied(f, own)
    decreases |ops|
  {
    if ops != [] {
      assert LoadDue(disk, ops, own, 0);
      LoadsWork(disk, ops, own);
      FindingsDue(Apply(disk, ops[0]), ops[1..], own);
    }
  }

  /** Whenever the store works off its queue, every load finds a file exactly if it counts
      on one. */
  lemma AllLoadsFind(disk: map<Name, Data>, events: seq<Event>, last: World)
    requires Reaches(Start(disk), events, last)
    ensures forall f :: f in Findings(last.disk, last.queue) ==> Satisfied(f, false)
  {
    RunKeeps(Start(disk), events, last);
    FindingsDue(last.disk, last.queue, false);
  }
}
