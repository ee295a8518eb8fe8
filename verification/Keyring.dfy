/** Outgoing messages: each goes through ten states, driven by the callbacks of tasks that
    run elsewhere, by objects that arrive and by timers. Every callback is one step. */
module Keyring {
  import opened Bytes
  import opened PubkeyIndex
  import Inventory
  import Proto

  datatype MState =
    | GeneratingAckdata | LoadingPubkeyFromStore | TryingBlob | CalculatingGetpubkeyPow | AwaitingPubkey
    | LoadingContent | CalculatingAckdataPow | CreateMsgBlob | CalculatingMsgPow | AwaitingAcknowledgement

  /** Which of a message's three cookies a state uses. */
  datatype Slot = Crypto | Pow | Store | Nothing

  function SlotOf(s: MState): Slot
  {
    match s
    case GeneratingAckdata => Crypto
    case LoadingPubkeyFromStore => Store
    case TryingBlob => Crypto
    case CalculatingGetpubkeyPow => Pow
    case AwaitingPubkey => Nothing
    case LoadingContent => Store
    case CalculatingAckdataPow => Pow
    case CreateMsgBlob => Crypto
    case CalculatingMsgPow => Pow
    case AwaitingAcknowledgement => Nothing
  }

  datatype Message = Message(
    state: MState,
    key: Key,
    toKey: bool,
    ackdata: seq<byte>,
    crypto: Option<nat>,
    pow: Option<nat>,
    store: Option<nat>,
    blob: bool,
    trying: Option<Entry>)

  /** A task under way, named by its cookie: the state it was started for, which tells its
      callback, and its message. */
  datatype Task = Task(purpose: MState, msg: nat)

  /** Messages are named in the order in which they are put at the end of the list of
      messages, so the list is that of the names in `msgs` in ascending order. `fault` is set
      by anything a C program must not do: a callback for a message that is gone, an absent
      blob, key or pubkey entry followed, a reference to a freed entry. */
  datatype World = World(
    msgs: map<nat, Message>,
    tasks: map<nat, Task>,
    list: seq<Entry>,
    table: map<Key, Entry>,
    refs: map<Entry, int>,
    next: nat,
    fault: bool)

  const START := World(map[], map[], [], map[], map[], 0, false)

  /** Where the network has an object. */
  type Locator = Hash -> Inventory.Location

  // ------------------------------------------------------------- the program

  function Cookie(m: Message, slot: Slot): Option<nat>
  {
    match slot
    case Crypto => m.crypto
    case Pow => m.pow
    case Store => m.store
    case Nothing => None
  }

  function WithCookie(m: Message, slot: Slot, c: Option<nat>): Message
  {
    match slot
    case Crypto => m.(crypto := c)
    case Pow => m.(pow := c)
    case Store => m.(store := c)
    case Nothing => m
  }

  function Put(w: World, i: nat, m: Message): World
  {
    w.(msgs := w.msgs[i := m])
  }

  /** Starts the work of a state and keeps its cookie. */
  function Begin(w: World, i: nat, s: MState): World
    requires i in w.msgs
  {
    var m := WithCookie(w.msgs[i].(state := s), SlotOf(s), Some(w.next));
    w.(msgs := w.msgs[i := m], tasks := w.tasks[w.next := Task(s, i)], next := w.next + 1)
  }

  function Wait(w: World, i: nat, s: MState): World
    requires i in w.msgs
  {
    Put(w, i, w.msgs[i].(state := s))
  }

  /** unref_pubkey_blob */
  function Unref(w: World, e: Entry): World
  {
    if e !in w.refs then w.(fault := true)
    else if w.refs[e] - 1 <= 0 then w.(refs := w.refs - {e})
    else w.(refs := w.refs[e := w.refs[e] - 1])
  }

  function Ref(w: World, e: Entry): World
  {
    if e !in w.refs then w.(fault := true) else w.(refs := w.refs[e := w.refs[e] + 1])
  }

  function UnrefTrying(w: World, i: nat): World
    requires i in w.msgs
  {
    var t := w.msgs[i].trying;
    if t.None? then w else Put(Unref(w, t.value), i, w.msgs[i].(trying := None))
  }

  function Held(m: Message): set<nat>
  {
    (if m.crypto.Some? then {m.crypto.value} else {}) +
    (if m.pow.Some? then {m.pow.value} else {}) +
    (if m.store.Some? then {m.store.value} else {})
  }

  /** cancel_message_tasks */
  function Cancel(w: World, i: nat): World
    requires i in w.msgs
  {
    var m := w.msgs[i];
    var w1 := w.(tasks := w.tasks - Held(m),
                 msgs := w.msgs[i := m.(crypto := None, pow := None, store := None, blob := false)]);
    UnrefTrying(w1, i)
  }

  function Drop(w: World, i: nat): World
  {
    w.(msgs := w.msgs - {i})
  }

  /** free_message */
  function Free(w: World, i: nat): World
    requires i in w.msgs
  {
    Drop(Cancel(w, i), i)
  }

  /** remove_pubkey_blob */
  function RemoveBlob(w: World, e: Entry): World
  {
    if e !in w.list then w
    else
      var p := PosOf(w.list, e);
      Unref(w.(list := RemovedAt(w.list, p), table := TableWithout(w.list, w.table, p)), e)
  }

  /** send_getpubkey_request; `recent` says that the last one is still in the network. */
  function SendGetpubkey(w: World, i: nat, recent: bool): World
    requires i in w.msgs
  {
    if recent then Wait(w, i, AwaitingPubkey)
    else Begin(Put(w, i, w.msgs[i].(blob := true)), i, CalculatingGetpubkeyPow)
  }

  /** post_message */
  function PostMessage(w: World, i: nat, recent: bool): World
    requires i in w.msgs
  {
    if recent then Wait(w, i, AwaitingAcknowledgement) else Begin(w, i, LoadingContent)
  }

  function SetTrying(w: World, i: nat, e: Entry): World
    requires i in w.msgs
  {
    var w1 := UnrefTrying(w, i);
    Ref(Put(w1, i, w1.msgs[i].(trying := Some(e))), e)
  }

  /** try_pubkey_blob_for_message, and whether it could be tried. */
  function TryBlob(w: World, i: nat, e: Entry, where: Locator): (r: (World, bool))
    requires i in w.msgs
    ensures i in r.0.msgs
  {
    var w1 := SetTrying(w, i, e);
    match where(e.hash)
    case Nowhere => (w1, false)
    case OnDisk => (Begin(w1, i, LoadingPubkeyFromStore), true)
    case Memory => (Begin(w1, i, TryingBlob), true)
  }

  function TryAll(w: World, i: nat, group: seq<Entry>, where: Locator): (r: (World, bool))
    requires i in w.msgs
    ensures i in r.0.msgs
    decreases |group|
  {
    if group == [] then (w, false)
    else
      var r := TryBlob(w, i, group[0], where);
      if r.1 then r else TryAll(r.0, i, group[1..], where)
  }

  /** load_public_key_for_message; its loop goes through the group of the message's key. */
  function LoadPublicKey(w: World, i: nat, where: Locator, recent: bool): World
    requires i in w.msgs
  {
    var r := TryAll(w, i, Group(w.list, w.msgs[i].key), where);
    if r.1 then r.0 else SendGetpubkey(r.0, i, recent)
  }

  /** A pubkey that turned out bad is removed and the next one is tried. */
  function NextPubkey(w: World, i: nat, where: Locator, recent: bool): World
    requires i in w.msgs
  {
    if w.msgs[i].trying.None? || w.msgs[i].trying.value !in w.refs then w.(fault := true)
    else LoadPublicKey(RemoveBlob(w, w.msgs[i].trying.value), i, where, recent)
  }

  function FindKeyOrPost(w: World, i: nat, where: Locator, recent: bool): World
    requires i in w.msgs
  {
    if !w.msgs[i].toKey then LoadPublicKey(w, i, where, recent) else PostMessage(w, i, recent)
  }

  /** The callback of a task, once the message has dropped its cookie. `ok` says whether it
      was given an object or a key. */
  function Callback(w: World, i: nat, purpose: MState, ok: bool, where: Locator, recent: bool): World
    requires i in w.msgs
  {
    var m := w.msgs[i];
    match purpose
    case GeneratingAckdata => FindKeyOrPost(w, i, where, recent)
    case LoadingPubkeyFromStore =>
      if ok then Begin(w, i, TryingBlob) else NextPubkey(w, i, where, recent)
    case TryingBlob =>
      if ok then PostMessage(Put(w, i, m.(toKey := true)), i, recent) else NextPubkey(w, i, where, recent)
    case CalculatingGetpubkeyPow =>
      if !m.blob then w.(fault := true) else Put(w, i, m.(blob := false, state := AwaitingPubkey))
    case LoadingContent =>
      if ok then Begin(Put(w, i, m.(blob := true)), i, CalculatingAckdataPow) else Free(w, i)
    case CalculatingAckdataPow =>
      if !m.blob then w.(fault := true) else Begin(w, i, CreateMsgBlob)
    case CreateMsgBlob =>
      if !m.blob || !m.toKey then w.(fault := true) else Begin(w, i, CalculatingMsgPow)
    case CalculatingMsgPow =>
      if !m.blob then w.(fault := true) else Put(w, i, m.(blob := false, state := AwaitingAcknowledgement))
    case AwaitingPubkey => w.(fault := true)
    case AwaitingAcknowledgement => w.(fault := true)
  }

  /** A message that is told that its work has ended; ackdata is what was generated. */
  function Told(m: Message, purpose: MState, ackdata: seq<byte>): Message
  {
    var m' := WithCookie(m, SlotOf(purpose), None);
    if purpose.GeneratingAckdata? then m'.(ackdata := ackdata) else m'
  }

  /** A task ends and its callback runs. */
  function Done(w: World, t: nat, ok: bool, ackdata: seq<byte>, where: Locator, recent: bool): World
    requires t in w.tasks
  {
    var task := w.tasks[t];
    var i := task.msg;
    if i !in w.msgs || Cookie(w.msgs[i], SlotOf(task.purpose)) != Some(t) then w.(fault := true)
    else
      var w1 := w.(tasks := w.tasks - {t}, msgs := w.msgs[i := Told(w.msgs[i], task.purpose, ackdata)]);
      Callback(w1, i, task.purpose, ok, where, recent)
  }

  /** check_pubkey_blob_with_messages, for one message. */
  function Interrupt(w: World, i: nat, e: Entry, where: Locator): World
  {
    if Asks(w, i, e) then TryBlob(Cancel(w, i), i, e, where).0 else w
  }

  function InterruptAll(w: World, order: seq<nat>, e: Entry, where: Locator): World
    decreases |order|
  {
    if order == [] then w else InterruptAll(Interrupt(w, order[0], e, where), order[1..], e, where)
  }

  /** The new entry of handle_pubkey. */
  function AddEntry(w: World, e: Entry): World
  {
    w.(list := InsertedAt(w.list, InsertPos(w.list, e.key), e),
       table := if e.key in w.table then w.table else w.table[e.key := e],
       refs := w.refs[e := 1], next := w.next + 1)
  }

  function NewMessage(w: World, key: Key, toKey: bool, ackdata: seq<byte>): World
  {
    w.(msgs := w.msgs[w.next := Message(GeneratingAckdata, key, toKey, ackdata, None, None, None, false, None)],
       next := w.next + 1)
  }

  /** The list of messages, up to a name. */
  function Order(msgs: map<nat, Message>, n: nat): (r: seq<nat>)
    ensures forall i :: i in r <==> i in msgs && i < n
  {
    if n == 0 then [] else Order(msgs, n - 1) + (if n - 1 in msgs then [n - 1] else [])
  }

  /** handle_pubkey */
  function HandlePubkey(w: World, key: Key, hash: Hash, timestamp: int, where: Locator): World
  {
    var e := Entry(w.next, key, hash, timestamp);
    InterruptAll(AddEntry(w, e), Order(w.msgs, w.next), e, where)
  }

  /** What check_msg_acknowledgement looks for. */
  predicate Acknowledges(m: Message, content: seq<byte>)
  {
    |content| == Proto.ACKDATA_SIZE && !m.state.GeneratingAckdata? && m.ackdata == content
  }

  /** The first message from a name on that an acknowledgement is for. */
  function FindFrom(w: World, i: nat, content: seq<byte>): (r: Option<nat>)
    ensures r.Some? ==> i <= r.value < w.next && r.value in w.msgs && Acknowledges(w.msgs[r.value], content)
    decreases w.next - i
  {
    if i >= w.next then None
    else if i in w.msgs && Acknowledges(w.msgs[i], content) then Some(i)
    else FindFrom(w, i + 1, content)
  }

  /** check_msg_acknowledgement */
  function CheckAcknowledgement(w: World, content: seq<byte>): World
  {
    var i := FindFrom(w, 0, content);
    if i.None? then w else Free(w, i.value)
  }

  // ------------------------------------------------------------------- steps

  datatype Event =
    | Send(key: Key, toKey: bool)
    | Restore(key: Key, toKey: bool, ackdata: seq<byte>, where: Locator, recent: bool)
    | End(task: nat, ok: bool, ackdata: seq<byte>, where: Locator, recent: bool)
    | NewPubkey(key: Key, hash: Hash, timestamp: int, where: Locator)
    | Received(content: seq<byte>)
    | Expire(entry: Entry)
    | Resend(msg: nat, recent: bool)

  /** A pubkey that the network has, or that no message calculates a request for. */
  ghost predicate Available(w: World, key: Key, hash: Hash, where: Locator)
  {
    where(hash).Nowhere? ==>
      forall i :: i in w.msgs && w.msgs[i].key == key ==> !w.msgs[i].state.CalculatingGetpubkeyPow?
  }

  ghost predicate Enabled(w: World, e: Event)
  {
    match e
    case Send(_, _) => true
    case Restore(_, _, _, _, _) => true
    case End(t, _, _, _, _) => t in w.tasks
    case NewPubkey(_, _, _, _) => true
    case Received(_) => true
    case Expire(_) => true
    case Resend(i, _) => i in w.msgs
  }

  function ResendOne(w: World, i: nat, recent: bool): World
    requires i in w.msgs
  {
    if w.msgs[i].state.AwaitingPubkey? then SendGetpubkey(w, i, recent)
    else if w.msgs[i].state.AwaitingAcknowledgement? then PostMessage(w, i, recent)
    else w
  }

  ghost function Next(w: World, e: Event): World
    requires Enabled(w, e)
  {
    match e
    case Send(key, toKey) => Begin(NewMessage(w, key, toKey, []), w.next, GeneratingAckdata)
    case Restore(key, toKey, ackdata, where, recent) =>
      FindKeyOrPost(NewMessage(w, key, toKey, ackdata), w.next, where, recent)
    case End(t, ok, ackdata, where, recent) => Done(w, t, ok, ackdata, where, recent)
    case NewPubkey(key, hash, timestamp, where) => HandlePubkey(w, key, hash, timestamp, where)
    case Received(content) => CheckAcknowledgement(w, content)
    case Expire(entry) => RemoveBlob(w, entry)
    case Resend(i, recent) => ResendOne(w, i, recent)
  }

  // ------------------------------------------------------------- what is kept

  predicate NeedsBlob(s: MState)
  {
    s.CalculatingGetpubkeyPow? || s.CalculatingAckdataPow? || s.CreateMsgBlob? || s.CalculatingMsgPow?
  }

  /** From here on the recipient's key is known. */
  predicate KnowsKey(s: MState)
  {
    s.LoadingContent? || s.CalculatingAckdataPow? || s.CreateMsgBlob? || s.CalculatingMsgPow?
    || s.AwaitingAcknowledgement?
  }

  predicate SeeksKey(s: MState)
  {
    s.LoadingPubkeyFromStore? || s.TryingBlob? || s.CalculatingGetpubkeyPow? || s.AwaitingPubkey?
  }

  predicate Tries(s: MState)
  {
    s.LoadingPubkeyFromStore? || s.TryingBlob?
  }

  /** The parts of a message that its state calls for, apart from its cookies. */
  ghost predicate PartsOk(m: Message, s: MState)
  {
    && m.blob == NeedsBlob(s)
    && (KnowsKey(s) ==> m.toKey) && (SeeksKey(s) ==> !m.toKey)
    && (Tries(s) ==> m.trying.Some?) && (s.GeneratingAckdata? ==> m.trying.None?)
    && TryingOk(m)
  }

  ghost predicate TryingOk(m: Message)
  {
    m.trying.Some? ==> m.trying.value.key == m.key
  }

  /** Exactly the one cookie that the state calls for. */
  ghost predicate CookiesOk(m: Message)
  {
    && (m.crypto.Some? <==> SlotOf(m.state) == Crypto)
    && (m.pow.Some? <==> SlotOf(m.state) == Pow)
    && (m.store.Some? <==> SlotOf(m.state) == Store)
  }

  ghost predicate Bare(m: Message)
  {
    m.crypto.None? && m.pow.None? && m.store.None?
  }

  /** The cookie is that of a task under way for this very message and state. */
  ghost predicate MsgFine(msgs: map<nat, Message>, tasks: map<nat, Task>, i: nat)
    requires i in msgs
  {
    var m := msgs[i];
    && CookiesOk(m) && PartsOk(m, m.state)
    && (SlotOf(m.state) != Nothing ==>
        var c := Cookie(m, SlotOf(m.state)).value;
        c in tasks && tasks[c] == Task(m.state, i))
  }

  /** A task under way belongs to a message that is in its state and has its cookie. */
  ghost predicate TaskFine(msgs: map<nat, Message>, tasks: map<nat, Task>, t: nat)
    requires t in tasks
  {
    var i := tasks[t].msg;
    && i in msgs && msgs[i].state == tasks[t].purpose
    && Cookie(msgs[i], SlotOf(msgs[i].state)) == Some(t)
  }

  /** Messages and tasks match, except for a message that is between two tasks. */
  ghost predicate Matched(msgs: map<nat, Message>, tasks: map<nat, Task>, skip: Option<nat>)
  {
    && (forall i {:trigger i in msgs} :: i in msgs && skip != Some(i) ==> MsgFine(msgs, tasks, i))
    && (forall t {:trigger t in tasks} :: t in tasks ==> skip != Some(tasks[t].msg) && TaskFine(msgs, tasks, t))
    && (skip.Some? ==> skip.value in msgs && Bare(msgs[skip.value]) && TryingOk(msgs[skip.value]))
  }

  /** The messages that try an entry. */
  ghost function Triers(msgs: map<nat, Message>, e: Entry): set<nat>
  {
    set i | i in msgs && msgs[i].trying == Some(e)
  }

  ghost function Holders(msgs: map<nat, Message>, list: seq<Entry>, e: Entry): nat
  {
    (if e in list then 1 else 0) + |Triers(msgs, e)|
  }

  /** An entry is allocated while the list or a message holds it, and its count is the
      number of holders. */
  ghost predicate RefAt(msgs: map<nat, Message>, list: seq<Entry>, refs: map<Entry, int>, e: Entry)
  {
    && (e in refs <==> Holders(msgs, list, e) > 0)
    && (e in refs ==> refs[e] == Holders(msgs, list, e))
  }

  ghost predicate RefsOk(msgs: map<nat, Message>, list: seq<Entry>, refs: map<Entry, int>)
  {
    forall e {:trigger RefAt(msgs, list, refs, e)} :: RefAt(msgs, list, refs, e)
  }

  /** Names are handed out once. */
  ghost predicate Named(w: World)
  {
    && (forall t :: t in w.tasks ==> t < w.next)
    && (forall i :: i in w.msgs ==> i < w.next)
    && (forall e :: e in w.refs ==> e.id < w.next)
  }

  ghost predicate InvBut(w: World, skip: Option<nat>)
  {
    && Matched(w.msgs, w.tasks, skip)
    && Valid(w.list, w.table)
    && RefsOk(w.msgs, w.list, w.refs)
    && Named(w)
    && !w.fault
  }

  ghost predicate Inv(w: World)
  {
    InvBut(w, None)
  }

  // ----------------------------------------------------- messages and tasks

  lemma BeginMatches(msgs: map<nat, Message>, tasks: map<nat, Task>, i: nat, s: MState, next: nat)
    requires Matched(msgs, tasks, Some(i)) && next !in tasks && SlotOf(s) != Nothing && PartsOk(msgs[i], s)
    ensures Matched(msgs[i := WithCookie(msgs[i].(state := s), SlotOf(s), Some(next))], tasks[next := Task(s, i)], None)
  {
    var m := WithCookie(msgs[i].(state := s), SlotOf(s), Some(next));
    var msgs', tasks' := msgs[i := m], tasks[next := Task(s, i)];
    assert MsgFine(msgs', tasks', i);
    forall j | j in msgs' && j != i ensures MsgFine(msgs', tasks', j) {
      assert MsgFine(msgs, tasks, j);
    }
    forall t | t in tasks' ensures TaskFine(msgs', tasks', t) {
      assert t != next ==> TaskFine(msgs, tasks, t);
    }
  }

  lemma WaitMatches(msgs: map<nat, Message>, tasks: map<nat, Task>, i: nat, m: Message)
    requires Matched(msgs, tasks, Some(i)) && SlotOf(m.state) == Nothing && Bare(m) && PartsOk(m, m.state)
    ensures Matched(msgs[i := m], tasks, None)
  {
    var msgs' := msgs[i := m];
    forall j | j in msgs' && j != i ensures MsgFine(msgs', tasks, j) {
      assert MsgFine(msgs, tasks, j);
    }
    forall t | t in tasks ensures TaskFine(msgs', tasks, t) {
      assert TaskFine(msgs, tasks, t);
    }
  }

  lemma ChangeMatches(msgs: map<nat, Message>, tasks: map<nat, Task>, i: nat, m: Message)
    requires Matched(msgs, tasks, Some(i)) && Bare(m) && TryingOk(m)
    ensures Matched(msgs[i := m], tasks, Some(i))
  {
    var msgs' := msgs[i := m];
    forall j | j in msgs' && j != i ensures MsgFine(msgs', tasks, j) {
      assert MsgFine(msgs, tasks, j);
    }
    forall t | t in tasks ensures TaskFine(msgs', tasks, t) {
      assert TaskFine(msgs, tasks, t);
    }
  }

  lemma DropMatches(msgs: map<nat, Message>, tasks: map<nat, Task>, i: nat)
    requires Matched(msgs, tasks, Some(i))
    ensures Matched(msgs - {i}, tasks, None)
  {
    var msgs' := msgs - {i};
    forall j | j in msgs' ensures MsgFine(msgs', tasks, j) {
      assert MsgFine(msgs, tasks, j);
    }
    forall t | t in tasks ensures TaskFine(msgs', tasks, t) {
      assert TaskFine(msgs, tasks, t);
    }
  }

  lemma AddMatches(msgs: map<nat, Message>, tasks: map<nat, Task>, i: nat, m: Message)
    requires Matched(msgs, tasks, None) && i !in msgs && Bare(m) && TryingOk(m)
    ensures Matched(msgs[i := m], tasks, Some(i))
  {
    var msgs' := msgs[i := m];
    forall j | j in msgs' && j != i ensures MsgFine(msgs', tasks, j) {
      assert MsgFine(msgs, tasks, j);
    }
    forall t | t in tasks ensures tasks[t].msg != i && TaskFine(msgs', tasks, t) {
      assert TaskFine(msgs, tasks, t);
    }
  }

  /** Giving up the cookie of a message, whose task has ended or is cancelled. */
  lemma ReleaseMatches(msgs: map<nat, Message>, tasks: map<nat, Task>, i: nat, m: Message)
    requires Matched(msgs, tasks, None) && i in msgs && Bare(m) && TryingOk(m)
    ensures Matched(msgs[i := m], tasks - Held(msgs[i]), Some(i))
  {
    var msgs', tasks' := msgs[i := m], tasks - Held(msgs[i]);
    assert MsgFine(msgs, tasks, i);
    forall t | t in tasks' ensures tasks[t].msg != i && TaskFine(msgs', tasks', t) {
      assert TaskFine(msgs, tasks, t);
    }
    forall j | j in msgs' && j != i ensures MsgFine(msgs', tasks', j) {
      assert MsgFine(msgs, tasks, j);
      HeldApart(msgs, tasks, i, j);
    }
  }

  lemma HeldApart(msgs: map<nat, Message>, tasks: map<nat, Task>, i: nat, j: nat)
    requires Matched(msgs, tasks, None) && i in msgs && j in msgs && i != j
    ensures Held(msgs[i]) !! Held(msgs[j])
  {
    assert MsgFine(msgs, tasks, i) && MsgFine(msgs, tasks, j);
  }

  // --------------------------------------------------------------- references

  lemma TriersPut(msgs: map<nat, Message>, i: nat, m: Message, e: Entry)
    ensures Triers(msgs[i := m], e) ==
      if m.trying == Some(e) then Triers(msgs, e) + {i} else Triers(msgs, e) - {i}
  {
  }

  lemma TriersDrop(msgs: map<nat, Message>, i: nat, e: Entry)
    ensures Triers(msgs - {i}, e) == Triers(msgs, e) - {i}
  {
  }

  /** Changing a message without touching what it tries. */
  lemma RefsPut(msgs: map<nat, Message>, list: seq<Entry>, refs: map<Entry, int>, i: nat, m: Message)
    requires RefsOk(msgs, list, refs) && m.trying == (if i in msgs then msgs[i].trying else None)
    ensures RefsOk(msgs[i := m], list, refs)
  {
    var msgs' := msgs[i := m];
    forall e ensures RefAt(msgs', list, refs, e) {
      assert RefAt(msgs, list, refs, e);
      TriersPut(msgs, i, m, e);
      assert Triers(msgs', e) == Triers(msgs, e);
    }
  }

  lemma RefsDrop(msgs: map<nat, Message>, list: seq<Entry>, refs: map<Entry, int>, i: nat)
    requires RefsOk(msgs, list, refs) && i in msgs && msgs[i].trying.None?
    ensures RefsOk(msgs - {i}, list, refs)
  {
    var msgs' := msgs - {i};
    forall e ensures RefAt(msgs', list, refs, e) {
      assert RefAt(msgs, list, refs, e);
      TriersDrop(msgs, i, e);
      assert Triers(msgs', e) == Triers(msgs, e);
    }
  }

  function Less(refs: map<Entry, int>, e: Entry): map<Entry, int>
    requires e in refs
  {
    if refs[e] - 1 <= 0 then refs - {e} else refs[e := refs[e] - 1]
  }

  /** A message gives up what it tries. */
  lemma RefsUntry(msgs: map<nat, Message>, list: seq<Entry>, refs: map<Entry, int>, i: nat, m: Message)
    requires RefsOk(msgs, list, refs) && i in msgs && msgs[i].trying.Some? && m.trying.None?
    ensures msgs[i].trying.value in refs
    ensures RefsOk(msgs[i := m], list, Less(refs, msgs[i].trying.value))
  {
    var tried := msgs[i].trying.value;
    assert RefAt(msgs, list, refs, tried);
    assert i in Triers(msgs, tried);
    var msgs', refs' := msgs[i := m], Less(refs, tried);
    forall e ensures RefAt(msgs', list, refs', e) {
      assert RefAt(msgs, list, refs, e);
      TriersPut(msgs, i, m, e);
      if e == tried {
        assert |Triers(msgs, e) - {i}| == |Triers(msgs, e)| - 1;
      } else {
        assert Triers(msgs', e) == Triers(msgs, e);
      }
    }
  }

  /** A message that tries nothing takes up an entry of the list. */
  lemma RefsTry(msgs: map<nat, Message>, list: seq<Entry>, refs: map<Entry, int>, i: nat, m: Message, added: Entry)
    requires RefsOk(msgs, list, refs) && i in msgs && msgs[i].trying.None? && m.trying == Some(added) && added in list
    ensures added in refs && RefsOk(msgs[i := m], list, refs[added := refs[added] + 1])
  {
    assert RefAt(msgs, list, refs, added);
    assert i !in Triers(msgs, added);
    var msgs', refs' := msgs[i := m], refs[added := refs[added] + 1];
    forall e ensures RefAt(msgs', list, refs', e) {
      assert RefAt(msgs, list, refs, e);
      TriersPut(msgs, i, m, e);
      if e == added {
        assert |Triers(msgs, e) + {i}| == |Triers(msgs, e)| + 1;
      } else {
        assert Triers(msgs', e) == Triers(msgs, e);
      }
    }
  }

  lemma RemovedMembers(list: seq<Entry>, p: nat, e: Entry)
    requires DistinctIds(list) && p < |list|
    ensures e in RemovedAt(list, p) <==> e in list && e != list[p]
  {
    var r := RemovedAt(list, p);
    if e in list && e != list[p] {
      var q :| 0 <= q < |list| && list[q] == e;
      assert r[if q < p then q else q - 1] == e;
    }
  }

  lemma RefsRemove(msgs: map<nat, Message>, list: seq<Entry>, refs: map<Entry, int>, p: nat)
    requires RefsOk(msgs, list, refs) && DistinctIds(list) && p < |list|
    ensures list[p] in refs && RefsOk(msgs, RemovedAt(list, p), Less(refs, list[p]))
  {
    assert RefAt(msgs, list, refs, list[p]);
    var list', refs' := RemovedAt(list, p), Less(refs, list[p]);
    forall e ensures RefAt(msgs, list', refs', e) {
      assert RefAt(msgs, list, refs, e);
      RemovedMembers(list, p, e);
    }
  }

  lemma RefsInsert(msgs: map<nat, Message>, list: seq<Entry>, refs: map<Entry, int>, p: nat, added: Entry)
    requires RefsOk(msgs, list, refs) && p <= |list| && added !in refs
    ensures RefsOk(msgs, InsertedAt(list, p, added), refs[added := 1])
  {
    assert RefAt(msgs, list, refs, added);
    var list', refs' := InsertedAt(list, p, added), refs[added := 1];
    forall e ensures RefAt(msgs, list', refs', e) {
      assert RefAt(msgs, list, refs, e);
      assert e in list' <==> e == added || e in list by {
        assert list == list[..p] + list[p..];
      }
    }
  }

  // -------------------------------------------------------------- operations

  lemma BeginKeeps(w: World, i: nat, s: MState)
    requires InvBut(w, Some(i)) && SlotOf(s) != Nothing && PartsOk(w.msgs[i], s)
    ensures Inv(Begin(w, i, s))
  {
    BeginMatches(w.msgs, w.tasks, i, s, w.next);
    RefsPut(w.msgs, w.list, w.refs, i, Begin(w, i, s).msgs[i]);
  }

  lemma PutKeeps(w: World, i: nat, m: Message)
    requires InvBut(w, Some(i)) && Bare(m) && TryingOk(m) && m.trying == w.msgs[i].trying
    ensures InvBut(Put(w, i, m), Some(i))
  {
    ChangeMatches(w.msgs, w.tasks, i, m);
    RefsPut(w.msgs, w.list, w.refs, i, m);
  }

  lemma SettleKeeps(w: World, i: nat, m: Message)
    requires InvBut(w, Some(i)) && SlotOf(m.state) == Nothing && Bare(m) && PartsOk(m, m.state)
    requires m.trying == w.msgs[i].trying
    ensures Inv(Put(w, i, m))
  {
    WaitMatches(w.msgs, w.tasks, i, m);
    RefsPut(w.msgs, w.list, w.refs, i, m);
  }

  lemma UnrefTryingKeeps(w: World, i: nat)
    requires InvBut(w, Some(i))
    ensures var w' := UnrefTrying(w, i);
      && InvBut(w', Some(i)) && w'.msgs[i] == w.msgs[i].(trying := None)
      && w'.list == w.list && w'.msgs.Keys == w.msgs.Keys
  {
    if w.msgs[i].trying.Some? {
      var m := w.msgs[i].(trying := None);
      ChangeMatches(w.msgs, w.tasks, i, m);
      RefsUntry(w.msgs, w.list, w.refs, i, m);
    }
  }

  lemma SetTryingKeeps(w: World, i: nat, e: Entry)
    requires InvBut(w, Some(i)) && e in w.list && e.key == w.msgs[i].key
    ensures var w' := SetTrying(w, i, e);
      && InvBut(w', Some(i)) && w'.msgs[i] == w.msgs[i].(trying := Some(e))
      && w'.list == w.list && w'.msgs.Keys == w.msgs.Keys
  {
    UnrefTryingKeeps(w, i);
    var w1 := UnrefTrying(w, i);
    var m := w1.msgs[i].(trying := Some(e));
    ChangeMatches(w1.msgs, w1.tasks, i, m);
    RefsTry(w1.msgs, w1.list, w1.refs, i, m, e);
  }

  lemma RemoveBlobKeeps(w: World, e: Entry, skip: Option<nat>)
    requires InvBut(w, skip)
    ensures InvBut(RemoveBlob(w, e), skip) && RemoveBlob(w, e).msgs == w.msgs
  {
    if e in w.list {
      var p := PosOf(w.list, e);
      RemoveKeeps(w.list, w.table, p);
      RefsRemove(w.msgs, w.list, w.refs, p);
    }
  }

  lemma AddEntryKeeps(w: World, e: Entry)
    requires Inv(w) && e.id == w.next
    ensures Inv(AddEntry(w, e)) && e in AddEntry(w, e).list
  {
    forall i | 0 <= i < |w.list| ensures w.list[i].id != e.id {
      assert RefAt(w.msgs, w.list, w.refs, w.list[i]);
    }
    InsertKeeps(w.list, w.table, e);
    var p := InsertPos(w.list, e.key);
    RefsInsert(w.msgs, w.list, w.refs, p, e);
    assert InsertedAt(w.list, p, e)[p] == e;
  }

  lemma CancelKeeps(w: World, i: nat)
    requires Inv(w) && i in w.msgs
    ensures var w', m := Cancel(w, i), w.msgs[i];
      && InvBut(w', Some(i)) && w'.list == w.list && w'.msgs.Keys == w.msgs.Keys
      && w'.msgs[i] == m.(crypto := None, pow := None, store := None, blob := false, trying := None)
  {
    var m := w.msgs[i].(crypto := None, pow := None, store := None, blob := false);
    var w1 := w.(tasks := w.tasks - Held(w.msgs[i]), msgs := w.msgs[i := m]);
    assert MsgFine(w.msgs, w.tasks, i);
    ReleaseMatches(w.msgs, w.tasks, i, m);
    RefsPut(w.msgs, w.list, w.refs, i, m);
    assert InvBut(w1, Some(i));
    UnrefTryingKeeps(w1, i);
  }

  lemma DropKeeps(w: World, i: nat)
    requires InvBut(w, Some(i)) && w.msgs[i].trying.None?
    ensures Inv(Drop(w, i))
  {
    DropMatches(w.msgs, w.tasks, i);
    RefsDrop(w.msgs, w.list, w.refs, i);
  }

  lemma FreeKeeps(w: World, i: nat)
    requires Inv(w) && i in w.msgs
    ensures Inv(Free(w, i))
  {
    CancelKeeps(w, i);
    DropKeeps(Cancel(w, i), i);
  }

  // ----------------------------------------------------- seeking a public key

  lemma SendGetpubkeyKeeps(w: World, i: nat, recent: bool)
    requires InvBut(w, Some(i)) && !w.msgs[i].toKey && !w.msgs[i].blob
    ensures Inv(SendGetpubkey(w, i, recent))
  {
    if recent {
      SettleKeeps(w, i, w.msgs[i].(state := AwaitingPubkey));
    } else {
      var m := w.msgs[i].(blob := true);
      PutKeeps(w, i, m);
      BeginKeeps(Put(w, i, m), i, CalculatingGetpubkeyPow);
    }
  }

  lemma PostMessageKeeps(w: World, i: nat, recent: bool)
    requires InvBut(w, Some(i)) && w.msgs[i].toKey && !w.msgs[i].blob
    ensures Inv(PostMessage(w, i, recent))
  {
    if recent {
      SettleKeeps(w, i, w.msgs[i].(state := AwaitingAcknowledgement));
    } else {
      BeginKeeps(w, i, LoadingContent);
    }
  }

  lemma TryBlobKeeps(w: World, i: nat, e: Entry, where: Locator)
    requires InvBut(w, Some(i)) && e in w.list && e.key == w.msgs[i].key && !w.msgs[i].toKey && !w.msgs[i].blob
    ensures var r := TryBlob(w, i, e, where);
      && r.1 == !where(e.hash).Nowhere?
      && (r.1 ==> Inv(r.0))
      && (!r.1 ==> InvBut(r.0, Some(i)) && r.0.msgs[i] == w.msgs[i].(trying := Some(e)))
      && r.0.list == w.list
  {
    SetTryingKeeps(w, i, e);
    var w1 := SetTrying(w, i, e);
    match where(e.hash)
    case Nowhere =>
    case OnDisk => BeginKeeps(w1, i, LoadingPubkeyFromStore);
    case Memory => BeginKeeps(w1, i, TryingBlob);
  }

  lemma {:induction false} TryAllKeeps(w: World, i: nat, group: seq<Entry>, where: Locator)
    requires InvBut(w, Some(i)) && !w.msgs[i].toKey && !w.msgs[i].blob
    requires forall e :: e in group ==> e in w.list && e.key == w.msgs[i].key
    ensures var r := TryAll(w, i, group, where);
      && (r.1 ==> Inv(r.0))
      && (!r.1 ==> InvBut(r.0, Some(i)) && !r.0.msgs[i].toKey && !r.0.msgs[i].blob)
    decreases |group|
  {
    if group != [] {
      TryBlobKeeps(w, i, group[0], where);
      var r := TryBlob(w, i, group[0], where);
      if !r.1 {
        TryAllKeeps(r.0, i, group[1..], where);
      }
    }
  }

  lemma LoadPublicKeyKeeps(w: World, i: nat, where: Locator, recent: bool)
    requires InvBut(w, Some(i)) && !w.msgs[i].toKey && !w.msgs[i].blob
    ensures Inv(LoadPublicKey(w, i, where, recent))
  {
    var group := Group(w.list, w.msgs[i].key);
    forall e | e in group ensures e in w.list && e.key == w.msgs[i].key {
      GroupMembers(w.list, w.msgs[i].key, e);
    }
    TryAllKeeps(w, i, group, where);
    var r := TryAll(w, i, group, where);
    if !r.1 {
      SendGetpubkeyKeeps(r.0, i, recent);
    }
  }

  lemma TriedIsAllocated(w: World, i: nat)
    requires RefsOk(w.msgs, w.list, w.refs) && i in w.msgs && w.msgs[i].trying.Some?
    ensures w.msgs[i].trying.value in w.refs
  {
    var e := w.msgs[i].trying.value;
    assert RefAt(w.msgs, w.list, w.refs, e);
    assert i in Triers(w.msgs, e);
  }

  lemma NextPubkeyKeeps(w: World, i: nat, where: Locator, recent: bool)
    requires InvBut(w, Some(i)) && !w.msgs[i].toKey && !w.msgs[i].blob && w.msgs[i].trying.Some?
    ensures Inv(NextPubkey(w, i, where, recent))
  {
    var e := w.msgs[i].trying.value;
    TriedIsAllocated(w, i);
    RemoveBlobKeeps(w, e, Some(i));
    LoadPublicKeyKeeps(RemoveBlob(w, e), i, where, recent);
  }

  lemma FindKeyOrPostKeeps(w: World, i: nat, where: Locator, recent: bool)
    requires InvBut(w, Some(i)) && !w.msgs[i].blob
    ensures Inv(FindKeyOrPost(w, i, where, recent))
  {
    if w.msgs[i].toKey {
      PostMessageKeeps(w, i, recent);
    } else {
      LoadPublicKeyKeeps(w, i, where, recent);
    }
  }

  // ---------------------------------------------------------------- callbacks

  /** Freeing a message from its own callback. */
  lemma FreeBareKeeps(w: World, i: nat)
    requires InvBut(w, Some(i))
    ensures Inv(Free(w, i))
  {
    var m := w.msgs[i].(crypto := None, pow := None, store := None, blob := false);
    PutKeeps(w, i, m);
    assert w.tasks - Held(w.msgs[i]) == w.tasks;
    UnrefTryingKeeps(Put(w, i, m), i);
    DropKeeps(UnrefTrying(Put(w, i, m), i), i);
  }

  lemma SeekCallbackKeeps(w: World, i: nat, purpose: MState, ok: bool, where: Locator, recent: bool)
    requires InvBut(w, Some(i)) && PartsOk(w.msgs[i], purpose)
    requires purpose.GeneratingAckdata? || Tries(purpose)
    ensures Inv(Callback(w, i, purpose, ok, where, recent))
  {
    if purpose.GeneratingAckdata? {
      FindKeyOrPostKeeps(w, i, where, recent);
    } else if !ok {
      NextPubkeyKeeps(w, i, where, recent);
    } else if purpose.TryingBlob? {
      var m := w.msgs[i].(toKey := true);
      PutKeeps(w, i, m);
      PostMessageKeeps(Put(w, i, m), i, recent);
    } else {
      BeginKeeps(w, i, TryingBlob);
    }
  }

  lemma SendCallbackKeeps(w: World, i: nat, purpose: MState, ok: bool, where: Locator, recent: bool)
    requires InvBut(w, Some(i)) && PartsOk(w.msgs[i], purpose)
    requires purpose.LoadingContent? || NeedsBlob(purpose)
    ensures Inv(Callback(w, i, purpose, ok, where, recent))
  {
    var m := w.msgs[i];
    if purpose.LoadingContent? {
      if ok {
        PutKeeps(w, i, m.(blob := true));
        BeginKeeps(Put(w, i, m.(blob := true)), i, CalculatingAckdataPow);
      } else {
        FreeBareKeeps(w, i);
      }
    } else if purpose.CalculatingAckdataPow? {
      BeginKeeps(w, i, CreateMsgBlob);
    } else if purpose.CreateMsgBlob? {
      BeginKeeps(w, i, CalculatingMsgPow);
    } else if purpose.CalculatingMsgPow? {
      SettleKeeps(w, i, m.(blob := false, state := AwaitingAcknowledgement));
    } else {
      SettleKeeps(w, i, m.(blob := false, state := AwaitingPubkey));
    }
  }

  /** A message whose work has ended is between two pieces of work. */
  lemma ReleasedKeeps(w: World, t: nat, ackdata: seq<byte>)
    requires Inv(w) && t in w.tasks
    ensures var i, purpose := w.tasks[t].msg, w.tasks[t].purpose;
      && i in w.msgs && Cookie(w.msgs[i], SlotOf(purpose)) == Some(t) && w.msgs[i].state == purpose
      && var m := Told(w.msgs[i], purpose, ackdata);
        && InvBut(w.(tasks := w.tasks - {t}, msgs := w.msgs[i := m]), Some(i))
        && PartsOk(m, purpose) && SlotOf(purpose) != Nothing
  {
    var task := w.tasks[t];
    var i := task.msg;
    assert TaskFine(w.msgs, w.tasks, t);
    assert MsgFine(w.msgs, w.tasks, i);
    var m := Told(w.msgs[i], task.purpose, ackdata);
    assert Held(w.msgs[i]) == {t};
    ReleaseMatches(w.msgs, w.tasks, i, m);
    RefsPut(w.msgs, w.list, w.refs, i, m);
  }

  lemma DoneKeeps(w: World, t: nat, ok: bool, ackdata: seq<byte>, where: Locator, recent: bool)
    requires Inv(w) && t in w.tasks
    ensures Inv(Done(w, t, ok, ackdata, where, recent))
  {
    var i, purpose := w.tasks[t].msg, w.tasks[t].purpose;
    ReleasedKeeps(w, t, ackdata);
    var m := Told(w.msgs[i], purpose, ackdata);
    var w1 := w.(tasks := w.tasks - {t}, msgs := w.msgs[i := m]);
    if purpose.LoadingContent? || NeedsBlob(purpose) {
      SendCallbackKeeps(w1, i, purpose, ok, where, recent);
    } else {
      SeekCallbackKeeps(w1, i, purpose, ok, where, recent);
    }
  }

  // ------------------------------------------------------------- new pubkeys

  /** A message that asks for a key that is now there. */
  ghost predicate Usable(w: World, e: Entry, where: Locator)
  {
    e in w.list && Available(w, e.key, e.hash, where)
  }

  predicate Asks(w: World, i: nat, e: Entry)
  {
    && i in w.msgs && w.msgs[i].key == e.key
    && (w.msgs[i].state.CalculatingGetpubkeyPow? || w.msgs[i].state.AwaitingPubkey?)
  }

  /** Only one message has changed. */
  ghost predicate OnlyAt(msgs: map<nat, Message>, msgs': map<nat, Message>, i: nat)
  {
    i in msgs' && msgs' == msgs[i := msgs'[i]]
  }

  lemma UnrefTryingFrame(w: World, i: nat)
    requires i in w.msgs
    ensures OnlyAt(w.msgs, UnrefTrying(w, i).msgs, i)
  {
  }

  lemma CancelFrame(w: World, i: nat)
    requires i in w.msgs
    ensures OnlyAt(w.msgs, Cancel(w, i).msgs, i)
  {
    var m := w.msgs[i];
    UnrefTryingFrame(w.(tasks := w.tasks - Held(m),
                        msgs := w.msgs[i := m.(crypto := None, pow := None, store := None, blob := false)]), i);
  }

  lemma SetTryingFrame(w: World, i: nat, e: Entry)
    requires i in w.msgs
    ensures OnlyAt(w.msgs, SetTrying(w, i, e).msgs, i)
  {
    UnrefTryingFrame(w, i);
  }

  /** The entry of a cancelled message can be tried. */
  lemma CancelThenTry(w: World, i: nat, e: Entry, where: Locator)
    requires Inv(w) && e in w.list && Asks(w, i, e)
    ensures var r := TryBlob(Cancel(w, i), i, e, where);
      && r.1 == !where(e.hash).Nowhere? && r.0.list == w.list && (r.1 ==> Inv(r.0))
      && (!r.1 ==> InvBut(r.0, Some(i)) && !r.0.msgs[i].toKey && !r.0.msgs[i].blob
                   && r.0.msgs[i].state == w.msgs[i].state)
  {
    assert MsgFine(w.msgs, w.tasks, i);
    CancelKeeps(w, i);
    TryBlobKeeps(Cancel(w, i), i, e, where);
  }

  lemma StillWaits(w: World, i: nat)
    requires InvBut(w, Some(i)) && w.msgs[i].state.AwaitingPubkey? && !w.msgs[i].toKey && !w.msgs[i].blob
    ensures Inv(w)
  {
    SettleKeeps(w, i, w.msgs[i]);
    assert w.msgs[i := w.msgs[i]] == w.msgs;
  }

  lemma InterruptOneKeeps(w: World, i: nat, e: Entry, where: Locator)
    requires Inv(w) && e in w.list && Asks(w, i, e)
    requires where(e.hash).Nowhere? ==> w.msgs[i].state.AwaitingPubkey?
    ensures var w' := TryBlob(Cancel(w, i), i, e, where).0;
      Inv(w') && w'.list == w.list && (where(e.hash).Nowhere? ==> w'.msgs[i].state.AwaitingPubkey?)
  {
    CancelThenTry(w, i, e, where);
    if where(e.hash).Nowhere? {
      StillWaits(TryBlob(Cancel(w, i), i, e, where).0, i);
    }
  }

  lemma InterruptKeeps(w: World, i: nat, e: Entry, where: Locator)
    requires Inv(w) && Usable(w, e, where)
    ensures var w' := Interrupt(w, i, e, where); Inv(w') && Usable(w', e, where)
  {
    if Asks(w, i, e) {
      InterruptOneKeeps(w, i, e, where);
      if where(e.hash).Nowhere? {
        CancelFrame(w, i);
        SetTryingFrame(Cancel(w, i), i, e);
      }
    }
  }

  lemma {:induction false} InterruptAllKeeps(w: World, order: seq<nat>, e: Entry, where: Locator)
    requires Inv(w) && Usable(w, e, where)
    ensures Inv(InterruptAll(w, order, e, where))
    decreases |order|
  {
    if order != [] {
      InterruptKeeps(w, order[0], e, where);
      InterruptAllKeeps(Interrupt(w, order[0], e, where), order[1..], e, where);
    }
  }

  // --------------------------------------------------------------- every run

  lemma NewMessageKeeps(w: World, key: Key, toKey: bool, ackdata: seq<byte>)
    requires Inv(w)
    ensures InvBut(NewMessage(w, key, toKey, ackdata), Some(w.next))
  {
    var m := Message(GeneratingAckdata, key, toKey, ackdata, None, None, None, false, None);
    assert w.next !in w.msgs;
    AddMatches(w.msgs, w.tasks, w.next, m);
    RefsPut(w.msgs, w.list, w.refs, w.next, m);
  }

  lemma ResendKeeps(w: World, i: nat, recent: bool)
    requires Inv(w) && i in w.msgs
    ensures Inv(ResendOne(w, i, recent))
  {
    var m := w.msgs[i];
    assert MsgFine(w.msgs, w.tasks, i);
    if m.state.AwaitingPubkey? || m.state.AwaitingAcknowledgement? {
      ReleaseMatches(w.msgs, w.tasks, i, m);
      assert Held(m) == {} && w.tasks - {} == w.tasks && w.msgs[i := m] == w.msgs;
      assert InvBut(w, Some(i));
      if m.state.AwaitingPubkey? {
        SendGetpubkeyKeeps(w, i, recent);
      } else {
        PostMessageKeeps(w, i, recent);
      }
    }
  }

  /** What a step asks of the world outside: a pubkey that arrives can be tried. */
  ghost predicate Harmless(w: World, e: Event)
  {
    e.NewPubkey? ==> Available(w, e.key, e.hash, e.where)
  }

  lemma HandlePubkeyKeeps(w: World, key: Key, hash: Hash, timestamp: int, where: Locator)
    requires Inv(w) && Available(w, key, hash, where)
    ensures Inv(HandlePubkey(w, key, hash, timestamp, where))
  {
    var e := Entry(w.next, key, hash, timestamp);
    AddEntryKeeps(w, e);
    InterruptAllKeeps(AddEntry(w, e), Order(w.msgs, w.next), e, where);
  }

  lemma HarmlessKeeps(w: World, e: Event)
    requires Inv(w) && Enabled(w, e) && Harmless(w, e)
    ensures Inv(Next(w, e))
  {
    match e
    case Send(key, toKey) =>
      NewMessageKeeps(w, key, toKey, []);
      BeginKeeps(NewMessage(w, key, toKey, []), w.next, GeneratingAckdata);
    case Restore(key, toKey, ackdata, where, recent) =>
      NewMessageKeeps(w, key, toKey, ackdata);
      FindKeyOrPostKeeps(NewMessage(w, key, toKey, ackdata), w.next, where, recent);
    case End(t, ok, ackdata, where, recent) => DoneKeeps(w, t, ok, ackdata, where, recent);
    case NewPubkey(key, hash, timestamp, where) => HandlePubkeyKeeps(w, key, hash, timestamp, where);
    case Received(content) => AcknowledgementKeeps(w, content);
    case Expire(entry) => RemoveBlobKeeps(w, entry, None);
    case Resend(i, recent) => ResendKeeps(w, i, recent);
  }

  /** In every step, and with the one exception exactly: each message has exactly the one
      task that its state calls for, and none in the two states in which it waits; every
      task belongs to a message in its state; a message has its recipient's key from
      LoadingContent on; the pubkey entries are grouped and indexed and their counts are
      those of their holders; and nothing absent or freed is ever used. */
  lemma NextKeeps(w: World, e: Event)
    requires Inv(w) && Enabled(w, e)
    ensures Inv(Next(w, e)) <==> Harmless(w, e)
  {
    if Harmless(w, e) {
      HarmlessKeeps(w, e);
    } else {
      HandlePubkeyStrands(w, e.key, e.hash, e.timestamp, e.where);
    }
  }

  lemma StartInv()
    ensures Inv(START)
  {
    forall key ensures TableAt(START.list, START.table, key) {}
    forall i, j, k ensures Between(START.list, i, j, k) {}
    forall e ensures RefAt(START.msgs, START.list, START.refs, e) {
      assert Triers(START.msgs, e) == {};
    }
  }

  /** What that means for one message. */
  lemma OneTask(w: World, i: nat)
    requires Inv(w) && i in w.msgs
    ensures |Held(w.msgs[i])| == if SlotOf(w.msgs[i].state) == Nothing then 0 else 1
    ensures forall t :: t in w.tasks && w.tasks[t].msg == i <==> t in Held(w.msgs[i])
    ensures KnowsKey(w.msgs[i].state) ==> w.msgs[i].toKey
  {
    assert MsgFine(w.msgs, w.tasks, i);
    forall t ensures t in w.tasks && w.tasks[t].msg == i <==> t in Held(w.msgs[i]) {
      if t in w.tasks {
        assert TaskFine(w.msgs, w.tasks, t);
      }
    }
  }

  // ------------------------------------------------- when a pubkey arrives

  /** A message left by a pubkey that the network does not have: it was calculating a
      request, its task is cancelled and it starts no other. */
  lemma InterruptedForNothing(w: World, i: nat, e: Entry, where: Locator)
    requires Inv(w) && e in w.list && Asks(w, i, e) && w.msgs[i].state.CalculatingGetpubkeyPow?
    requires where(e.hash).Nowhere?
    ensures !Inv(Interrupt(w, i, e, where))
  {
    assert MsgFine(w.msgs, w.tasks, i);
    CancelKeeps(w, i);
    TryBlobKeeps(Cancel(w, i), i, e, where);
    var w' := Interrupt(w, i, e, where);
    assert !MsgFine(w'.msgs, w'.tasks, i);
  }

  /** A message is safe from a new pubkey exactly when the network has the object or the
      message was only waiting. */
  lemma InterruptSafeIff(w: World, i: nat, e: Entry, where: Locator)
    requires Inv(w) && e in w.list && Asks(w, i, e)
    ensures Inv(Interrupt(w, i, e, where)) <==> !where(e.hash).Nowhere? || w.msgs[i].state.AwaitingPubkey?
  {
    if where(e.hash).Nowhere? && w.msgs[i].state.CalculatingGetpubkeyPow? {
      InterruptedForNothing(w, i, e, where);
    } else {
      InterruptOneKeeps(w, i, e, where);
    }
  }

  /** A message that should be calculating and is not. */
  ghost predicate Stranded(w: World, i: nat)
  {
    i in w.msgs && w.msgs[i].state.CalculatingGetpubkeyPow? && w.msgs[i].pow.None?
  }

  lemma StrandedBreaks(w: World, i: nat)
    requires Stranded(w, i)
    ensures !Inv(w)
  {
    assert !MsgFine(w.msgs, w.tasks, i);
  }

  lemma UnrefTryingChanges(w: World, i: nat)
    requires i in w.msgs
    ensures i in UnrefTrying(w, i).msgs && UnrefTrying(w, i).msgs[i] == w.msgs[i].(trying := None)
  {
  }

  lemma CancelChanges(w: World, i: nat)
    requires i in w.msgs
    ensures i in Cancel(w, i).msgs
    ensures Cancel(w, i).msgs[i] == w.msgs[i].(crypto := None, pow := None, store := None, blob := false, trying := None)
  {
    var m := w.msgs[i].(crypto := None, pow := None, store := None, blob := false);
    UnrefTryingChanges(w.(tasks := w.tasks - Held(w.msgs[i]), msgs := w.msgs[i := m]), i);
  }

  lemma SetTryingChanges(w: World, i: nat, e: Entry)
    requires i in w.msgs
    ensures i in SetTrying(w, i, e).msgs && SetTrying(w, i, e).msgs[i] == w.msgs[i].(trying := Some(e))
  {
    UnrefTryingChanges(w, i);
  }

  /** A message interrupted for an object that the network does not have keeps its state,
      with nothing under way. */
  lemma InterruptForNothing(w: World, j: nat, e: Entry, where: Locator, i: nat)
    requires where(e.hash).Nowhere? && i in w.msgs
    ensures var w' := Interrupt(w, j, e, where);
      && i in w'.msgs && w'.msgs[i].state == w.msgs[i].state && w'.msgs[i].key == w.msgs[i].key
      && (w.msgs[i].pow.None? || (i == j && Asks(w, j, e)) ==> w'.msgs[i].pow.None?)
  {
    if Asks(w, j, e) {
      CancelFrame(w, j);
      CancelChanges(w, j);
      SetTryingFrame(Cancel(w, j), j, e);
      SetTryingChanges(Cancel(w, j), j, e);
    }
  }

  lemma {:induction false} InterruptAllStrands(w: World, order: seq<nat>, e: Entry, where: Locator, i: nat)
    requires where(e.hash).Nowhere? && i in w.msgs && w.msgs[i].key == e.key
    requires w.msgs[i].state.CalculatingGetpubkeyPow? && (i in order || w.msgs[i].pow.None?)
    ensures Stranded(InterruptAll(w, order, e, where), i)
    decreases |order|
  {
    if order != [] {
      InterruptForNothing(w, order[0], e, where, i);
      assert i in order ==> i == order[0] || i in order[1..];
      InterruptAllStrands(Interrupt(w, order[0], e, where), order[1..], e, where, i);
    }
  }

  /** A pubkey that the network does not have leaves every message that was calculating a
      request for it with nothing under way. */
  lemma HandlePubkeyStrands(w: World, key: Key, hash: Hash, timestamp: int, where: Locator)
    requires Inv(w) && !Available(w, key, hash, where)
    ensures !Inv(HandlePubkey(w, key, hash, timestamp, where))
  {
    var i :| i in w.msgs && w.msgs[i].key == key && w.msgs[i].state.CalculatingGetpubkeyPow?;
    var e := Entry(w.next, key, hash, timestamp);
    InterruptAllStrands(AddEntry(w, e), Order(w.msgs, w.next), e, where, i);
    StrandedBreaks(HandlePubkey(w, key, hash, timestamp, where), i);
  }

  predicate TriesEntry(w: World, i: nat, e: Entry)
  {
    i in w.msgs && w.msgs[i].state.TryingBlob? && w.msgs[i].trying == Some(e)
  }

  lemma TryInMemory(w: World, i: nat, e: Entry, where: Locator)
    requires i in w.msgs && where(e.hash).Memory?
    ensures TriesEntry(TryBlob(w, i, e, where).0, i, e) && OnlyAt(w.msgs, TryBlob(w, i, e, where).0.msgs, i)
  {
    TryBlobLeads(w, i, e, where);
    SetTryingChanges(w, i, e);
  }

  lemma InterruptTries(w: World, j: nat, e: Entry, where: Locator, i: nat)
    requires where(e.hash).Memory? && (Asks(w, i, e) || TriesEntry(w, i, e))
    ensures var w' := Interrupt(w, j, e, where);
      if i == j || TriesEntry(w, i, e) then TriesEntry(w', i, e) else Asks(w', i, e)
  {
    if Asks(w, j, e) {
      CancelFrame(w, j);
      TryInMemory(Cancel(w, j), j, e, where);
      OnlyAtTwice(w.msgs, Cancel(w, j).msgs, Interrupt(w, j, e, where).msgs, j);
    }
  }

  lemma {:induction false} InterruptAllTries(w: World, order: seq<nat>, e: Entry, where: Locator, i: nat)
    requires where(e.hash).Memory? && ((Asks(w, i, e) && i in order) || TriesEntry(w, i, e))
    ensures TriesEntry(InterruptAll(w, order, e, where), i, e)
    decreases |order|
  {
    if order != [] {
      InterruptTries(w, order[0], e, where, i);
      assert i in order ==> i == order[0] || i in order[1..];
      InterruptAllTries(Interrupt(w, order[0], e, where), order[1..], e, where, i);
    }
  }

  /** Every message that waits for a key, or calculates a request for it, tries the new
      pubkey as soon as it arrives. */
  lemma HandlePubkeyTries(w: World, key: Key, hash: Hash, timestamp: int, where: Locator, i: nat)
    requires Inv(w) && where(hash).Memory? && Asks(w, i, Entry(w.next, key, hash, timestamp))
    ensures TriesEntry(HandlePubkey(w, key, hash, timestamp, where), i, Entry(w.next, key, hash, timestamp))
  {
    var e := Entry(w.next, key, hash, timestamp);
    InterruptAllTries(AddEntry(w, e), Order(w.msgs, w.next), e, where, i);
  }

  /** A message that does not ask for the key is left alone. */
  lemma {:induction false} InterruptAllSpares(w: World, order: seq<nat>, e: Entry, where: Locator, i: nat)
    requires i in w.msgs && !Asks(w, i, e)
    ensures var w' := InterruptAll(w, order, e, where); i in w'.msgs && w'.msgs[i] == w.msgs[i]
    decreases |order|
  {
    if order != [] {
      var j := order[0];
      if Asks(w, j, e) {
        CancelFrame(w, j);
        TryBlobLeads(Cancel(w, j), j, e, where);
        OnlyAtTwice(w.msgs, Cancel(w, j).msgs, Interrupt(w, j, e, where).msgs, j);
      }
      InterruptAllSpares(Interrupt(w, j, e, where), order[1..], e, where, i);
    }
  }

  lemma InterruptList(w: World, i: nat, e: Entry, where: Locator)
    ensures Interrupt(w, i, e, where).list == w.list
  {
    if Asks(w, i, e) {
      CancelList(w, i);
      SetTryingList(Cancel(w, i), i, e);
    }
  }

  lemma CancelList(w: World, i: nat)
    requires i in w.msgs
    ensures Cancel(w, i).list == w.list
  {
  }

  lemma SetTryingList(w: World, i: nat, e: Entry)
    requires i in w.msgs
    ensures SetTrying(w, i, e).list == w.list
  {
  }

  lemma {:induction false} InterruptAllList(w: World, order: seq<nat>, e: Entry, where: Locator)
    ensures InterruptAll(w, order, e, where).list == w.list
    decreases |order|
  {
    if order != [] {
      InterruptList(w, order[0], e, where);
      InterruptAllList(Interrupt(w, order[0], e, where), order[1..], e, where);
    }
  }

  /** A pubkey that arrives is there for messages to come, behind the newest of its key,
      and a message that does not ask for it is left alone. */
  lemma HandlePubkeyAdds(w: World, key: Key, hash: Hash, timestamp: int, where: Locator, other: Key, i: nat)
    ensures var g, e, w' := Group(w.list, other), Entry(w.next, key, hash, timestamp), Next(w, NewPubkey(key, hash, timestamp, where));
      && Group(w'.list, other) == (if other != key then g else if g == [] then [e] else [g[0], e] + g[1..])
      && (i in w.msgs && !Asks(w, i, e) ==> i in w'.msgs && w'.msgs[i] == w.msgs[i])
  {
    var e := Entry(w.next, key, hash, timestamp);
    GroupInserted(w.list, e, other);
    InterruptAllList(AddEntry(w, e), Order(w.msgs, w.next), e, where);
    if i in w.msgs && !Asks(w, i, e) {
      InterruptAllSpares(AddEntry(w, e), Order(w.msgs, w.next), e, where, i);
    }
  }

  // ------------------------------------------------------------ acknowledgements

  lemma AcknowledgementKeeps(w: World, content: seq<byte>)
    requires Inv(w)
    ensures Inv(CheckAcknowledgement(w, content))
  {
    var i := FindFrom(w, 0, content);
    if i.Some? {
      FreeKeeps(w, i.value);
    }
  }

  lemma {:induction false} FindFromFirst(w: World, i: nat, content: seq<byte>)
    ensures var r := FindFrom(w, i, content);
      forall j :: i <= j < (if r.Some? then r.value else w.next) && j in w.msgs ==> !Acknowledges(w.msgs[j], content)
    decreases w.next - i
  {
    if i < w.next && !(i in w.msgs && Acknowledges(w.msgs[i], content)) {
      FindFromFirst(w, i + 1, content);
    }
  }

  lemma {:induction false} NeverFound(w: World, i: nat, content: seq<byte>)
    requires |content| != Proto.ACKDATA_SIZE
    ensures FindFrom(w, i, content).None?
    decreases w.next - i
  {
    if i < w.next {
      NeverFound(w, i + 1, content);
    }
  }

  /** No two messages that have their ackdata have the same. */
  ghost predicate DistinctAckdata(msgs: map<nat, Message>)
  {
    forall i, j ::
      (i in msgs && j in msgs && i != j && !msgs[i].state.GeneratingAckdata? && !msgs[j].state.GeneratingAckdata?)
      ==> msgs[i].ackdata != msgs[j].ackdata
  }

  /** An acknowledgement ends the first message in the list that holds its octets, and only
      that one; one that nobody holds changes nothing. */
  lemma AcknowledgedFirst(w: World, content: seq<byte>)
    requires Inv(w)
    ensures var w' := CheckAcknowledgement(w, content);
      if exists i :: i in w.msgs && Acknowledges(w.msgs[i], content) then
        exists i :: i in w.msgs && Acknowledges(w.msgs[i], content) && w'.msgs == w.msgs - {i}
          && forall j :: j in w.msgs && j < i ==> !Acknowledges(w.msgs[j], content)
      else w' == w
  {
    FindFromFirst(w, 0, content);
    var r := FindFrom(w, 0, content);
    if r.Some? {
      FreeLeaves(w, r.value);
    }
  }

  /** When ackdata are distinct, a message is ended exactly by its own 32 octets. */
  lemma AcknowledgedExactly(w: World, content: seq<byte>, i: nat)
    requires Inv(w) && DistinctAckdata(w.msgs) && i in w.msgs
    ensures Acknowledges(w.msgs[i], content) <==> CheckAcknowledgement(w, content).msgs == w.msgs - {i}
  {
    AcknowledgedFirst(w, content);
    var w' := CheckAcknowledgement(w, content);
    if w'.msgs == w.msgs - {i} {
      assert i !in w'.msgs;
    }
  }

  // --------------------------------------------------- trying comes to an end

  /** How many pubkeys a message that tries one has before it, counting the one it tries. */
  function Left(w: World, i: nat): nat
    requires i in w.msgs && w.msgs[i].trying.Some?
  {
    |Group(w.list, w.msgs[i].key)| + (if w.msgs[i].trying.value in w.list then 0 else 1)
  }

  lemma RemoveShrinks(w: World, e: Entry)
    requires DistinctIds(w.list)
    ensures var w' := RemoveBlob(w, e);
      && e !in w'.list
      && |Group(w'.list, e.key)| == |Group(w.list, e.key)| - (if e in w.list then 1 else 0)
      && (forall key :: |Group(w'.list, key)| <= |Group(w.list, key)|)
  {
    if e in w.list {
      var p := PosOf(w.list, e);
      RemovedMembers(w.list, p, e);
      forall key ensures |Group(RemovedAt(w.list, p), key)| <= |Group(w.list, key)| { GroupRemoved(w.list, p, key); }
      GroupRemoved(w.list, p, e.key);
    }
  }

  lemma {:induction false} TryAllPicks(w: World, i: nat, group: seq<Entry>, where: Locator)
    requires i in w.msgs
    ensures var r := TryAll(w, i, group, where);
      && r.0.list == w.list && r.0.msgs[i].key == w.msgs[i].key
      && (r.1 ==> r.0.msgs[i].trying.Some? && r.0.msgs[i].trying.value in group && Tries(r.0.msgs[i].state))
    decreases |group|
  {
    if group != [] {
      TryBlobPicks(w, i, group[0], where);
      var r := TryBlob(w, i, group[0], where);
      if !r.1 {
        TryAllPicks(r.0, i, group[1..], where);
      }
    }
  }

  lemma UnrefTryingPicks(w: World, i: nat)
    requires i in w.msgs
    ensures var w' := UnrefTrying(w, i);
      w'.list == w.list && i in w'.msgs && w'.msgs[i].key == w.msgs[i].key
  {
  }

  lemma SetTryingPicks(w: World, i: nat, e: Entry)
    requires i in w.msgs
    ensures var w' := SetTrying(w, i, e);
      w'.list == w.list && i in w'.msgs && w'.msgs[i].key == w.msgs[i].key && w'.msgs[i].trying == Some(e)
  {
    UnrefTryingPicks(w, i);
  }

  lemma BeginPicks(w: World, i: nat, s: MState)
    requires i in w.msgs
    ensures var w' := Begin(w, i, s);
      && w'.list == w.list && w'.msgs[i].key == w.msgs[i].key && w'.msgs[i].trying == w.msgs[i].trying
      && w'.msgs[i].state == s
  {
  }

  lemma TryBlobPicks(w: World, i: nat, e: Entry, where: Locator)
    requires i in w.msgs
    ensures var r := TryBlob(w, i, e, where);
      && r.0.list == w.list && r.0.msgs[i].key == w.msgs[i].key && r.0.msgs[i].trying == Some(e)
      && (r.1 ==> Tries(r.0.msgs[i].state))
  {
    SetTryingPicks(w, i, e);
    var w1 := SetTrying(w, i, e);
    BeginPicks(w1, i, LoadingPubkeyFromStore);
    BeginPicks(w1, i, TryingBlob);
  }

  lemma SendGetpubkeyPicks(w: World, i: nat, recent: bool)
    requires i in w.msgs
    ensures var w' := SendGetpubkey(w, i, recent); i in w'.msgs && !Tries(w'.msgs[i].state)
  {
  }

  /** A message that finds a pubkey to try tries one of its group. */
  lemma LoadPublicKeyPicks(w: World, i: nat, where: Locator, recent: bool)
    requires i in w.msgs
    ensures var w' := LoadPublicKey(w, i, where, recent);
      && i in w'.msgs
      && (Tries(w'.msgs[i].state) ==>
          && w'.list == w.list && w'.msgs[i].key == w.msgs[i].key
          && w'.msgs[i].trying.Some? && w'.msgs[i].trying.value in w.list)
  {
    var group := Group(w.list, w.msgs[i].key);
    TryAllPicks(w, i, group, where);
    var r := TryAll(w, i, group, where);
    if r.1 {
      GroupMembers(w.list, w.msgs[i].key, r.0.msgs[i].trying.value);
    } else {
      SendGetpubkeyPicks(r.0, i, recent);
    }
  }

  /** Each failed check leaves fewer pubkeys to try, so trying comes to an end. */
  lemma FailureShrinks(w: World, i: nat, where: Locator, recent: bool)
    requires InvBut(w, Some(i)) && w.msgs[i].trying.Some?
    ensures var w' := NextPubkey(w, i, where, recent);
      i in w'.msgs && (Tries(w'.msgs[i].state) ==> w'.msgs[i].trying.Some? && Left(w', i) < Left(w, i))
  {
    var e := w.msgs[i].trying.value;
    assert e.key == w.msgs[i].key;
    TriedIsAllocated(w, i);
    RemoveShrinks(w, e);
    RemoveBlobKeeps(w, e, Some(i));
    LoadPublicKeyPicks(RemoveBlob(w, e), i, where, recent);
  }

  /** Taking any entry out of the list never gives a message more to try. */
  lemma RemovalNeverAdds(w: World, i: nat, e: Entry)
    requires InvBut(w, None) && i in w.msgs && w.msgs[i].trying.Some?
    ensures RemoveBlob(w, e).msgs == w.msgs && Left(RemoveBlob(w, e), i) <= Left(w, i)
  {
    assert MsgFine(w.msgs, w.tasks, i);
    RemoveBlobKeeps(w, e, None);
    RemoveShrinks(w, e);
    if e in w.list && e != w.msgs[i].trying.value {
      RemovedMembers(w.list, PosOf(w.list, e), w.msgs[i].trying.value);
    }
  }

  // ------------------------------------------------------- the course of a message

  /** An entry for a key whose object the network has. */
  predicate AtHand(e: Entry, key: Key, where: Locator)
  {
    e.key == key && !where(e.hash).Nowhere?
  }

  ghost predicate FirstAtHand(list: seq<Entry>, key: Key, where: Locator, p: nat)
  {
    p < |list| && AtHand(list[p], key, where) && forall q :: 0 <= q < p ==> !AtHand(list[q], key, where)
  }

  ghost predicate NoneAtHand(list: seq<Entry>, key: Key, where: Locator)
  {
    forall q :: 0 <= q < |list| ==> !AtHand(list[q], key, where)
  }

  /** Where a message that needs a key asks for one, unless a request is still in the
      network. */
  function Asking(recent: bool): MState
  {
    if recent then AwaitingPubkey else CalculatingGetpubkeyPow
  }

  function TriedFrom(l: Inventory.Location): MState
  {
    if l.Memory? then TryingBlob else LoadingPubkeyFromStore
  }

  /** A message that needs a key tries the first entry at hand, from memory or from disk,
      and asks for a key if and only if none is at hand. */
  ghost predicate Seeking(list: seq<Entry>, where: Locator, recent: bool, m: Message)
  {
    && (Tries(m.state) || m.state == Asking(recent))
    && (NoneAtHand(list, m.key, where) <==> m.state == Asking(recent))
    && (forall p: nat {:trigger FirstAtHand(list, m.key, where, p)} :: FirstAtHand(list, m.key, where, p) ==>
        m.trying == Some(list[p]) && m.state == TriedFrom(where(list[p].hash)))
  }

  /** Where a message that has the key goes: it is sent again unless it is still in the
      network. */
  predicate Posting(recent: bool, s: MState)
  {
    s == if recent then AwaitingAcknowledgement else LoadingContent
  }

  /** The course of a message to the next state, given the pubkey entries there are then;
      `hasKey` says whether it had the recipient's key and `ok` whether the work gave a
      result. */
  ghost predicate Leads(purpose: MState, hasKey: bool, ok: bool, list: seq<Entry>, where: Locator, recent: bool,
                        m: Message)
  {
    match purpose
    case GeneratingAckdata => if hasKey then Posting(recent, m.state) else Seeking(list, where, recent, m)
    case LoadingPubkeyFromStore => if ok then m.state == TryingBlob else Seeking(list, where, recent, m)
    case TryingBlob => if ok then Posting(recent, m.state) else Seeking(list, where, recent, m)
    case CalculatingGetpubkeyPow => m.state == AwaitingPubkey
    case AwaitingPubkey => false
    case LoadingContent => ok && m.state == CalculatingAckdataPow
    case CalculatingAckdataPow => m.state == CreateMsgBlob
    case CreateMsgBlob => m.state == CalculatingMsgPow
    case CalculatingMsgPow => m.state == AwaitingAcknowledgement
    case AwaitingAcknowledgement => false
  }

  /** The first entry at hand among those of a key. */
  function FirstOf(group: seq<Entry>, where: Locator): Option<Entry>
  {
    if group == [] then None
    else if !where(group[0].hash).Nowhere? then Some(group[0])
    else FirstOf(group[1..], where)
  }

  lemma {:induction false} FirstOfKey(list: seq<Entry>, key: Key, where: Locator)
    ensures NoneAtHand(list, key, where) <==> FirstOf(Group(list, key), where).None?
    ensures forall p: nat :: FirstAtHand(list, key, where, p) ==> FirstOf(Group(list, key), where) == Some(list[p])
  {
    if list != [] {
      var rest, first := list[1..], if list[0].key == key then [list[0]] else [];
      FirstOfKey(rest, key, where);
      assert Group(list, key) == first + Group(rest, key);
      assert list[0].key != key ==> [] + Group(rest, key) == Group(rest, key);
      assert list[0].key == key ==> (first + Group(rest, key))[1..] == Group(rest, key);
      assert NoneAtHand(list, key, where) <==> !AtHand(list[0], key, where) && NoneAtHand(rest, key, where) by {
        assert list == [list[0]] + rest;
      }
      forall p: nat | FirstAtHand(list, key, where, p) ensures FirstOf(Group(list, key), where) == Some(list[p]) {
        if p > 0 {
          assert forall q :: 0 <= q < p - 1 ==> rest[q] == list[q + 1];
          assert FirstAtHand(rest, key, where, p - 1);
        }
      }
    }
  }

  lemma TryBlobFinds(w: World, i: nat, e: Entry, where: Locator)
    requires i in w.msgs
    ensures var r := TryBlob(w, i, e, where);
      && r.1 == !where(e.hash).Nowhere? && r.0.msgs[i].key == w.msgs[i].key
      && (r.1 ==> r.0.msgs[i].trying == Some(e) && r.0.msgs[i].state == TriedFrom(where(e.hash)))
  {
    SetTryingChanges(w, i, e);
    var w1 := SetTrying(w, i, e);
    BeginPicks(w1, i, LoadingPubkeyFromStore);
    BeginPicks(w1, i, TryingBlob);
  }

  lemma {:induction false} TryAllFinds(w: World, i: nat, group: seq<Entry>, where: Locator)
    requires i in w.msgs
    ensures var r, e := TryAll(w, i, group, where), FirstOf(group, where);
      && r.1 == e.Some? && r.0.msgs[i].key == w.msgs[i].key
      && (r.1 ==> r.0.msgs[i].trying == e && r.0.msgs[i].state == TriedFrom(where(e.value.hash)))
    decreases |group|
  {
    if group != [] {
      TryBlobFinds(w, i, group[0], where);
      var r := TryBlob(w, i, group[0], where);
      if !r.1 {
        TryAllFinds(r.0, i, group[1..], where);
      }
    }
  }

  /** Seeking a key. */
  lemma LoadPublicKeySeeks(w: World, i: nat, where: Locator, recent: bool)
    requires i in w.msgs
    ensures var w' := LoadPublicKey(w, i, where, recent);
      i in w'.msgs && w'.msgs[i].key == w.msgs[i].key && Seeking(w.list, where, recent, w'.msgs[i])
  {
    var key := w.msgs[i].key;
    var group := Group(w.list, key);
    TryAllFinds(w, i, group, where);
    FirstOfKey(w.list, key, where);
    var r := TryAll(w, i, group, where);
    if !r.1 {
      assert NoneAtHand(w.list, key, where);
      assert forall p: nat :: !FirstAtHand(w.list, key, where, p);
      SendGetpubkeyAsks(r.0, i, recent);
    }
  }

  lemma SendGetpubkeyAsks(w: World, i: nat, recent: bool)
    requires i in w.msgs
    ensures var w' := SendGetpubkey(w, i, recent);
      && OnlyAt(w.msgs, w'.msgs, i) && w'.list == w.list
      && w'.msgs[i].state == Asking(recent) && w'.msgs[i].key == w.msgs[i].key
  {
  }

  lemma BeginLeads(w: World, i: nat, s: MState)
    requires i in w.msgs
    ensures var w' := Begin(w, i, s); OnlyAt(w.msgs, w'.msgs, i) && w'.msgs[i].state == s
  {
  }

  lemma OnlyAtTwice(a: map<nat, Message>, b: map<nat, Message>, c: map<nat, Message>, i: nat)
    requires OnlyAt(a, b, i) && OnlyAt(b, c, i)
    ensures OnlyAt(a, c, i)
  {
    assert a[i := c[i]] == b[i := c[i]];
  }

  lemma TryBlobLeads(w: World, i: nat, e: Entry, where: Locator)
    requires i in w.msgs
    ensures var r := TryBlob(w, i, e, where);
      OnlyAt(w.msgs, r.0.msgs, i) && (r.1 ==> Tries(r.0.msgs[i].state))
  {
    SetTryingFrame(w, i, e);
    var w1 := SetTrying(w, i, e);
    BeginLeads(w1, i, LoadingPubkeyFromStore);
    BeginLeads(w1, i, TryingBlob);
    var w2 := TryBlob(w, i, e, where).0;
    if !where(e.hash).Nowhere? {
      OnlyAtTwice(w.msgs, w1.msgs, w2.msgs, i);
    }
  }

  lemma {:induction false} TryAllLeads(w: World, i: nat, group: seq<Entry>, where: Locator)
    requires i in w.msgs
    ensures var r := TryAll(w, i, group, where);
      OnlyAt(w.msgs, r.0.msgs, i) && (r.1 ==> Tries(r.0.msgs[i].state))
    decreases |group|
  {
    if group == [] {
      assert w.msgs == w.msgs[i := w.msgs[i]];
    } else {
      TryBlobLeads(w, i, group[0], where);
      var r := TryBlob(w, i, group[0], where);
      if !r.1 {
        TryAllLeads(r.0, i, group[1..], where);
        OnlyAtTwice(w.msgs, r.0.msgs, TryAll(r.0, i, group[1..], where).0.msgs, i);
      }
    }
  }

  lemma LoadPublicKeyLeads(w: World, i: nat, where: Locator, recent: bool)
    requires i in w.msgs
    ensures var w' := LoadPublicKey(w, i, where, recent);
      && OnlyAt(w.msgs, w'.msgs, i) && w'.msgs[i].key == w.msgs[i].key
      && w'.list == w.list && Seeking(w'.list, where, recent, w'.msgs[i])
  {
    var group := Group(w.list, w.msgs[i].key);
    LoadPublicKeySeeks(w, i, where, recent);
    TryAllLeads(w, i, group, where);
    TryAllPicks(w, i, group, where);
    var r := TryAll(w, i, group, where);
    if !r.1 {
      SendGetpubkeyAsks(r.0, i, recent);
      OnlyAtTwice(w.msgs, r.0.msgs, SendGetpubkey(r.0, i, recent).msgs, i);
    }
  }

  lemma PostMessageLeads(w: World, i: nat, recent: bool)
    requires i in w.msgs
    ensures var w' := PostMessage(w, i, recent);
      OnlyAt(w.msgs, w'.msgs, i) && w'.msgs[i].key == w.msgs[i].key && Posting(recent, w'.msgs[i].state)
  {
  }

  lemma NextPubkeyLeads(w: World, i: nat, where: Locator, recent: bool)
    requires InvBut(w, Some(i)) && w.msgs[i].trying.Some?
    ensures var w' := NextPubkey(w, i, where, recent);
      && OnlyAt(w.msgs, w'.msgs, i) && w'.msgs[i].key == w.msgs[i].key
      && Seeking(w'.list, where, recent, w'.msgs[i])
  {
    TriedIsAllocated(w, i);
    var e := w.msgs[i].trying.value;
    RemoveBlobKeeps(w, e, Some(i));
    LoadPublicKeyLeads(RemoveBlob(w, e), i, where, recent);
  }

  lemma SeekCallbackLeads(w: World, i: nat, purpose: MState, ok: bool, where: Locator, recent: bool)
    requires InvBut(w, Some(i)) && PartsOk(w.msgs[i], purpose) && (purpose.GeneratingAckdata? || Tries(purpose))
    ensures var w' := Callback(w, i, purpose, ok, where, recent);
      && OnlyAt(w.msgs, w'.msgs, i) && w'.msgs[i].key == w.msgs[i].key
      && Leads(purpose, w.msgs[i].toKey, ok, w'.list, where, recent, w'.msgs[i])
  {
    if purpose.GeneratingAckdata? {
      LoadPublicKeyLeads(w, i, where, recent);
      PostMessageLeads(w, i, recent);
    } else if !ok {
      NextPubkeyLeads(w, i, where, recent);
    } else if purpose.TryingBlob? {
      var w1 := Put(w, i, w.msgs[i].(toKey := true));
      PostMessageLeads(w1, i, recent);
      OnlyAtTwice(w.msgs, w1.msgs, PostMessage(w1, i, recent).msgs, i);
    } else {
      BeginLeads(w, i, TryingBlob);
    }
  }

  lemma SendCallbackLeads(w: World, i: nat, purpose: MState, ok: bool, where: Locator, recent: bool)
    requires InvBut(w, Some(i)) && PartsOk(w.msgs[i], purpose)
    requires (purpose.LoadingContent? && ok) || NeedsBlob(purpose)
    ensures var w' := Callback(w, i, purpose, ok, where, recent);
      && OnlyAt(w.msgs, w'.msgs, i) && w'.msgs[i].key == w.msgs[i].key
      && Leads(purpose, w.msgs[i].toKey, ok, w'.list, where, recent, w'.msgs[i])
  {
    if purpose.LoadingContent? {
      var w1 := Put(w, i, w.msgs[i].(blob := true));
      BeginLeads(w1, i, CalculatingAckdataPow);
      OnlyAtTwice(w.msgs, w1.msgs, Begin(w1, i, CalculatingAckdataPow).msgs, i);
    } else if purpose.CalculatingAckdataPow? {
      BeginLeads(w, i, CreateMsgBlob);
    } else if purpose.CreateMsgBlob? {
      BeginLeads(w, i, CalculatingMsgPow);
    }
  }

  /** What is left of the messages once one of them has been freed. */
  lemma FreeLeaves(w: World, i: nat)
    requires i in w.msgs
    ensures Free(w, i).msgs == w.msgs - {i}
  {
    CancelFrame(w, i);
  }

  /** A new message first has its ackdata generated; no other message changes. */
  lemma SendLeads(w: World, key: Key, toKey: bool)
    ensures var w' := Next(w, Send(key, toKey));
      && OnlyAt(w.msgs, w'.msgs, w.next) && w'.msgs[w.next].state == GeneratingAckdata
      && w'.msgs[w.next].key == key && w'.msgs[w.next].toKey == toKey
  {
    BeginLeads(NewMessage(w, key, toKey, []), w.next, GeneratingAckdata);
  }

  /** A message restored at startup goes on at once: with the recipient's key it is sent,
      and without it seeks one. */
  lemma RestoreLeads(w: World, key: Key, toKey: bool, ackdata: seq<byte>, where: Locator, recent: bool)
    ensures var w' := Next(w, Restore(key, toKey, ackdata, where, recent));
      && w.next in w'.msgs && w'.msgs == w.msgs[w.next := w'.msgs[w.next]] && w'.list == w.list
      && (if toKey then Posting(recent, w'.msgs[w.next].state)
          else w'.msgs[w.next].key == key && Seeking(w.list, where, recent, w'.msgs[w.next]))
  {
    var w1 := NewMessage(w, key, toKey, ackdata);
    PostMessageLeads(w1, w.next, recent);
    LoadPublicKeyLeads(w1, w.next, where, recent);
  }

  /** The resend timer starts work again for a message that waits, unless what it waits for is
      still in the network, and does nothing to any other. */
  lemma ResendLeads(w: World, i: nat, recent: bool)
    requires i in w.msgs
    ensures var s, w' := w.msgs[i].state, Next(w, Resend(i, recent));
      if s.AwaitingPubkey? then OnlyAt(w.msgs, w'.msgs, i) && w'.msgs[i].state == Asking(recent)
      else if s.AwaitingAcknowledgement? then OnlyAt(w.msgs, w'.msgs, i) && Posting(recent, w'.msgs[i].state)
      else w' == w
  {
    SendGetpubkeyAsks(w, i, recent);
    PostMessageLeads(w, i, recent);
  }

  /** Every callback moves its own message along its course, or ends it when its content is
      lost, and touches no other message. */
  lemma DoneLeads(w: World, t: nat, ok: bool, ackdata: seq<byte>, where: Locator, recent: bool)
    requires Inv(w) && t in w.tasks
    ensures var i, purpose, w' := w.tasks[t].msg, w.tasks[t].purpose, Done(w, t, ok, ackdata, where, recent);
      && i in w.msgs
      && (purpose.LoadingContent? && !ok ==> w'.msgs == w.msgs - {i})
      && (!(purpose.LoadingContent? && !ok) ==>
          && OnlyAt(w.msgs, w'.msgs, i) && w'.msgs[i].key == w.msgs[i].key
          && Leads(purpose, w.msgs[i].toKey, ok, w'.list, where, recent, w'.msgs[i]))
  {
    var task := w.tasks[t];
    var i := task.msg;
    assert TaskFine(w.msgs, w.tasks, t);
    assert MsgFine(w.msgs, w.tasks, i);
    var m := Told(w.msgs[i], task.purpose, ackdata);
    var w1 := w.(tasks := w.tasks - {t}, msgs := w.msgs[i := m]);
    ReleasedKeeps(w, t, ackdata);
    if task.purpose.LoadingContent? && !ok {
      FreeLeaves(w1, i);
      assert w1.msgs - {i} == w.msgs - {i};
    } else {
      if task.purpose.LoadingContent? || NeedsBlob(task.purpose) {
        SendCallbackLeads(w1, i, task.purpose, ok, where, recent);
      } else {
        SeekCallbackLeads(w1, i, task.purpose, ok, where, recent);
      }
      OnlyAtTwice(w.msgs, w1.msgs, Done(w, t, ok, ackdata, where, recent).msgs, i);
    }
  }

  lemma RemoveForgets(w: World, e: Entry)
    requires DistinctIds(w.list)
    ensures RemoveBlob(w, e).msgs == w.msgs
    ensures forall x :: x in RemoveBlob(w, e).list <==> x in w.list && x != e
  {
    if e in w.list {
      forall x ensures x in RemoveBlob(w, e).list <==> x in w.list && x != e {
        RemovedMembers(w.list, PosOf(w.list, e), x);
      }
    }
  }

  /** An entry that expires is the only one that goes, and no message changes. */
  lemma ExpireForgets(w: World, e: Entry)
    requires Inv(w)
    ensures Next(w, Expire(e)).msgs == w.msgs
    ensures forall x :: x in Next(w, Expire(e)).list <==> x in w.list && x != e
  {
    RemoveForgets(w, e);
  }

  lemma SeekCallbackForgets(w: World, i: nat, purpose: MState, ok: bool, where: Locator, recent: bool)
    requires InvBut(w, Some(i)) && PartsOk(w.msgs[i], purpose) && (purpose.GeneratingAckdata? || Tries(purpose))
    ensures forall e :: e in Callback(w, i, purpose, ok, where, recent).list <==>
      e in w.list && !(Tries(purpose) && !ok && w.msgs[i].trying == Some(e))
  {
    if purpose.GeneratingAckdata? {
      LoadPublicKeyLeads(w, i, where, recent);
    } else if !ok {
      TriedIsAllocated(w, i);
      var e := w.msgs[i].trying.value;
      RemoveForgets(w, e);
      RemoveBlobKeeps(w, e, Some(i));
      LoadPublicKeyLeads(RemoveBlob(w, e), i, where, recent);
    }
  }

  /** A callback takes one entry out of the list, the one that was tried and turned out bad;
      no other callback takes any. */
  lemma DoneForgets(w: World, t: nat, ok: bool, ackdata: seq<byte>, where: Locator, recent: bool)
    requires Inv(w) && t in w.tasks
    ensures w.tasks[t].msg in w.msgs
    ensures forall e :: e in Done(w, t, ok, ackdata, where, recent).list <==>
      e in w.list && !(Tries(w.tasks[t].purpose) && !ok && w.msgs[w.tasks[t].msg].trying == Some(e))
  {
    var i, purpose := w.tasks[t].msg, w.tasks[t].purpose;
    ReleasedKeeps(w, t, ackdata);
    var w1 := w.(tasks := w.tasks - {t}, msgs := w.msgs[i := Told(w.msgs[i], purpose, ackdata)]);
    if purpose.GeneratingAckdata? || Tries(purpose) {
      SeekCallbackForgets(w1, i, purpose, ok, where, recent);
    } else {
      CancelList(w1, i);
      SendCallbackList(w1, i, purpose, ok, where, recent);
    }
  }

  lemma SendCallbackList(w: World, i: nat, purpose: MState, ok: bool, where: Locator, recent: bool)
    requires i in w.msgs && !purpose.GeneratingAckdata? && !Tries(purpose)
    ensures Callback(w, i, purpose, ok, where, recent).list == w.list
  {
    CancelList(w, i);
  }
}
