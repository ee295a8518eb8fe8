/** The keyring as the program has it: one structure that the callbacks update in place,
    with the loops over pubkey entries and messages. Every method does what the step
    functions say, whose runs are proved safe. */
module KeyringInPlace {
  import opened Bytes
  import opened PubkeyIndex
  import opened Keyring
  import Proto

  class Ring {
    var msgs: map<nat, Message>
    var tasks: map<nat, Task>
    var list: seq<Entry>
    var table: map<Key, Entry>
    var refs: map<Entry, int>
    var next: nat
    var fault: bool

    ghost function Abs(): World
      reads this
    {
      World(msgs, tasks, list, table, refs, next, fault)
    }

    constructor ()
      ensures Abs() == START && Inv(Abs())
    {
      msgs, tasks, list, table, refs, next, fault := map[], map[], [], map[], map[], 0, false;
      new;
      StartInv();
    }

    // -------------------------------------------------------------- messages

    method StartWork(i: nat, s: MState)
      requires i in msgs
      modifies this
      ensures Abs() == Begin(old(Abs()), i, s)
    {
      var m := WithCookie(msgs[i].(state := s), SlotOf(s), Some(next));
      msgs := msgs[i := m];
      tasks := tasks[next := Task(s, i)];
      next := next + 1;
    }

    method UnrefPubkeyBlob(e: Entry)
      modifies this`refs, this`fault
      ensures Abs() == Unref(old(Abs()), e)
    {
      if e !in refs {
        fault := true;
      } else if refs[e] - 1 <= 0 {
        refs := refs - {e};
      } else {
        refs := refs[e := refs[e] - 1];
      }
    }

    method DropTried(i: nat)
      requires i in msgs
      modifies this
      ensures Abs() == UnrefTrying(old(Abs()), i)
    {
      var tried := msgs[i].trying;
      if tried.Some? {
        UnrefPubkeyBlob(tried.value);
        msgs := msgs[i := msgs[i].(trying := None)];
      }
    }

    /** cancel_message_tasks */
    method CancelMessageTasks(i: nat)
      requires i in msgs
      modifies this
      ensures Abs() == Cancel(old(Abs()), i)
    {
      var m := msgs[i];
      if m.crypto.Some? {
        tasks := tasks - {m.crypto.value};
      }
      if m.pow.Some? {
        tasks := tasks - {m.pow.value};
      }
      if m.store.Some? {
        tasks := tasks - {m.store.value};
      }
      assert tasks == old(tasks) - Held(m);
      msgs := msgs[i := m.(crypto := None, pow := None, store := None, blob := false)];
      DropTried(i);
    }

    /** free_message */
    method FreeMessage(i: nat)
      requires i in msgs
      modifies this
      ensures Abs() == Free(old(Abs()), i)
    {
      CancelMessageTasks(i);
      msgs := msgs - {i};
    }

    /** send_getpubkey_request */
    method SendGetpubkeyRequest(i: nat, recent: bool)
      requires i in msgs
      modifies this
      ensures Abs() == SendGetpubkey(old(Abs()), i, recent)
    {
      if recent {
        msgs := msgs[i := msgs[i].(state := AwaitingPubkey)];
        return;
      }
      msgs := msgs[i := msgs[i].(blob := true)];
      StartWork(i, CalculatingGetpubkeyPow);
    }

    /** post_message */
    method Post(i: nat, recent: bool)
      requires i in msgs
      modifies this
      ensures Abs() == PostMessage(old(Abs()), i, recent)
    {
      if recent {
        msgs := msgs[i := msgs[i].(state := AwaitingAcknowledgement)];
        return;
      }
      StartWork(i, LoadingContent);
    }

    // -------------------------------------------------------- pubkey entries

    /** remove_pubkey_blob */
    method RemovePubkeyBlob(e: Entry)
      modifies this
      ensures Abs() == RemoveBlob(old(Abs()), e)
    {
      if e !in list {
        return;
      }
      var p := PosOf(list, e);
      var table' := table;
      if p == 0 || list[p - 1].key != e.key {
        if p + 1 == |list| || list[p + 1].key != e.key {
          table' := table - {e.key};
        } else {
          table' := table[e.key := list[p + 1]];
        }
      }
      list, table := list[..p] + list[p + 1..], table';
      UnrefPubkeyBlob(e);
    }

    method TakeUp(i: nat, e: Entry)
      requires i in msgs
      modifies this
      ensures Abs() == SetTrying(old(Abs()), i, e) && i in msgs
    {
      DropTried(i);
      msgs := msgs[i := msgs[i].(trying := Some(e))];
      if e !in refs {
        fault := true;
      } else {
        refs := refs[e := refs[e] + 1];
      }
    }

    /** try_pubkey_blob_for_message */
    method TryPubkeyBlob(i: nat, e: Entry, where: Locator) returns (found: bool)
      requires i in msgs
      modifies this
      ensures (Abs(), found) == TryBlob(old(Abs()), i, e, where)
    {
      TakeUp(i, e);
      match where(e.hash)
      case Nowhere => return false;
      case OnDisk =>
        StartWork(i, LoadingPubkeyFromStore);
        return true;
      case Memory =>
        StartWork(i, TryingBlob);
        return true;
    }

    /** The loop of load_public_key_for_message: it goes on as long as the key stays the same
        and no entry can be tried. */
    method TryGroup(i: nat, first: nat, key: Key, where: Locator) returns (found: bool)
      requires i in msgs
      modifies this
      ensures (Abs(), found) == TryAll(old(Abs()), i, Walk(old(list), first, key), where) && i in msgs
    {
      var p := first;
      while p < |list| && list[p].key == key
        invariant i in msgs && list == old(list)
        invariant TryAll(old(Abs()), i, Walk(list, first, key), where) == TryAll(Abs(), i, Walk(list, p, key), where)
        decreases |list| - p
      {
        assert ([list[p]] + Walk(list, p + 1, key))[1..] == Walk(list, p + 1, key);
        TryBlobPicks(Abs(), i, list[p], where);
        found := TryPubkeyBlob(i, list[p], where);
        if found {
          return;
        }
        p := p + 1;
      }
      return false;
    }

    /** load_public_key_for_message: the first entry at hand is tried, and a key is asked for
        exactly if there is none. */
    method LoadKey(i: nat, where: Locator, recent: bool)
      requires i in msgs && PubkeyIndex.Valid(list, table)
      modifies this
      ensures Abs() == LoadPublicKey(old(Abs()), i, where, recent)
      ensures i in msgs && msgs[i].key == old(msgs)[i].key && Seeking(old(list), where, recent, msgs[i])
    {
      LoadPublicKeySeeks(Abs(), i, where, recent);
      var key := msgs[i].key;
      assert TableAt(list, table, key);
      if key !in table {
        NoGroup(list, key);
        SendGetpubkeyRequest(i, recent);
        return;
      }
      var p := PosOf(list, table[key]);
      DistinctPos(list, p, FirstIndex(list, key));
      WalkIsGroup(list, key);
      var found := TryGroup(i, p, key, where);
      if !found {
        SendGetpubkeyRequest(i, recent);
      }
    }

    /** A pubkey that turned out bad. */
    method TryNext(i: nat, where: Locator, recent: bool)
      requires InvBut(Abs(), Some(i))
      modifies this
      ensures Abs() == NextPubkey(old(Abs()), i, where, recent)
    {
      if msgs[i].trying.None? || msgs[i].trying.value !in refs {
        fault := true;
        return;
      }
      RemoveBlobKeeps(Abs(), msgs[i].trying.value, Some(i));
      RemovePubkeyBlob(msgs[i].trying.value);
      LoadKey(i, where, recent);
    }

    method SeekOrPost(i: nat, where: Locator, recent: bool)
      requires InvBut(Abs(), Some(i))
      modifies this
      ensures Abs() == FindKeyOrPost(old(Abs()), i, where, recent)
    {
      if msgs[i].toKey {
        Post(i, recent);
      } else {
        LoadKey(i, where, recent);
      }
    }

    // -------------------------------------------------------------- callbacks

    /** check_pubkey_cb, load_pubkey_from_store_cb and generate_ackdata_cb */
    method SeekDone(i: nat, purpose: MState, ok: bool, where: Locator, recent: bool)
      requires InvBut(Abs(), Some(i)) && (purpose.GeneratingAckdata? || Tries(purpose))
      modifies this
      ensures Abs() == Callback(old(Abs()), i, purpose, ok, where, recent)
    {
      if purpose.GeneratingAckdata? {
        SeekOrPost(i, where, recent);
      } else if !ok {
        TryNext(i, where, recent);
      } else if purpose.TryingBlob? {
        msgs := msgs[i := msgs[i].(toKey := true)];
        Post(i, recent);
      } else {
        StartWork(i, TryingBlob);
      }
    }

    /** load_message_content_cb, ackdata_pow_cb, create_msg_blob_cb, msg_pow_cb and
        getpubkey_pow_cb */
    method SendDone(i: nat, purpose: MState, ok: bool, ghost where: Locator, ghost recent: bool)
      requires i in msgs && (purpose.LoadingContent? || NeedsBlob(purpose))
      modifies this
      ensures Abs() == Callback(old(Abs()), i, purpose, ok, where, recent)
    {
      if purpose.LoadingContent? {
        if !ok {
          FreeMessage(i);
          return;
        }
        msgs := msgs[i := msgs[i].(blob := true)];
        StartWork(i, CalculatingAckdataPow);
        return;
      }
      if !msgs[i].blob || (purpose.CreateMsgBlob? && !msgs[i].toKey) {
        fault := true;
      } else if purpose.CalculatingAckdataPow? {
        StartWork(i, CreateMsgBlob);
      } else if purpose.CreateMsgBlob? {
        StartWork(i, CalculatingMsgPow);
      } else if purpose.CalculatingMsgPow? {
        msgs := msgs[i := msgs[i].(blob := false, state := AwaitingAcknowledgement)];
      } else {
        msgs := msgs[i := msgs[i].(blob := false, state := AwaitingPubkey)];
      }
    }

    /** A piece of work ends and its callback runs: the message it belongs to is there, has
        its cookie, and all that the callback uses. */
    method WorkDone(t: nat, ok: bool, ackdata: seq<byte>, where: Locator, recent: bool)
      requires Inv(Abs()) && t in tasks
      modifies this
      ensures Abs() == Done(old(Abs()), t, ok, ackdata, where, recent) && Inv(Abs()) && !fault
    {
      DoneKeeps(Abs(), t, ok, ackdata, where, recent);
      ReleasedKeeps(Abs(), t, ackdata);
      var i, purpose := tasks[t].msg, tasks[t].purpose;
      tasks := tasks - {t};
      msgs := msgs[i := Told(msgs[i], purpose, ackdata)];
      if purpose.LoadingContent? || NeedsBlob(purpose) {
        SendDone(i, purpose, ok, where, recent);
      } else {
        SeekDone(i, purpose, ok, where, recent);
      }
    }

    // ------------------------------------------------------------ new pubkeys

    method InterruptMessage(i: nat, e: Entry, where: Locator)
      modifies this
      ensures Abs() == Interrupt(old(Abs()), i, e, where)
    {
      if i in msgs && msgs[i].key == e.key
         && (msgs[i].state.CalculatingGetpubkeyPow? || msgs[i].state.AwaitingPubkey?) {
        CancelKeysSame(Abs(), i);
        CancelMessageTasks(i);
        var found := TryPubkeyBlob(i, e, where);
      }
    }

    /** check_pubkey_blob_with_messages */
    method CheckPubkeyBlobWithMessages(order: seq<nat>, e: Entry, where: Locator)
      modifies this
      ensures Abs() == InterruptAll(old(Abs()), order, e, where)
    {
      var k := 0;
      assert order[0..] == order;
      while k < |order|
        invariant k <= |order|
        invariant InterruptAll(Abs(), order[k..], e, where) == InterruptAll(old(Abs()), order, e, where)
      {
        assert order[k..][0] == order[k] && order[k..][1..] == order[k + 1..];
        InterruptMessage(order[k], e, where);
        k := k + 1;
      }
    }

    /** The new entry goes behind the first of its group, or to the front of the list. */
    method InsertEntry(e: Entry)
      requires PubkeyIndex.Valid(list, table)
      modifies this
      ensures Abs() == AddEntry(old(Abs()), e)
    {
      assert TableAt(list, table, e.key);
      if e.key !in table {
        list := [e] + list;
        table := table[e.key := e];
      } else {
        var p := PosOf(list, table[e.key]);
        DistinctPos(list, p, FirstIndex(list, e.key));
        list := list[..p + 1] + [e] + list[p + 1..];
      }
      assert list == InsertedAt(old(list), InsertPos(old(list), e.key), e);
      refs := refs[e := 1];
      next := next + 1;
    }

    /** handle_pubkey: every message keeps the work its state calls for exactly when the
        network has the object or nobody is calculating a request for it. */
    method HandlePubkey(key: Key, hash: Hash, timestamp: int, where: Locator)
      requires Inv(Abs())
      modifies this
      ensures Abs() == Keyring.HandlePubkey(old(Abs()), key, hash, timestamp, where)
      ensures Inv(Abs()) <==> Available(old(Abs()), key, hash, where)
    {
      ghost var w := Abs();
      var order := Order(msgs, next);
      var e := Entry(next, key, hash, timestamp);
      InsertEntry(e);
      CheckPubkeyBlobWithMessages(order, e, where);
      NextKeeps(w, NewPubkey(key, hash, timestamp, where));
    }

    // ------------------------------------------------------- acknowledgements

    /** check_msg_acknowledgement: the first message in the list that holds the octets is
        freed, and nothing else changes; it is the only one that holds them when ackdata are
        distinct. */
    method CheckMsgAcknowledgement(content: seq<byte>) returns (found: Option<nat>)
      requires Inv(Abs())
      modifies this
      ensures Abs() == CheckAcknowledgement(old(Abs()), content) && Inv(Abs()) && !fault
      ensures found.None? ==> Abs() == old(Abs())
      ensures found.Some? ==> found.value in old(msgs) && msgs == old(msgs) - {found.value}
      ensures forall i :: i in old(msgs) && (found.None? || i < found.value) ==> !Acknowledges(old(msgs)[i], content)
      ensures found.Some? ==> Acknowledges(old(msgs)[found.value], content)
      ensures DistinctAckdata(old(msgs)) ==>
        forall i :: i in old(msgs) ==> (Acknowledges(old(msgs)[i], content) <==> found == Some(i))
    {
      ghost var w := Abs();
      found := Find(content);
      FindFromFirst(w, 0, content);
      AcknowledgementKeeps(w, content);
      if found.Some? {
        FreeLeaves(w, found.value);
        FreeMessage(found.value);
      }
    }

    method Find(content: seq<byte>) returns (found: Option<nat>)
      ensures found == FindFrom(Abs(), 0, content)
    {
      if |content| != Proto.ACKDATA_SIZE {
        NeverFound(Abs(), 0, content);
        return None;
      }
      var i := 0;
      while i < next
        invariant i <= next && FindFrom(Abs(), 0, content) == FindFrom(Abs(), i, content)
      {
        if i in msgs && !msgs[i].state.GeneratingAckdata? && msgs[i].ackdata == content {
          return Some(i);
        }
        i := i + 1;
      }
      return None;
    }
  }

  lemma CancelKeysSame(w: World, i: nat)
    requires i in w.msgs
    ensures i in Cancel(w, i).msgs
  {
    CancelFrame(w, i);
  }
}
