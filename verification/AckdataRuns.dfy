/** The ackdata of outgoing messages over a run: nothing changes the ackdata of a message once
    it has been generated, so messages whose ackdata were different when they got them are
    told apart by them ever after. */
module AckdataRuns {
  import opened Bytes
  import opened PubkeyIndex
  import opened Keyring

  /** The message has its ackdata. */
  predicate Has(msgs: map<nat, Message>, i: nat)
  {
    i in msgs && !msgs[i].state.GeneratingAckdata?
  }

  /** A message of the new world that has its ackdata had the same before. */
  ghost predicate KeptAt(msgs: map<nat, Message>, msgs': map<nat, Message>, i: nat)
  {
    Has(msgs', i) ==> Has(msgs, i) && msgs'[i].ackdata == msgs[i].ackdata
  }

  /** ... except perhaps one, which has just got it. */
  ghost predicate KeptBut(msgs: map<nat, Message>, msgs': map<nat, Message>, skip: nat, data: seq<byte>)
  {
    forall i {:trigger KeptAt(msgs, msgs', i)} :: KeptAt(msgs, msgs', i) || (i == skip && i in msgs' && msgs'[i].ackdata == data)
  }

  /** The ackdata that a step gives to a message, if any, are not those of another. */
  ghost predicate Fresh(w: World, e: Event)
  {
    match e
    case Restore(_, _, data, _, _) => NotTaken(w.msgs, data)
    case End(t, _, data, _, _) => t in w.tasks && w.tasks[t].purpose.GeneratingAckdata? ==> NotTaken(w.msgs, data)
    case _ => true
  }

  ghost predicate NotTaken(msgs: map<nat, Message>, data: seq<byte>)
  {
    forall i :: Has(msgs, i) ==> msgs[i].ackdata != data
  }

  lemma KeptDistinct(msgs: map<nat, Message>, msgs': map<nat, Message>, skip: nat, data: seq<byte>)
    requires DistinctAckdata(msgs) && KeptBut(msgs, msgs', skip, data)
    requires (forall i :: KeptAt(msgs, msgs', i)) || NotTaken(msgs, data)
    ensures DistinctAckdata(msgs')
  {
    forall i, j | Has(msgs', i) && Has(msgs', j) && i != j ensures msgs'[i].ackdata != msgs'[j].ackdata {
      assert KeptAt(msgs, msgs', i) || i == skip;
      assert KeptAt(msgs, msgs', j) || j == skip;
    }
  }

  // ------------------------------------------------------ what one message keeps

  ghost predicate SameData(w: World, w': World, i: nat)
  {
    i in w.msgs && i in w'.msgs && w'.msgs[i].ackdata == w.msgs[i].ackdata
  }

  lemma TryBlobData(w: World, i: nat, e: Entry, where: Locator)
    requires i in w.msgs
    ensures SameData(w, TryBlob(w, i, e, where).0, i)
  {
    SetTryingChanges(w, i, e);
    var w1 := SetTrying(w, i, e);
    BeginData(w1, i, LoadingPubkeyFromStore);
    BeginData(w1, i, TryingBlob);
  }

  lemma BeginData(w: World, i: nat, s: MState)
    requires i in w.msgs
    ensures SameData(w, Begin(w, i, s), i)
  {
  }

  lemma {:induction false} TryAllData(w: World, i: nat, group: seq<Entry>, where: Locator)
    requires i in w.msgs
    ensures SameData(w, TryAll(w, i, group, where).0, i)
    decreases |group|
  {
    if group != [] {
      TryBlobData(w, i, group[0], where);
      var r := TryBlob(w, i, group[0], where);
      if !r.1 {
        TryAllData(r.0, i, group[1..], where);
      }
    }
  }

  lemma SendGetpubkeyData(w: World, i: nat, recent: bool)
    requires i in w.msgs
    ensures SameData(w, SendGetpubkey(w, i, recent), i)
  {
  }

  lemma PostMessageData(w: World, i: nat, recent: bool)
    requires i in w.msgs
    ensures SameData(w, PostMessage(w, i, recent), i)
  {
  }

  lemma LoadPublicKeyData(w: World, i: nat, where: Locator, recent: bool)
    requires i in w.msgs
    ensures SameData(w, LoadPublicKey(w, i, where, recent), i)
  {
    TryAllData(w, i, Group(w.list, w.msgs[i].key), where);
    SendGetpubkeyData(TryAll(w, i, Group(w.list, w.msgs[i].key), where).0, i, recent);
  }

  lemma SeekData(w: World, i: nat, purpose: MState, ok: bool, where: Locator, recent: bool)
    requires InvBut(w, Some(i)) && PartsOk(w.msgs[i], purpose) && (purpose.GeneratingAckdata? || Tries(purpose))
    ensures SameData(w, Callback(w, i, purpose, ok, where, recent), i)
  {
    if purpose.GeneratingAckdata? {
      LoadPublicKeyData(w, i, where, recent);
      PostMessageData(w, i, recent);
    } else if !ok {
      var e := w.msgs[i].trying.value;
      TriedIsAllocated(w, i);
      RemoveBlobKeeps(w, e, Some(i));
      LoadPublicKeyData(RemoveBlob(w, e), i, where, recent);
    } else if purpose.TryingBlob? {
      PostMessageData(Put(w, i, w.msgs[i].(toKey := true)), i, recent);
    }
  }

  lemma SendData(w: World, i: nat, purpose: MState, ok: bool, where: Locator, recent: bool)
    requires InvBut(w, Some(i)) && PartsOk(w.msgs[i], purpose)
    requires (purpose.LoadingContent? && ok) || NeedsBlob(purpose)
    ensures SameData(w, Callback(w, i, purpose, ok, where, recent), i)
  {
  }

  // ------------------------------------------------------------------- a step

  lemma DoneData(w: World, t: nat, ok: bool, ackdata: seq<byte>, where: Locator, recent: bool)
    requires Inv(w) && t in w.tasks
    ensures var i, purpose, w' := w.tasks[t].msg, w.tasks[t].purpose, Done(w, t, ok, ackdata, where, recent);
      i in w'.msgs ==> w'.msgs[i].ackdata == if purpose.GeneratingAckdata? then ackdata else w.msgs[i].ackdata
  {
    var i, purpose := w.tasks[t].msg, w.tasks[t].purpose;
    ReleasedKeeps(w, t, ackdata);
    var w1 := w.(tasks := w.tasks - {t}, msgs := w.msgs[i := Told(w.msgs[i], purpose, ackdata)]);
    if purpose.LoadingContent? && !ok {
      FreeLeaves(w1, i);
    } else if purpose.LoadingContent? || NeedsBlob(purpose) {
      SendData(w1, i, purpose, ok, where, recent);
    } else {
      SeekData(w1, i, purpose, ok, where, recent);
    }
  }

  lemma DoneKept(w: World, t: nat, ok: bool, ackdata: seq<byte>, where: Locator, recent: bool)
    requires Inv(w) && t in w.tasks
    ensures var w' := Done(w, t, ok, ackdata, where, recent);
      && KeptBut(w.msgs, w'.msgs, w.tasks[t].msg, ackdata)
      && (!w.tasks[t].purpose.GeneratingAckdata? ==> forall i :: KeptAt(w.msgs, w'.msgs, i))
  {
    DoneData(w, t, ok, ackdata, where, recent);
    DoneLeads(w, t, ok, ackdata, where, recent);
    assert TaskFine(w.msgs, w.tasks, t);
  }

  lemma InterruptKept(w: World, j: nat, e: Entry, where: Locator, i: nat)
    ensures KeptAt(w.msgs, Interrupt(w, j, e, where).msgs, i)
  {
    if Asks(w, j, e) {
      CancelFrame(w, j);
      CancelChanges(w, j);
      TryBlobLeads(Cancel(w, j), j, e, where);
      TryBlobData(Cancel(w, j), j, e, where);
    }
  }

  lemma {:induction false} InterruptAllKept(w: World, order: seq<nat>, e: Entry, where: Locator, i: nat)
    ensures KeptAt(w.msgs, InterruptAll(w, order, e, where).msgs, i)
    decreases |order|
  {
    if order != [] {
      InterruptKept(w, order[0], e, where, i);
      InterruptAllKept(Interrupt(w, order[0], e, where), order[1..], e, where, i);
    }
  }

  lemma RestoreKept(w: World, key: Key, toKey: bool, ackdata: seq<byte>, where: Locator, recent: bool)
    requires Inv(w)
    ensures KeptBut(w.msgs, FindKeyOrPost(NewMessage(w, key, toKey, ackdata), w.next, where, recent).msgs, w.next, ackdata)
  {
    var w1 := NewMessage(w, key, toKey, ackdata);
    LoadPublicKeyData(w1, w.next, where, recent);
    LoadPublicKeyLeads(w1, w.next, where, recent);
    PostMessageData(w1, w.next, recent);
    PostMessageLeads(w1, w.next, recent);
  }

  lemma ResendKept(w: World, j: nat, recent: bool, i: nat)
    requires j in w.msgs
    ensures KeptAt(w.msgs, ResendOne(w, j, recent).msgs, i)
  {
    if w.msgs[j].state.AwaitingPubkey? {
      SendGetpubkeyData(w, j, recent);
      SendGetpubkeyAsks(w, j, recent);
    } else if w.msgs[j].state.AwaitingAcknowledgement? {
      PostMessageData(w, j, recent);
      PostMessageLeads(w, j, recent);
    }
  }

  /** A step keeps ackdata distinct, if those it hands out are new. */
  lemma NextDistinct(w: World, e: Event)
    requires Inv(w) && Enabled(w, e) && DistinctAckdata(w.msgs) && Fresh(w, e)
    ensures DistinctAckdata(Next(w, e).msgs)
  {
    var msgs' := Next(w, e).msgs;
    match e
    case Send(key, toKey) =>
      forall i ensures KeptAt(w.msgs, msgs', i) {}
      KeptDistinct(w.msgs, msgs', 0, []);
    case Restore(key, toKey, ackdata, where, recent) =>
      RestoreKept(w, key, toKey, ackdata, where, recent);
      KeptDistinct(w.msgs, msgs', w.next, ackdata);
    case End(t, ok, ackdata, where, recent) =>
      DoneKept(w, t, ok, ackdata, where, recent);
      KeptDistinct(w.msgs, msgs', w.tasks[t].msg, ackdata);
    case NewPubkey(key, hash, timestamp, where) =>
      var entry := Entry(w.next, key, hash, timestamp);
      forall i ensures KeptAt(w.msgs, msgs', i) {
        InterruptAllKept(AddEntry(w, entry), Order(w.msgs, w.next), entry, where, i);
      }
      KeptDistinct(w.msgs, msgs', 0, []);
    case Received(content) => AcknowledgedFirst(w, content);
    case Expire(entry) => RemoveBlobKeeps(w, entry, None);
    case Resend(j, recent) =>
      forall i ensures KeptAt(w.msgs, msgs', i) { ResendKept(w, j, recent, i); }
      KeptDistinct(w.msgs, msgs', 0, []);
  }
}
