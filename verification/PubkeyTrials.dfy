/** How often a message can fail with a pubkey before another one arrives. */
module PubkeyTrials {
  import opened Bytes
  import opened PubkeyIndex
  import opened Keyring

  /** The message tries a pubkey, or loads one to try, and is given nothing. */
  ghost predicate Fails(w: World, e: Event, i: nat)
  {
    e.End? && !e.ok && e.task in w.tasks && w.tasks[e.task].msg == i && Tries(w.tasks[e.task].purpose)
  }

  /** How many pubkeys a message may still fail with. */
  function Trials(w: World, i: nat): nat
  {
    if i !in w.msgs then 0
    else if Tries(w.msgs[i].state) && w.msgs[i].trying.Some? then Left(w, i)
    else if w.msgs[i].state.GeneratingAckdata? then |Group(w.list, w.msgs[i].key)|
    else 0
  }

  ghost predicate Reaches(w: World, events: seq<Event>, last: World)
    decreases |events|
  {
    if events == [] then last == w
    else Enabled(w, events[0]) && Reaches(Next(w, events[0]), events[1..], last)
  }

  ghost function Failures(w: World, events: seq<Event>, i: nat): nat
    decreases |events|
  {
    if events == [] || !Enabled(w, events[0]) then 0
    else (if Fails(w, events[0], i) then 1 else 0) + Failures(Next(w, events[0]), events[1..], i)
  }

  // ------------------------------------------------------------ the entry list

  lemma {:induction false} TryAllList(w: World, i: nat, group: seq<Entry>, where: Locator)
    requires i in w.msgs
    ensures TryAll(w, i, group, where).0.list == w.list && TryAll(w, i, group, where).0.next >= w.next
    decreases |group|
  {
    if group != [] {
      TryBlobList(w, i, group[0], where);
      var r := TryBlob(w, i, group[0], where);
      if !r.1 {
        TryAllList(r.0, i, group[1..], where);
      }
    }
  }

  lemma SetTryingList(w: World, i: nat, e: Entry)
    requires i in w.msgs
    ensures SetTrying(w, i, e).list == w.list && SetTrying(w, i, e).next == w.next
  {
    UnrefTryingPicks(w, i);
  }

  lemma TryBlobList(w: World, i: nat, e: Entry, where: Locator)
    requires i in w.msgs
    ensures TryBlob(w, i, e, where).0.list == w.list && TryBlob(w, i, e, where).0.next >= w.next
  {
    SetTryingList(w, i, e);
  }

  lemma LoadPublicKeyList(w: World, i: nat, where: Locator, recent: bool)
    requires i in w.msgs
    ensures LoadPublicKey(w, i, where, recent).list == w.list && LoadPublicKey(w, i, where, recent).next >= w.next
  {
    TryAllList(w, i, Group(w.list, w.msgs[i].key), where);
  }

  lemma FreeList(w: World, i: nat)
    requires i in w.msgs
    ensures Free(w, i).list == w.list && Free(w, i).next == w.next
  {
  }

  lemma UnrefList(w: World, e: Entry)
    ensures var w' := Unref(w, e); w'.next == w.next && w'.msgs == w.msgs && w'.list == w.list
  {
  }

  lemma RemoveList(w: World, e: Entry)
    ensures RemoveBlob(w, e).next == w.next && RemoveBlob(w, e).msgs == w.msgs
    ensures RemoveBlob(w, e).list == if e in w.list then RemovedAt(w.list, PosOf(w.list, e)) else w.list
  {
    if e in w.list {
      var p := PosOf(w.list, e);
      var list, table := RemovedAt(w.list, p), TableWithout(w.list, w.table, p);
      UnrefList(w.(list := list, table := table), e);
    }
  }

  /** A callback leaves the entries alone, except that a pubkey it failed with goes. */
  lemma CallbackList(w: World, i: nat, purpose: MState, ok: bool, where: Locator, recent: bool)
    requires InvBut(w, Some(i)) && PartsOk(w.msgs[i], purpose)
    ensures var w' := Callback(w, i, purpose, ok, where, recent);
      && w'.next >= w.next
      && w'.list == if Tries(purpose) && !ok then RemoveBlob(w, w.msgs[i].trying.value).list else w.list
  {
    if purpose.GeneratingAckdata? {
      LoadPublicKeyList(w, i, where, recent);
    } else if Tries(purpose) && !ok {
      TriedIsAllocated(w, i);
      RemoveList(w, w.msgs[i].trying.value);
      LoadPublicKeyList(RemoveBlob(w, w.msgs[i].trying.value), i, where, recent);
    } else if purpose.LoadingContent? && !ok {
      FreeList(w, i);
    }
  }

  /** The list is the same, or one entry was taken out. */
  ghost predicate Fewer(w: World, w': World)
  {
    w'.list == w.list || exists e :: w'.list == RemoveBlob(w, e).list
  }

  lemma FewerLeft(w: World, w': World, i: nat)
    requires DistinctIds(w.list) && Fewer(w, w') && i in w.msgs && i in w'.msgs && w'.msgs[i] == w.msgs[i]
    requires TryingOk(w.msgs[i])
    ensures Trials(w', i) <= Trials(w, i)
  {
    if w'.list != w.list {
      var e :| w'.list == RemoveBlob(w, e).list;
      RemoveShrinks(w, e);
      TriedStays(w, e, w.msgs[i].trying);
    }
  }

  lemma TriedStays(w: World, e: Entry, tried: Option<Entry>)
    requires DistinctIds(w.list)
    ensures tried.Some? && tried.value in w.list && tried.value != e ==> tried.value in RemoveBlob(w, e).list
  {
    if tried.Some? && e in w.list {
      RemovedMembers(w.list, PosOf(w.list, e), tried.value);
    }
  }

  // ------------------------------------------------------------------- a step

  /** A step that does not change the message. */
  lemma OtherStep(w: World, w': World, i: nat)
    requires Inv(w) && Fewer(w, w')
    requires i in w'.msgs ==> i in w.msgs && w'.msgs[i] == w.msgs[i]
    ensures Trials(w', i) <= Trials(w, i)
  {
    if i in w'.msgs {
      assert MsgFine(w.msgs, w.tasks, i);
      FewerLeft(w, w', i);
    }
  }

  lemma LeftPositive(w: World, i: nat)
    requires i in w.msgs && w.msgs[i].trying.Some? && w.msgs[i].trying.value.key == w.msgs[i].key
    ensures Left(w, i) >= 1
  {
    if w.msgs[i].trying.value in w.list {
      GroupMembers(w.list, w.msgs[i].key, w.msgs[i].trying.value);
    }
  }

  /** A callback of the message itself. */
  lemma CallbackTrials(w: World, i: nat, purpose: MState, ok: bool, where: Locator, recent: bool)
    requires InvBut(w, Some(i)) && PartsOk(w.msgs[i], purpose) && (purpose.GeneratingAckdata? || Tries(purpose))
    ensures Trials(Callback(w, i, purpose, ok, where, recent), i) + (if Tries(purpose) && !ok then 1 else 0)
         <= if Tries(purpose) then Left(w, i) else |Group(w.list, w.msgs[i].key)|
  {
    SeekCallbackLeads(w, i, purpose, ok, where, recent);
    if purpose.GeneratingAckdata? {
      LoadPublicKeyPicks(w, i, where, recent);
    } else if !ok {
      FailureShrinks(w, i, where, recent);
      LeftPositive(w, i);
    }
  }

  lemma OwnStep(w: World, t: nat, ok: bool, ackdata: seq<byte>, where: Locator, recent: bool)
    requires Inv(w) && t in w.tasks
    ensures var i, w' := w.tasks[t].msg, Done(w, t, ok, ackdata, where, recent);
      Trials(w', i) + (if Tries(w.tasks[t].purpose) && !ok then 1 else 0) <= Trials(w, i)
  {
    if w.tasks[t].purpose.GeneratingAckdata? || Tries(w.tasks[t].purpose) {
      SeekStep(w, t, ok, ackdata, where, recent);
    } else {
      DoneLeads(w, t, ok, ackdata, where, recent);
    }
  }

  lemma SeekStep(w: World, t: nat, ok: bool, ackdata: seq<byte>, where: Locator, recent: bool)
    requires Inv(w) && t in w.tasks && (w.tasks[t].purpose.GeneratingAckdata? || Tries(w.tasks[t].purpose))
    ensures var i, w' := w.tasks[t].msg, Done(w, t, ok, ackdata, where, recent);
      Trials(w', i) + (if Tries(w.tasks[t].purpose) && !ok then 1 else 0) <= Trials(w, i)
  {
    var i, purpose := w.tasks[t].msg, w.tasks[t].purpose;
    ReleasedKeeps(w, t, ackdata);
    var w1 := w.(tasks := w.tasks - {t}, msgs := w.msgs[i := Told(w.msgs[i], purpose, ackdata)]);
    CallbackTrials(w1, i, purpose, ok, where, recent);
  }

  lemma DoneFewer(w: World, t: nat, ok: bool, ackdata: seq<byte>, where: Locator, recent: bool)
    requires Inv(w) && t in w.tasks
    ensures Fewer(w, Done(w, t, ok, ackdata, where, recent)) && Done(w, t, ok, ackdata, where, recent).next >= w.next
  {
    var i, purpose := w.tasks[t].msg, w.tasks[t].purpose;
    ReleasedKeeps(w, t, ackdata);
    var w1 := w.(tasks := w.tasks - {t}, msgs := w.msgs[i := Told(w.msgs[i], purpose, ackdata)]);
    CallbackList(w1, i, purpose, ok, where, recent);
    if Tries(purpose) && !ok {
      RemoveList(w1, w1.msgs[i].trying.value);
      RemoveList(w, w1.msgs[i].trying.value);
    }
  }

  lemma DoneStep(w: World, t: nat, ok: bool, ackdata: seq<byte>, where: Locator, recent: bool, i: nat)
    requires Inv(w) && t in w.tasks && i != w.tasks[t].msg
    ensures Trials(Done(w, t, ok, ackdata, where, recent), i) <= Trials(w, i)
  {
    DoneFewer(w, t, ok, ackdata, where, recent);
    DoneLeads(w, t, ok, ackdata, where, recent);
    OtherStep(w, Done(w, t, ok, ackdata, where, recent), i);
  }

  lemma NewStep(w: World, e: Event, i: nat)
    requires Inv(w) && (e.Send? || e.Restore?) && i < w.next
    ensures Trials(Next(w, e), i) <= Trials(w, i) && i < Next(w, e).next
  {
    match e
    case Send(key, toKey) =>
      OtherStep(w, Next(w, e), i);
    case Restore(key, toKey, ackdata, where, recent) =>
      var w1 := NewMessage(w, key, toKey, ackdata);
      LoadPublicKeyList(w1, w.next, where, recent);
      LoadPublicKeyLeads(w1, w.next, where, recent);
      OtherStep(w, Next(w, e), i);
  }

  lemma ResendStep(w: World, j: nat, recent: bool, i: nat)
    requires Inv(w) && j in w.msgs
    ensures Trials(ResendOne(w, j, recent), i) <= Trials(w, i) && ResendOne(w, j, recent).next >= w.next
  {
    ResendFrame(w, j, recent);
    if i != j || ResendOne(w, j, recent) == w {
      OtherStep(w, ResendOne(w, j, recent), i);
    }
  }

  lemma ResendFrame(w: World, j: nat, recent: bool)
    requires j in w.msgs
    ensures var w' := ResendOne(w, j, recent);
      && w'.list == w.list && w'.next >= w.next
      && (w' == w || (OnlyAt(w.msgs, w'.msgs, j) && !Tries(w'.msgs[j].state) && !w'.msgs[j].state.GeneratingAckdata?))
  {
    if w.msgs[j].state.AwaitingPubkey? {
      SendGetpubkeyFrame(w, j, recent);
    } else if w.msgs[j].state.AwaitingAcknowledgement? {
      PostMessageFrame(w, j, recent);
    }
  }

  lemma SendGetpubkeyFrame(w: World, j: nat, recent: bool)
    requires j in w.msgs
    ensures var w' := SendGetpubkey(w, j, recent);
      && w'.list == w.list && w'.next >= w.next
      && OnlyAt(w.msgs, w'.msgs, j) && !Tries(w'.msgs[j].state) && !w'.msgs[j].state.GeneratingAckdata?
  {
  }

  lemma PostMessageFrame(w: World, j: nat, recent: bool)
    requires j in w.msgs
    ensures var w' := PostMessage(w, j, recent);
      && w'.list == w.list && w'.next >= w.next
      && OnlyAt(w.msgs, w'.msgs, j) && !Tries(w'.msgs[j].state) && !w'.msgs[j].state.GeneratingAckdata?
  {
  }

  lemma EndedStep(w: World, content: seq<byte>, i: nat)
    requires Inv(w)
    ensures Trials(CheckAcknowledgement(w, content), i) <= Trials(w, i) && CheckAcknowledgement(w, content).next == w.next
  {
    var r := FindFrom(w, 0, content);
    if r.Some? {
      FreeLeaves(w, r.value);
      FreeList(w, r.value);
      OtherStep(w, Free(w, r.value), i);
    }
  }

  /** Every failure costs the message one of its trials, and only a new pubkey gives it
      more. */
  lemma TrialsShrink(w: World, e: Event, i: nat)
    requires Inv(w) && Enabled(w, e) && !e.NewPubkey? && i < w.next
    ensures Trials(Next(w, e), i) + (if Fails(w, e, i) then 1 else 0) <= Trials(w, i) && i < Next(w, e).next
  {
    match e
    case Send(_, _) => NewStep(w, e, i);
    case Restore(_, _, _, _, _) => NewStep(w, e, i);
    case End(t, ok, ackdata, where, recent) =>
      DoneFewer(w, t, ok, ackdata, where, recent);
      if w.tasks[t].msg == i {
        OwnStep(w, t, ok, ackdata, where, recent);
      } else {
        DoneStep(w, t, ok, ackdata, where, recent, i);
      }
    case Received(content) => EndedStep(w, content, i);
    case Expire(entry) =>
      RemoveList(w, entry);
      OtherStep(w, RemoveBlob(w, entry), i);
    case Resend(j, recent) => ResendStep(w, j, recent, i);
  }

  lemma {:induction false} FailuresCost(w: World, events: seq<Event>, last: World, i: nat)
    requires Inv(w) && Reaches(w, events, last) && i < w.next
    requires forall k :: 0 <= k < |events| ==> !events[k].NewPubkey?
    ensures Inv(last) && Trials(last, i) + Failures(w, events, i) <= Trials(w, i)
    decreases |events|
  {
    if events != [] {
      assert !events[0].NewPubkey?;
      NextKeeps(w, events[0]);
      TrialsShrink(w, events[0], i);
      FailuresCost(Next(w, events[0]), events[1..], last, i);
    }
  }

  /** Between two arrivals of pubkeys, however the callbacks, timers and other messages are
      interleaved, a message fails no more often than there are pubkeys for it, and once
      more for one that was taken from it while it tried it. */
  lemma FailuresBounded(w: World, events: seq<Event>, last: World, i: nat)
    requires Inv(w) && Reaches(w, events, last) && i in w.msgs
    requires forall k :: 0 <= k < |events| ==> !events[k].NewPubkey?
    ensures Failures(w, events, i) <= |Group(w.list, w.msgs[i].key)| + 1
  {
    FailuresCost(w, events, last, i);
  }
}
