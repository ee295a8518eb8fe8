/** The ids of message contents. The counter that hands them out has 64 bits and is set
    beyond every id read at startup; an id read from a negative number is a large one, and
    behind the largest the counter begins again. */
module ContentIds {
  import opened Bytes
  import opened Proto
  import opened StoreAgreement
  import Addresses
  import KeyValue
  import Outgoings

  /** The next id is not that of a live message. */
  ghost predicate IsFresh(w: World)
  {
    !InUse(w.msgs, w.nextContent)
  }

  // -------------------------------------------------- counting without an end

  function Max(a: nat, b: nat): nat
  {
    if a < b then b else a
  }

  /** One more than the largest id read, or 0. */
  function Top(events: seq<Event>): nat
    decreases |events|
  {
    if events == [] then 0
    else if events[0].Restore? then Max(events[0].id + 1, Top(events[1..]))
    else Top(events[1..])
  }

  function Sends(events: seq<Event>): nat
    decreases |events|
  {
    if events == [] then 0 else (if events[0].Send? then 1 else 0) + Sends(events[1..])
  }

  /** Where a counter without an end would be after an event. */
  function Step(c: nat, e: Event): nat
  {
    match e
    case Restore(id, _) => Max(c, id + 1)
    case Send(_, _) => c + 1
    case _ => c
  }

  function Count(c: nat, events: seq<Event>): nat
    decreases |events|
  {
    if events == [] then c else Count(Step(c, events[0]), events[1..])
  }

  /** The counter is where one without an end would be, until that passes 64 bits. */
  ghost predicate Counted(w: World, c: nat)
  {
    (w.wrapped <==> c >= TWO_64) && (!w.wrapped ==> w.nextContent == c)
  }

  lemma {:induction false} AddMsgsCounter(w: World, msg: Message, n: nat)
    ensures var t := AddMsgs(w, msg, n);
      t.nextContent == w.nextContent && t.wrapped == w.wrapped && t.started == w.started
    decreases n
  {
    if n > 0 {
      AddMsgsCounter(w.(msgs := w.msgs[w.nextMsg := msg], nextMsg := w.nextMsg + 1), msg, n - 1);
    }
  }

  lemma NextCounted(w: World, e: Event, c: nat)
    requires Enabled(w, e) && Counted(w, c)
    ensures Counted(Next(w, e), Step(c, e))
  {
    if e.Send? {
      AddMsgsCounter(SaveContent(w, e.data), Message(w.nextContent, Some(e.data)), e.recipients);
    }
  }

  lemma {:induction false} RunCounted(w: World, events: seq<Event>, last: World, c: nat)
    requires Reaches(w, events, last) && Counted(w, c)
    ensures Counted(last, Count(c, events))
    decreases |events|
  {
    if events != [] {
      NextCounted(w, events[0], c);
      RunCounted(Next(w, events[0]), events[1..], last, Step(c, events[0]));
    }
  }

  lemma NextStarted(w: World, e: Event)
    requires Enabled(w, e)
    ensures Next(w, e).started == (w.started || e.Begin?)
  {
    if e.Send? {
      AddMsgsCounter(SaveContent(w, e.data), Message(w.nextContent, Some(e.data)), e.recipients);
    }
  }

  /** Ids are read before anything is sent. */
  lemma {:induction false} CountIs(w: World, events: seq<Event>, last: World, c: nat)
    requires Reaches(w, events, last)
    ensures Count(c, events) == Max(c, Top(events)) + Sends(events)
    ensures w.started ==> Top(events) == 0
    ensures !last.started ==> Sends(events) == 0
    decreases |events|
  {
    if events != [] {
      NextStarted(w, events[0]);
      CountIs(Next(w, events[0]), events[1..], last, Step(c, events[0]));
      StartedStays(Next(w, events[0]), events[1..], last);
    }
  }

  lemma {:induction false} StartedStays(w: World, events: seq<Event>, last: World)
    requires Reaches(w, events, last)
    ensures w.started ==> last.started
    decreases |events|
  {
    if events != [] {
      NextStarted(w, events[0]);
      StartedStays(Next(w, events[0]), events[1..], last);
    }
  }

  /** The counter has passed the end of 64 bits exactly when one more than the largest id
      read and the number of messages sent come to 2^64; until then it is their sum, and
      the next id is not that of a live message. */
  lemma CounterWraps(disk: map<Name, Data>, events: seq<Event>, last: World)
    requires Reaches(Start(disk), events, last)
    ensures last.wrapped <==> Top(events) + Sends(events) >= TWO_64
    ensures !last.wrapped ==> last.nextContent == Top(events) + Sends(events) && IsFresh(last)
  {
    RunCounted(Start(disk), events, last, 0);
    CountIs(Start(disk), events, last, 0);
    RunKeeps(Start(disk), events, last);
  }

  // ---------------------------------------------------- contents of one's own

  lemma {:induction false} CountGrows(c: nat, events: seq<Event>)
    ensures Count(c, events) >= c
    decreases |events|
  {
    if events != [] {
      CountGrows(Step(c, events[0]), events[1..]);
    }
  }

  lemma {:induction false} RunKeepsOwn(w: World, events: seq<Event>, last: World, c: nat)
    requires Inv(w, true) && Counted(w, c) && Reaches(w, events, last) && Count(c, events) <= TWO_64
    ensures Inv(last, true)
    decreases |events|
  {
    if events != [] {
      var e := events[0];
      CountGrows(Step(c, e), events[1..]);
      assert KeepsContents(w, e);
      NextKeeps(w, e, true);
      NextCounted(w, e, c);
      RunKeepsOwn(Next(w, e), events[1..], last, Step(c, e));
    }
  }

  /** In every run in which the counter hands out no id beyond 64 bits, every load gives the
      message the content it was sent with, or that was on disk when it was restored. */
  lemma EveryLoadGivesOwn(disk: map<Name, Data>, events: seq<Event>, last: World)
    requires Reaches(Start(disk), events, last) && Top(events) + Sends(events) <= TWO_64
    ensures forall f :: f in Findings(last.disk, last.queue) ==> f.load.Load? && f.got == f.load.want
  {
    CountIs(Start(disk), events, last, 0);
    RunKeepsOwn(Start(disk), events, last, 0);
    FindingsDue(last.disk, last.queue, true);
  }

  lemma {:induction false} TopBound(events: seq<Event>, max: nat)
    requires forall k :: 0 <= k < |events| && events[k].Restore? ==> events[k].id <= max
    ensures Top(events) <= max + 1
    decreases |events|
  {
    if events != [] {
      TopBound(events[1..], max);
    }
  }

  /** If all ids read are ints that are not negative, fewer than 2^64 - 2^31 messages can be
      sent before an id is used again. */
  lemma IntIdsAreSafe(disk: map<Name, Data>, events: seq<Event>, last: World)
    requires Reaches(Start(disk), events, last)
    requires forall k :: 0 <= k < |events| && events[k].Restore? ==> events[k].id <= Outgoings.INT_MAX
    requires Sends(events) < TWO_64 - TWO_31
    ensures IsFresh(last)
    ensures forall f :: f in Findings(last.disk, last.queue) ==> f.load.Load? && f.got == f.load.want
  {
    TopBound(events, Outgoings.INT_MAX);
    CounterWraps(disk, events, last);
    EveryLoadGivesOwn(disk, events, last);
  }

  // ------------------------------------------------------------------ startup

  /** A record of the file, and whether its sender's key is still there. */
  datatype Saved = Saved(id: nat, ours: bool)

  /** The largest id of 64 bits. */
  const END: nat := TWO_64 - 1

  function Restores(events: seq<Event>): seq<Saved>
    decreases |events|
  {
    if events == [] then []
    else (if events[0].Restore? then [Saved(events[0].id, events[0].ours)] else []) + Restores(events[1..])
  }

  /** The counter while a file is read. */
  function Counter(c: nat, rs: seq<Saved>): nat
    decreases |rs|
  {
    if rs == [] then c else Counter(if rs[0].id >= c then (rs[0].id + 1) % TWO_64 else c, rs[1..])
  }

  /** One more than the largest id, or 0. */
  function Largest(rs: seq<Saved>): nat
    decreases |rs|
  {
    if rs == [] then 0 else Max(rs[0].id + 1, Largest(rs[1..]))
  }

  /** The last record with the largest id there is. */
  function LastEnd(rs: seq<Saved>): (r: Option<nat>)
    ensures r.Some? ==> r.value < |rs|
    decreases |rs|
  {
    if rs == [] then None
    else
      var r := LastEnd(rs[1..]);
      if r.Some? then Some(r.value + 1) else if rs[0].id == END then Some(0) else None
  }

  ghost predicate Ids64(rs: seq<Saved>)
  {
    forall k :: 0 <= k < |rs| ==> rs[k].id < TWO_64
  }

  /** Behind the last record with the largest id the counting begins again. */
  lemma {:induction false} CounterIs(c: nat, rs: seq<Saved>)
    requires c < TWO_64 && Ids64(rs)
    ensures Counter(c, rs) ==
      match LastEnd(rs) case None => Max(c, Largest(rs)) case Some(p) => Largest(rs[p + 1..])
    decreases |rs|
  {
    if rs != [] {
      var c' := if rs[0].id >= c then (rs[0].id + 1) % TWO_64 else c;
      CounterIs(c', rs[1..]);
      var r := LastEnd(rs[1..]);
      if r.Some? {
        assert rs[1..][r.value + 1..] == rs[r.value + 2..];
      }
    }
  }

  lemma {:induction false} LargestAbove(rs: seq<Saved>, k: nat)
    requires k < |rs|
    ensures rs[k].id < Largest(rs)
    decreases |rs|
  {
    if k > 0 {
      LargestAbove(rs[1..], k - 1);
    }
  }

  ghost predicate HasOurs(rs: seq<Saved>, id: nat)
  {
    exists k :: 0 <= k < |rs| && rs[k] == Saved(id, true)
  }

  lemma HasOursFirst(rs: seq<Saved>, id: nat)
    requires rs != []
    ensures HasOurs(rs, id) <==> rs[0] == Saved(id, true) || HasOurs(rs[1..], id)
  {
    if HasOurs(rs[1..], id) {
      var k :| 0 <= k < |rs[1..]| && rs[1..][k] == Saved(id, true);
      assert rs[k + 1] == Saved(id, true);
    }
    if HasOurs(rs, id) {
      var k :| 0 <= k < |rs| && rs[k] == Saved(id, true);
      assert k > 0 ==> rs[1..][k - 1] == Saved(id, true);
    }
  }

  /** What one step of the startup does to the counter and to the ids in use. */
  lemma BootStep(w: World, e: Event, id: nat)
    requires Inv(w, false) && Enabled(w, e) && !Next(w, e).started
    ensures Next(w, e).nextContent == Counter(w.nextContent, Restores([e]))
    ensures InUse(Next(w, e).msgs, id) <==> InUse(w.msgs, id) || (e.Restore? && e.ours && e.id == id)
  {
    NextStarted(w, e);
    assert [e][1..] == [];
    if e.Restore? {
      RestoreInUse(w, e.id, e.ours, id);
    }
  }

  lemma RestoreInUse(w: World, r: nat, ours: bool, id: nat)
    requires IdsOk(w)
    ensures InUse(RestoreOne(w, r, ours).msgs, id) <==> InUse(w.msgs, id) || (ours && r == id)
  {
    var t := RestoreOne(w, r, ours);
    if ours {
      assert t.msgs[w.nextMsg].id == r;
      assert forall m :: m in w.msgs ==> m in t.msgs && t.msgs[m] == w.msgs[m];
    }
  }

  lemma CounterFirst(c: nat, e: Event, rest: seq<Saved>)
    ensures Counter(c, Restores([e]) + rest) == Counter(Counter(c, Restores([e])), rest)
  {
    assert [e][1..] == [];
    var first := if e.Restore? then [Saved(e.id, e.ours)] else [];
    assert Restores([e]) == first + [] == first;
    if e.Restore? {
      assert (first + rest)[0] == first[0] && (first + rest)[1..] == rest && first[1..] == [];
    } else {
      assert first + rest == rest;
    }
  }

  lemma RestoresFirst(events: seq<Event>)
    requires events != []
    ensures Restores(events) == Restores([events[0]]) + Restores(events[1..])
  {
    assert [events[0]][1..] == [];
    var first := if events[0].Restore? then [Saved(events[0].id, events[0].ours)] else [];
    assert Restores([events[0]]) == first + [] == first;
  }

  lemma {:induction false} BootRun(w: World, events: seq<Event>, last: World, id: nat)
    requires Inv(w, false) && Reaches(w, events, last) && !last.started
    ensures last.nextContent == Counter(w.nextContent, Restores(events)) && Ids64(Restores(events))
    ensures InUse(last.msgs, id) <==> InUse(w.msgs, id) || HasOurs(Restores(events), id)
    decreases |events|
  {
    if events != [] {
      var e, t := events[0], Next(w, events[0]);
      StartedStays(t, events[1..], last);
      BootStep(w, e, id);
      NextKeeps(w, e, false);
      BootRun(t, events[1..], last, id);
      RestoresFirst(events);
      CounterFirst(w.nextContent, e, Restores(events[1..]));
      BootMore(e, Restores(events[1..]), id);
    }
  }

  lemma BootMore(e: Event, rest: seq<Saved>, id: nat)
    ensures HasOurs(Restores([e]) + rest, id) <==> (e.Restore? && e.ours && e.id == id) || HasOurs(rest, id)
    ensures (e.Restore? ==> e.id < TWO_64) && Ids64(rest) ==> Ids64(Restores([e]) + rest)
  {
    assert [e][1..] == [];
    var first := if e.Restore? then [Saved(e.id, e.ours)] else [];
    assert Restores([e]) == first + [] == first;
    if e.Restore? {
      assert (first + rest)[1..] == rest;
      HasOursFirst(first + rest, id);
    } else {
      assert first + rest == rest;
    }
  }

  /** The records up to the last one with the largest id leave alone the id at which the
      counting ends behind it. */
  ghost predicate StartsFresh(rs: seq<Saved>)
  {
    match LastEnd(rs)
    case None => true
    case Some(p) => forall k :: 0 <= k <= p && rs[k].ours ==> rs[k].id != Largest(rs[p + 1..])
  }

  lemma NotOurs(rs: seq<Saved>)
    requires Ids64(rs)
    ensures !HasOurs(rs, Counter(0, rs)) <==> StartsFresh(rs)
  {
    CounterIs(0, rs);
    var c := Counter(0, rs);
    match LastEnd(rs)
    case None =>
      forall k: nat | k < |rs| ensures rs[k].id != c { LargestAbove(rs, k); }
    case Some(p) =>
      var rest := rs[p + 1..];
      forall k: nat | p < k < |rs| ensures rs[k].id != c {
        LargestAbove(rest, k - p - 1);
        assert rest[k - p - 1] == rs[k];
      }
      if !StartsFresh(rs) {
        var k :| 0 <= k <= p && rs[k].ours && rs[k].id == c;
        assert rs[k] == Saved(c, true);
      }
  }

  /** At any moment of the startup, in whatever way it is interleaved with the store's thread:
      the next id is not that of a message restored, if and only if no record of the file up
      to the last one with the largest id of 64 bits has the id that follows the largest one
      behind it. */
  lemma StartupFreshIff(disk: map<Name, Data>, events: seq<Event>, last: World)
    requires Reaches(Start(disk), events, last) && !last.started
    ensures IsFresh(last) <==> StartsFresh(Restores(events))
  {
    var rs := Restores(events);
    BootRun(Start(disk), events, last, Counter(0, rs));
    NotOurs(rs);
  }

  // -------------------------------------------------------------- from a file

  function RestoreEvents(list: seq<Outgoings.Outgoing>, ours: Outgoings.Outgoing -> bool): seq<Event>
    requires forall o :: o in list ==> Outgoings.Readable(o.contentId)
    decreases |list|
  {
    if list == [] then []
    else
      assert Outgoings.Readable(list[0].contentId);
      [Restore(list[0].contentId, ours(list[0]))] + RestoreEvents(list[1..], ours)
  }

  lemma {:induction false} FileRun(w: World, list: seq<Outgoings.Outgoing>, ours: Outgoings.Outgoing -> bool)
    returns (last: World)
    requires !w.started && forall o :: o in list ==> Outgoings.Readable(o.contentId)
    ensures Reaches(w, RestoreEvents(list, ours), last) && !last.started
    decreases |list|
  {
    last := w;
    if list != [] {
      assert list[0] in list;
      var e, more := Restore(list[0].contentId, ours(list[0])), RestoreEvents(list[1..], ours);
      NextStarted(w, e);
      last := FileRun(Next(w, e), list[1..], ours);
      assert ([e] + more)[0] == e && ([e] + more)[1..] == more;
    }
  }

  /** Any file can be read, and leaves the next id fresh exactly when its records say so. */
  lemma FileFreshIff(sha: seq<byte> -> seq<byte>, file: seq<byte>, ours: Outgoings.Outgoing -> bool,
                     disk: map<Name, Data>)
    returns (last: World)
    requires IsSha512(sha)
    ensures forall o :: o in Outgoings.Loaded(sha, file) ==> Outgoings.Readable(o.contentId)
    ensures var events := RestoreEvents(Outgoings.Loaded(sha, file), ours);
      Reaches(Start(disk), events, last) && (IsFresh(last) <==> StartsFresh(Restores(events)))
  {
    Outgoings.LoadedIds(sha, file);
    var list := Outgoings.Loaded(sha, file);
    last := FileRun(Start(disk), list, ours);
    StartupFreshIff(disk, RestoreEvents(list, ours), last);
  }

  // ------------------------------------------------------------ two records

  /** A file of two records, the first with the id 0 and the second with -1. */
  function TwoRecords(sha: seq<byte> -> seq<byte>, o: Outgoings.Outgoing): seq<byte>
    requires IsSha512(sha)
  {
    Outgoings.WrittenAll(sha, [o.(contentId := 0), o.(contentId := -1)])
  }

  lemma TwoIds(sha: seq<byte> -> seq<byte>, o: Outgoings.Outgoing)
    requires IsSha512(sha) && Outgoings.Typed(o) && o.from.version >= 1 && o.to.version >= 1
    ensures Outgoings.Loaded(sha, TwoRecords(sha, o)) == [o.(contentId := 0), o.(contentId := END)]
    ensures Outgoings.ToU64(KeyValue.ParseInt(KeyValue.Printed(-1), Outgoings.INT_MAX)) == Some(END)
  {
    DivModUnique(-1, TWO_64, -1, END);
    Outgoings.TwoRecordsLoaded(sha, o, 0, -1);
    KeyValue.PrintedRoundTrip(-1, Outgoings.INT_MAX);
  }

  /** The world once the two records are read: both messages live, and the counter at 0. */
  function AfterTwo(own: Data): World
  {
    World(map[Content(0) := own], [], map[0 := Message(0, Some(own)), 1 := Message(END, None)], map[], 0, true, 2,
          false, {0, END}, {END})
  }

  lemma TwoRestored(own: Data)
    ensures Reaches(Start(map[Content(0) := own]), [Restore(0, true), Restore(END, true)], AfterTwo(own))
    ensures !IsFresh(AfterTwo(own))
  {
    var w := Start(map[Content(0) := own]);
    var a, b := Restore(0, true), Restore(END, true);
    var w1 := Next(w, a);
    assert Next(w1, b) == AfterTwo(own);
    assert [a, b][1..] == [b] && [b][1..] == [];
    assert Reaches(AfterTwo(own), [], AfterTwo(own));
    assert Reaches(w1, [b], AfterTwo(own));
    assert AfterTwo(own).msgs[0].id == 0;
  }

  /** The id of a live message is handed out again: the next message sent is saved over its
      content, which the message then finds in place of its own. */
  lemma TwoRecordsCollide(sha: seq<byte> -> seq<byte>, o: Outgoings.Outgoing, own: Data, data: Data)
    requires IsSha512(sha) && Outgoings.Typed(o) && o.from.version >= 1 && o.to.version >= 1 && own != data
    ensures Outgoings.Loaded(sha, TwoRecords(sha, o)) == [o.(contentId := 0), o.(contentId := END)]
    ensures RestoreEvents([o.(contentId := 0), o.(contentId := END)], x => true) == [Restore(0, true), Restore(END, true)]
    ensures Reaches(Start(map[Content(0) := own]), [Restore(0, true), Restore(END, true)], AfterTwo(own))
    ensures !IsFresh(AfterTwo(own))
    ensures
      var w := Next(Next(AfterTwo(own), Begin), Send(1, data));
      var t := Next(w, LoadContent(0));
      Finding(Load(Content(0), true, Some(own)), Some(data)) in Findings(t.disk, t.queue)
  {
    TwoIds(sha, o);
    TwoEvents(o);
    TwoRestored(own);
    TwoFindings(own, data);
  }

  lemma TwoEvents(o: Outgoings.Outgoing)
    ensures RestoreEvents([o.(contentId := 0), o.(contentId := END)], x => true) == [Restore(0, true), Restore(END, true)]
  {
    var a, b := o.(contentId := 0), o.(contentId := END);
    assert [a, b][1..] == [b] && [b][1..] == [];
    assert RestoreEvents([b], x => true) == [Restore(END, true)];
  }

  lemma TwoFindings(own: Data, data: Data)
    ensures
      var w := Next(Next(AfterTwo(own), Begin), Send(1, data));
      var t := Next(w, LoadContent(0));
      Finding(Load(Content(0), true, Some(own)), Some(data)) in Findings(t.disk, t.queue)
  {
    var s := Next(AfterTwo(own), Begin);
    var saved := SaveContent(s, data);
    assert AddMsgs(saved, Message(0, Some(data)), 1)
      == saved.(msgs := saved.msgs[2 := Message(0, Some(data))], nextMsg := 3);
    var save, load := Save(Content(0), data), Load(Content(0), true, Some(own));
    var t := Next(Next(s, Send(1, data)), LoadContent(0));
    assert t.queue == [save, load];
    assert [save, load][1..] == [load] && [load][1..] == [];
    var disk := Apply(t.disk, save);
    assert Findings(disk, [load]) == [Finding(load, Some(data))] + [];
  }
}
