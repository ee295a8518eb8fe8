/** The scheduler's structures as the program updates them while it holds the lock. Every
    method is one critical section: it follows no freed cookie, keeps the scheduler's
    invariant, and tells its caller what it has done. */
module PowInPlace {
  import opened Bytes
  import opened Proto
  import opened PowScheduler

  class Pow {
    const sha: seq<byte> -> seq<byte>
    const n: nat
    var quit: bool
    var freed: bool
    var heap: map<Id, Cookie>
    var queue: seq<Id>
    var threads: seq<Thread>
    var next: Id
    ghost var callers: set<Id>
    ghost var jobs: seq<Job>
    ghost var tried: map<(Id, nat), nat>
    ghost var cancelled: set<Id>
    ghost var calls: seq<(Id, nat)>

    ghost function Abs(): State
      reads this
    {
      State(n, quit, freed, false, heap, queue, threads, callers, jobs, tried, cancelled, calls)
    }

    /** The scheduler's invariant, and names handed out in the order of the jobs. */
    ghost predicate Safe()
      reads this
    {
      IsSha512(sha) && Inv(sha, Abs()) && next == |jobs|
    }

    constructor (sha: seq<byte> -> seq<byte>, n: nat)
      requires IsSha512(sha) && 1 <= n < TWO_31
      ensures Abs() == Init(n) && Safe() && this.sha == sha
    {
      this.sha, this.n, quit, freed := sha, n, false, false;
      heap, queue, threads, next := map[], [], seq(n, i => Waiting), 0;
      callers, jobs, tried, cancelled, calls := {}, [], map[], {}, [];
      new;
      EveryRunSafe(sha, n, []);
    }

    /** unref_cookie */
    method UnrefCookie(id: Id)
      requires id in heap
      modifies this`heap
      ensures Abs() == Unref(old(Abs()), id)
    {
      if heap[id].refCount - 1 <= 0 {
        heap := heap - {id};
      } else {
        heap := heap[id := heap[id].(refCount := heap[id].refCount - 1)];
      }
    }

    /** remove_queued_cookie */
    method RemoveQueuedCookie(id: Id)
      requires id in heap && id in queue
      modifies this`heap, this`queue
      ensures Abs() == RemoveQueued(old(Abs()), id)
    {
      queue := Without(queue, id);
      UnrefCookie(id);
    }

    /** ntb_pow_calculate: the new cookie is its caller's, waits with none of its offsets
        handed out, and does not take the head's place. */
    method Calculate(job: Job) returns (id: Id)
      requires Safe() && !freed
      modifies this
      ensures Abs() == DoSubmit(old(Abs()), job) && Safe()
      ensures id !in old(heap) && id in callers && jobs == old(jobs) + [job] && id == |old(jobs)|
      ensures id in queue && id in heap && heap[id].nextOffset == 0 && !heap[id].done
      ensures old(queue) != [] ==> queue[0] == old(queue)[0]
    {
      ghost var s := Abs();
      SubmitFresh(sha, s);
      id := next;
      heap := heap[id := Cookie(2, 0, job.hash, job.target, 0, false, false)];
      queue := if queue == [] then [id] else [queue[0], id] + queue[1..];
      next := next + 1;
      callers, jobs := callers + {id}, jobs + [job];
      assert Abs() == DoSubmit(s, job);
      NextKeeps(sha, s, Submit(job));
    }

    /** thread_func takes an offset that no thread was ever given for this job, from the
        first cookie in the queue, which leaves the queue with its last offset. */
    method PickUp(t: nat) returns (id: Id, offset: nat)
      requires Safe() && Enabled(Abs(), Pick(t))
      modifies this
      ensures Abs() == DoPick(old(Abs()), t) && Safe()
      ensures id == old(queue)[0] && offset < n && (id, offset) !in old(tried)
      ensures threads == old(threads)[t := Checking(id, offset, offset)]
      ensures queue == (if offset + 1 == n then old(queue)[1..] else old(queue))
      ensures forall x :: x in old(heap) && x != id ==> x in heap && heap[x] == old(heap)[x]
    {
      ghost var s := Abs();
      QueueHead(sha, s);
      id, offset := TakeOffset(t);
      PickMeans(sha, s, t);
      NextKeeps(sha, s, Pick(t));
    }

    method TakeOffset(t: nat) returns (id: Id, offset: nat)
      requires Enabled(Abs(), Pick(t)) && queue[0] in heap
      modifies this
      ensures Abs() == DoPick(old(Abs()), t) && next == old(next)
      ensures id == old(queue)[0] && offset == old(heap)[id].nextOffset
    {
      id := queue[0];
      offset := heap[id].nextOffset;
      heap := heap[id := heap[id].(refCount := heap[id].refCount + 1, nextOffset := offset + 1)];
      if offset + 1 >= n {
        RemoveQueuedCookie(id);
      }
      threads := threads[t := Checking(id, offset, offset)];
      tried := tried[(id, offset) := 0];
    }

    /** find_nonce looks whether it is still wanted: it goes on exactly with a cookie that
        is neither solved nor cancelled, and otherwise gives up its reference. */
    method CheckDone(t: nat) returns (go: bool)
      requires Safe() && Enabled(Abs(), Check(t))
      modifies this
      ensures Abs() == DoCheck(old(Abs()), t) && Safe()
      ensures var id := old(threads)[t].id;
        && id in old(heap) && go == (!old(heap)[id].done && !quit)
        && (if go then threads[t].Searching? && heap == old(heap) else threads[t].Waiting?)
    {
      ghost var s := Abs();
      WorkerHolds(sha, s, t);
      var th := threads[t];
      go := !heap[th.id].done && !quit;
      if !go {
        threads := threads[t := Waiting];
        UnrefCookie(th.id);
      } else {
        threads := threads[t := Searching(th.id, th.offset, th.nonce)];
      }
      NextKeeps(sha, s, Check(t));
    }

    /** One round of find_nonce, without the lock: it goes through the next nonces of the
        thread's offset and stops at the first that solves the job. */
    method FindNonce(t: nat) returns (r: Outcome)
      requires Safe() && Enabled(Abs(), Round(t))
      modifies this
      ensures Abs() == DoRound(sha, old(Abs()), t) && Safe() && heap == old(heap)
      ensures old(threads)[t].id < |jobs|
      ensures var th := old(threads)[t];
        var p := PickOf(th);
        && p in old(tried) && p in tried && tried[p] >= old(tried)[p] && threads == old(threads)[t := AfterRound(th, r)]
        && Gives(TestOf(sha, jobs[th.id]), Class(th.offset, n), old(tried)[p], r, tried[p] - old(tried)[p])
    {
      ghost var s := Abs();
      WorkerHolds(sha, s, t);
      r := MakeRound(t);
      RoundMeans(sha, s, t);
      NextKeeps(sha, s, Round(t));
    }

    method MakeRound(t: nat) returns (r: Outcome)
      requires IsSha512(sha) && Enabled(Abs(), Round(t)) && threads[t].id in heap && PickOf(threads[t]) in tried
      modifies this`tried, this`threads
      ensures Abs() == DoRound(sha, old(Abs()), t)
      ensures var th := old(threads)[t];
        r == Search(sha, Job(heap[th.id].hash, heap[th.id].target), n, th.nonce, NONCES_PER_CHECK)
    {
      ghost var s := Abs();
      var th := threads[t];
      var c := heap[th.id];
      ghost var count := SearchCount(sha, Job(c.hash, c.target), n, th.nonce, NONCES_PER_CHECK);
      r := SearchRound(sha, Job(c.hash, c.target), n, th.nonce);
      tried := tried[PickOf(th) := tried[PickOf(th)] + count];
      match r {
        case Hit(nonce) => threads := threads[t := Found(th.id, th.offset, nonce)];
        case Miss(nonce) => threads := threads[t := Checking(th.id, th.offset, nonce)];
      }
      RoundEffect(sha, s, t);
    }

    /** set_solution: the cookie is done, and a nonce is set, one that solves the job, only
        if there was none and the cookie is still wanted. */
    method SetSolution(t: nat) returns (first: bool)
      requires Safe() && Enabled(Abs(), Solve(t))
      modifies this
      ensures Abs() == DoSolve(old(Abs()), t) && Safe()
      ensures var id := old(threads)[t].id;
        && id in old(heap) && id in heap && id < |jobs| && first == !old(heap)[id].done && heap[id].done
        && (first ==> heap[id].idle && id in callers && Solves(sha, jobs[id], heap[id].nonce))
        && (!first ==> heap == old(heap))
        && threads[t].Checking? && threads[t].id == id
    {
      ghost var s := Abs();
      WorkerHolds(sha, s, t);
      var th := threads[t];
      var c := heap[th.id];
      first := !c.done;
      if first {
        heap := heap[th.id := c.(nonce := th.nonce, done := true, idle := true, refCount := c.refCount + 1)];
      }
      threads := threads[t := Checking(th.id, th.offset, th.nonce)];
      NextKeeps(sha, s, Solve(t));
      IdleMeans(sha, Abs(), th.id);
    }

    /** idle_cb: the callback is given a nonce that solves the job, for a caller that has
        neither cancelled nor been called before; the cookie stays only for the queue and for
        the threads at work on it. */
    method IdleCallback(id: Id) returns (nonce: nat)
      requires Safe() && Enabled(Abs(), Deliver(id))
      modifies this
      ensures Abs() == DoDeliver(old(Abs()), id) && Safe()
      ensures id < |jobs| && Solves(sha, jobs[id], nonce)
      ensures id in old(callers) && callers == old(callers) - {id} && id !in cancelled
      ensures calls == old(calls) + [(id, nonce)] && forall i :: 0 <= i < |old(calls)| ==> old(calls)[i].0 != id
      ensures id in heap <==> id in queue || exists u :: 0 <= u < |threads| && Holds(threads[u], id)
    {
      ghost var s := Abs();
      IdleMeans(sha, s, id);
      DeliverMeans(sha, s, id);
      nonce := heap[id].nonce;
      heap := heap[id := heap[id].(idle := false)];
      UnrefCookie(id);
      UnrefCookie(id);
      callers, calls := callers - {id}, calls + [(id, nonce)];
      NextKeeps(sha, s, Deliver(id));
    }

    /** ntb_pow_cancel: afterwards nothing but the threads at work on the cookie hold it,
        they will find it done, and no callback can follow. */
    method CancelCookie(id: Id)
      requires Safe() && Enabled(Abs(), Cancel(id))
      modifies this
      ensures Abs() == DoCancel(old(Abs()), id) && Safe()
      ensures id !in queue && id !in callers && id in cancelled && calls == old(calls)
      ensures id in heap ==> heap[id].done && !heap[id].idle
      ensures id in heap <==> exists u :: 0 <= u < |threads| && Holds(threads[u], id)
      ensures forall x :: x != id ==> (x in heap <==> x in old(heap)) && (x in heap ==> heap[x] == old(heap)[x])
    {
      ghost var s := Abs();
      CancelFollows(sha, s, id);
      GiveUp(id);
      CancelMeans(sha, s, id);
      NextKeeps(sha, s, Cancel(id));
    }

    method GiveUp(id: Id)
      requires id in heap && (heap[id].nextOffset < n ==> id in queue)
      requires id in CancelQueued(Abs(), id).heap && id in CancelIdle(CancelQueued(Abs(), id), id).heap
      modifies this`heap, this`queue, this`callers, this`cancelled
      ensures Abs() == DoCancel(old(Abs()), id)
    {
      CancelInQueue(id);
      CancelSource(id);
      heap := heap[id := heap[id].(done := true)];
      UnrefCookie(id);
      callers, cancelled := callers - {id}, cancelled + {id};
    }

    method CancelInQueue(id: Id)
      requires id in heap && (heap[id].nextOffset < n ==> id in queue)
      modifies this`heap, this`queue
      ensures Abs() == CancelQueued(old(Abs()), id)
    {
      if heap[id].nextOffset < n {
        RemoveQueuedCookie(id);
      }
    }

    method CancelSource(id: Id)
      requires id in heap
      modifies this`heap
      ensures Abs() == CancelIdle(old(Abs()), id)
    {
      if heap[id].idle {
        heap := heap[id := heap[id].(idle := false)];
        UnrefCookie(id);
      }
    }

    /** ntb_pow_free sets the flag, and the threads that wait leave. */
    method SetQuit()
      requires Safe() && !freed
      modifies this`quit
      ensures Abs() == old(Abs()).(quit := true) && Safe()
    {
      ghost var s := Abs();
      quit := true;
      NextKeeps(sha, s, Quit);
    }

    method LeaveThread(t: nat)
      requires Safe() && Enabled(Abs(), Leave(t))
      modifies this`threads
      ensures Abs() == old(Abs()).(threads := old(threads)[t := Exited]) && Safe()
    {
      ghost var s := Abs();
      threads := threads[t := Exited];
      NextKeeps(sha, s, Leave(t));
    }

    /** The loop of ntb_pow_free over the cookies still in the queue: what is left are the
        cookies whose callers have not ended them. */
    method FreeQueue()
      requires Safe() && Enabled(Abs(), PowScheduler.Free)
      modifies this
      ensures Abs() == Drain(old(Abs()).(freed := true)) && Safe()
      ensures queue == [] && heap.Keys == callers
    {
      ghost var s := Abs();
      freed := true;
      FlagsKeep(sha, s, quit, true);
      while queue != []
        invariant Safe() && freed && threads == s.threads
        invariant Drain(Abs()) == Drain(s.(freed := true))
        decreases |queue|
      {
        UnqueueFirst();
      }
      LeftToCallers(sha, Abs());
    }

    method UnqueueFirst()
      requires Safe() && freed && queue != []
      modifies this`heap, this`queue
      ensures Abs() == Unref(old(Abs()).(queue := old(queue)[1..]), old(queue)[0]) && Safe() && |queue| < |old(queue)|
    {
      ghost var s := Abs();
      QueueHead(sha, s);
      var id := queue[0];
      queue := queue[1..];
      UnrefCookie(id);
      DequeueKeeps(sha, s);
    }

    /** Any event that can happen. */
    method Step(e: Event)
      requires Safe() && Enabled(Abs(), e)
      modifies this
      ensures Abs() == Next(sha, old(Abs()), e) && Safe()
    {
      match e {
        case Submit(job) => var _ := Calculate(job);
        case Pick(t) => var _, _ := PickUp(t);
        case Check(t) => var _ := CheckDone(t);
        case Round(t) => var _ := FindNonce(t);
        case Solve(t) => var _ := SetSolution(t);
        case Deliver(id) => var _ := IdleCallback(id);
        case Cancel(id) => CancelCookie(id);
        case Quit => SetQuit();
        case Leave(t) => LeaveThread(t);
        case Free => FreeQueue();
      }
    }
  }

  /** A run in which every event can happen when it does. */
  ghost predicate Feasible(sha: seq<byte> -> seq<byte>, s: State, events: seq<Event>)
    requires IsSha512(sha)
    decreases |events|
  {
    events != [] ==> Enabled(s, events[0]) && Feasible(sha, Next(sha, s, events[0]), events[1..])
  }

  /** The structures after any run, in whatever order the threads, the callers and the main
      loop took the lock, are those of the run, and safe. */
  method Drive(sha: seq<byte> -> seq<byte>, n: nat, events: seq<Event>) returns (pow: Pow)
    requires IsSha512(sha) && 1 <= n < TWO_31 && Feasible(sha, Init(n), events)
    ensures fresh(pow) && pow.sha == sha && pow.Abs() == Run(sha, Init(n), events) && pow.Safe()
  {
    pow := new Pow(sha, n);
    var i := 0;
    while i < |events|
      invariant i <= |events| && fresh(pow) && pow.sha == sha && pow.Safe()
      invariant Feasible(sha, pow.Abs(), events[i..])
      invariant Run(sha, pow.Abs(), events[i..]) == Run(sha, Init(n), events)
    {
      assert events[i..][1..] == events[i + 1..];
      pow.Step(events[i]);
      i := i + 1;
    }
  }

  // ------------------------------------------------------ what the steps mean

  lemma QueueHead(sha: seq<byte> -> seq<byte>, s: State)
    requires IsSha512(sha) && Inv(sha, s) && s.queue != []
    ensures s.queue[0] in s.heap
  {
  }

  lemma PickMeans(sha: seq<byte> -> seq<byte>, s: State, t: nat)
    requires IsSha512(sha) && Inv(sha, s) && Enabled(s, Pick(t))
    ensures s.queue[0] in s.heap
    ensures var id, s' := s.queue[0], DoPick(s, t);
      var offset := s.heap[id].nextOffset;
      && offset < s.n && (id, offset) !in s.tried
      && s'.threads == s.threads[t := Checking(id, offset, offset)]
      && s'.queue == (if offset + 1 == s.n then s.queue[1..] else s.queue)
      && (forall x :: x in s.heap && x != id ==> x in s'.heap && s'.heap[x] == s.heap[x])
  {
    assert CookieOk(sha, s, s.queue[0]);
    PickEffect(sha, s, t);
  }

  lemma WorkerHolds(sha: seq<byte> -> seq<byte>, s: State, t: nat)
    requires IsSha512(sha) && Inv(sha, s) && t < |s.threads| && Busy(s.threads[t])
    ensures var th := s.threads[t];
      th.id in s.heap && th.id < |s.jobs| && PickOf(th) in s.tried && s.jobs[th.id] == Job(s.heap[th.id].hash, s.heap[th.id].target)
  {
    assert ThreadOk(sha, s, t) && CookieOk(sha, s, s.threads[t].id);
  }

  lemma RoundMeans(sha: seq<byte> -> seq<byte>, s: State, t: nat)
    requires IsSha512(sha) && Inv(sha, s) && Enabled(s, Round(t))
    ensures var th, s' := s.threads[t], DoRound(sha, s, t);
      && th.id < |s.jobs| && PickOf(th) in s.tried && PickOf(th) in s'.tried && s'.tried[PickOf(th)] >= s.tried[PickOf(th)]
      && (var r := Search(sha, s.jobs[th.id], s.n, th.nonce, NONCES_PER_CHECK);
          && s'.threads == s.threads[t := AfterRound(th, r)]
          && Gives(TestOf(sha, s.jobs[th.id]), Class(th.offset, s.n), s.tried[PickOf(th)], r,
                   s'.tried[PickOf(th)] - s.tried[PickOf(th)]))
  {
    WorkerHolds(sha, s, t);
    assert ThreadOk(sha, s, t);
    var th := s.threads[t];
    RoundEffect(sha, s, t);
    SearchTests(sha, s.jobs[th.id], s.n, th.offset, s.tried[PickOf(th)], NONCES_PER_CHECK);
  }

  lemma IdleMeans(sha: seq<byte> -> seq<byte>, s: State, id: Id)
    requires IsSha512(sha) && Inv(sha, s) && id in s.heap
    ensures id < |s.jobs|
    ensures s.heap[id].idle ==>
      && id in s.callers && Solves(sha, s.jobs[id], s.heap[id].nonce) && s.heap[id].refCount >= 2
      && id !in s.cancelled && forall i :: 0 <= i < |s.calls| ==> s.calls[i].0 != id
  {
    assert CookieOk(sha, s, id);
    forall i | 0 <= i < |s.calls| ensures s.calls[i].0 !in s.callers { assert CallOk(sha, s, i); }
  }

  lemma {:induction false} SomeoneCounted(threads: seq<Thread>, id: Id)
    ensures HoldCount(threads, id) > 0 <==> exists u :: 0 <= u < |threads| && Holds(threads[u], id)
  {
    if forall u :: 0 <= u < |threads| ==> !Holds(threads[u], id) {
      NoHolders(threads, id);
    } else {
      var u: nat :| u < |threads| && Holds(threads[u], id);
      HolderCounted(threads, u);
    }
  }

  lemma DeliverMeans(sha: seq<byte> -> seq<byte>, s: State, id: Id)
    requires IsSha512(sha) && Inv(sha, s) && Enabled(s, Deliver(id))
    ensures id in DoDeliver(s, id).heap <==> id in s.queue || exists u :: 0 <= u < |s.threads| && Holds(s.threads[u], id)
  {
    assert CookieOk(sha, s, id);
    SomeoneCounted(s.threads, id);
  }

  lemma CancelMeans(sha: seq<byte> -> seq<byte>, s: State, id: Id)
    requires IsSha512(sha) && Inv(sha, s) && Enabled(s, Cancel(id))
    ensures var s' := DoCancel(s, id);
      && id !in s'.queue && s'.calls == s.calls
      && (id in s'.heap ==> s'.heap[id].done && !s'.heap[id].idle)
      && (id in s'.heap <==> exists u :: 0 <= u < |s.threads| && Holds(s.threads[u], id))
      && (forall x :: x != id ==> (x in s'.heap <==> x in s.heap) && (x in s'.heap ==> s'.heap[x] == s.heap[x]))
  {
    assert CookieOk(sha, s, id);
    var held := HoldCount(s.threads, id);
    SomeoneCounted(s.threads, id);
    CancelEffect(s, id, held);
    WithoutMembers(s.queue, id);
  }

  /** Each part of a cancellation finds the cookie still allocated. */
  lemma CancelFollows(sha: seq<byte> -> seq<byte>, s: State, id: Id)
    requires IsSha512(sha) && Inv(sha, s) && Enabled(s, Cancel(id))
    ensures id in s.heap && (s.heap[id].nextOffset < s.n ==> id in s.queue)
    ensures id in CancelQueued(s, id).heap && id in CancelIdle(CancelQueued(s, id), id).heap
  {
    assert CookieOk(sha, s, id);
    var held := HoldCount(s.threads, id);
    CancelSharedEffect(s, id, held);
    CancelQueuedEffect(s, id, s.heap[id].(refCount := 1 + held + B(s.heap[id].idle)));
  }

  lemma LeftToCallers(sha: seq<byte> -> seq<byte>, s: State)
    requires IsSha512(sha) && Inv(sha, s) && s.queue == []
    requires forall t :: 0 <= t < |s.threads| ==> s.threads[t].Exited?
    ensures s.heap.Keys == s.callers
  {
    forall id | id in s.heap ensures id in s.callers {
      NoHolders(s.threads, id);
      SomeoneHolds(sha, s, id);
    }
  }
}
