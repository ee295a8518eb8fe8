/** The proof-of-work scheduler: worker threads share a queue of reference-counted
    cookies and race with cancellation and with a callback on the main thread.

    A run is a sequence of critical sections of the one mutex, plus the unlocked
    search rounds. Cookies are named by serial numbers, so the name of a freed
    cookie is never given out again and touching one is visible: it sets `fault`,
    and so does removing a cookie that is not queued from the queue. */
module PowScheduler {
  import opened Bytes
  import opened Proto
  import opened PowTarget

  const NONCES_PER_CHECK: nat := 4096

  type Id = nat

  datatype Cookie = Cookie(refCount: int, nextOffset: nat, hash: seq<byte>, target: nat,
                           nonce: nat, done: bool, idle: bool)

  /** Where a worker thread is: waiting for work, about to test whether its cookie
      is done, searching without the lock, holding a solution, or gone. */
  datatype Thread = Waiting
                  | Checking(id: Id, offset: nat, nonce: nat)
                  | Searching(id: Id, offset: nat, nonce: nat)
                  | Found(id: Id, offset: nat, nonce: nat)
                  | Exited

  datatype Job = Job(hash: seq<byte>, target: nat)

  /** The scheduler, the references it does not own itself (`callers`), and the
      history of the run: jobs submitted, offsets handed out with the number of nonces
      tried for each, cancellations and callbacks. */
  datatype State = State(n: nat, quit: bool, freed: bool, fault: bool,
                         heap: map<Id, Cookie>, queue: seq<Id>, threads: seq<Thread>,
                         callers: set<Id>, jobs: seq<Job>, tried: map<(Id, nat), nat>,
                         cancelled: set<Id>, calls: seq<(Id, nat)>)

  datatype Event = Submit(job: Job) | Pick(t: nat) | Check(t: nat) | Round(t: nat) | Solve(t: nat)
                 | Deliver(id: Id) | Cancel(id: Id) | Quit | Leave(t: nat) | Free

  function Init(n: nat): State
  {
    State(n, false, false, false, map[], [], seq(n, i => Waiting), {}, [], map[], {}, [])
  }

  // --------------------------------------------------------- shared helpers

  function Fault(s: State): State
  {
    s.(fault := true)
  }

  function Put(s: State, id: Id, c: Cookie): State
  {
    s.(heap := s.heap[id := c])
  }

  function Unref(s: State, id: Id): State
  {
    if id !in s.heap then Fault(s)
    else if s.heap[id].refCount - 1 <= 0 then s.(heap := s.heap - {id})
    else Put(s, id, s.heap[id].(refCount := s.heap[id].refCount - 1))
  }

  function Without(q: seq<Id>, id: Id): seq<Id>
  {
    if q == [] then [] else if q[0] == id then Without(q[1..], id) else [q[0]] + Without(q[1..], id)
  }

  function RemoveQueued(s: State, id: Id): State
  {
    if id !in s.queue then Fault(s) else Unref(s.(queue := Without(s.queue, id)), id)
  }

  predicate Solves(sha: seq<byte> -> seq<byte>, job: Job, nonce: nat)
    requires IsSha512(sha)
  {
    PowValue(sha, Be(nonce, 8), job.hash) <= job.target
  }

  // ------------------------------------------------------------ the search

  datatype Outcome = Hit(nonce: nat) | Miss(next: nat)

  type Test = nat -> bool

  function TestOf(sha: seq<byte> -> seq<byte>, job: Job): Test
    requires IsSha512(sha)
  {
    (nonce: nat) => Solves(sha, job, nonce)
  }

  /** Up to `left` tests, stepping by the number of threads modulo 2^64. */
  function SearchBy(test: Test, n: nat, nonce: nat, left: nat): Outcome
    decreases left, nonce
  {
    if left == 0 then Miss(nonce)
    else if test(nonce) then Hit(nonce)
    else SearchBy(test, n, (nonce + n) % TWO_64, left - 1)
  }

  /** How many nonces a round tests. */
  function CountBy(test: Test, n: nat, nonce: nat, left: nat): (r: nat)
    ensures r <= left
    decreases left, nonce
  {
    if left == 0 then 0
    else if test(nonce) then 1
    else 1 + CountBy(test, n, (nonce + n) % TWO_64, left - 1)
  }

  function Search(sha: seq<byte> -> seq<byte>, job: Job, n: nat, nonce: nat, left: nat): Outcome
    requires IsSha512(sha)
  {
    SearchBy(TestOf(sha, job), n, nonce, left)
  }

  function SearchCount(sha: seq<byte> -> seq<byte>, job: Job, n: nat, nonce: nat, left: nat): nat
    requires IsSha512(sha)
  {
    CountBy(TestOf(sha, job), n, nonce, left)
  }

  /** The unlocked inner loop of find_nonce. */
  method SearchRound(sha: seq<byte> -> seq<byte>, job: Job, n: nat, start: nat) returns (r: Outcome)
    requires IsSha512(sha)
    ensures r == Search(sha, job, n, start, NONCES_PER_CHECK)
  {
    var nonce: nat, i := start, 0;
    while i < NONCES_PER_CHECK
      invariant i <= NONCES_PER_CHECK
      invariant SearchBy(TestOf(sha, job), n, start, NONCES_PER_CHECK)
        == SearchBy(TestOf(sha, job), n, nonce, NONCES_PER_CHECK - i)
    {
      assert TestOf(sha, job)(nonce) == Solves(sha, job, nonce);
      var value := PowValue(sha, Be(nonce, 8), job.hash);
      if value <= job.target {
        return Hit(nonce);
      }
      nonce, i := (nonce + n) % TWO_64, i + 1;
    }
    return Miss(nonce);
  }

  /** The k-th nonce a thread tests. */
  function NonceAt(offset: nat, n: nat, k: nat): nat
  {
    (offset + k * n) % TWO_64
  }

  lemma NonceAtNext(offset: nat, n: nat, k: nat)
    ensures (NonceAt(offset, n, k) + n) % TWO_64 == NonceAt(offset, n, k + 1)
  {
    assert offset + (k + 1) * n == offset + k * n + n;
  }

  type Nonces = nat -> nat

  /** The residue class of an offset: the nonces its thread tests, in order. */
  ghost function Class(offset: nat, n: nat): Nonces
  {
    (k: nat) => NonceAt(offset, n, k)
  }

  /** The nonces from the j-th to before the k-th fail the test. */
  ghost predicate Rejected(test: Test, at: Nonces, j: nat, k: nat)
  {
    forall i {:trigger at(i)} :: j <= i < k ==> !test(at(i))
  }

  /** After c tests from the k-th nonce: a miss has rejected all of them, and a hit is the
      last of them and the first that passes. */
  ghost predicate Gives(test: Test, at: Nonces, k: nat, r: Outcome, c: nat)
  {
    match r
    case Miss(next) => next == at(k + c) && Rejected(test, at, k, k + c)
    case Hit(nonce) => c >= 1 && nonce == at(k + c - 1) && test(nonce) && Rejected(test, at, k, k + c - 1)
  }

  ghost predicate StepAt(at: Nonces, n: nat, k: nat)
  {
    (at(k) + n) % TWO_64 == at(k + 1)
  }

  ghost predicate Steps(at: Nonces, n: nat)
  {
    forall k: nat {:trigger StepAt(at, n, k)} :: StepAt(at, n, k)
  }

  lemma {:induction false} SearchGives(test: Test, n: nat, at: Nonces, k: nat, left: nat)
    requires Steps(at, n)
    ensures var r, c := SearchBy(test, n, at(k), left), CountBy(test, n, at(k), left);
      Gives(test, at, k, r, c) && (r.Miss? ==> c == left)
    decreases left
  {
    if left > 0 && !test(at(k)) {
      assert StepAt(at, n, k);
      SearchGives(test, n, at, k + 1, left - 1);
    }
  }

  /** A round that starts at the k-th nonce of an offset tests the next nonces of its
      residue class in order. */
  lemma SearchTests(sha: seq<byte> -> seq<byte>, job: Job, n: nat, offset: nat, k: nat, left: nat)
    requires IsSha512(sha)
    ensures var nonce := NonceAt(offset, n, k);
      var r, c := Search(sha, job, n, nonce, left), SearchCount(sha, job, n, nonce, left);
      Gives(TestOf(sha, job), Class(offset, n), k, r, c) && (r.Miss? ==> c == left)
  {
    var at := Class(offset, n);
    forall i: nat ensures StepAt(at, n, i) { NonceAtNext(offset, n, i); }
    SearchGives(TestOf(sha, job), n, at, k, left);
  }

  /** The n offsets split all 64-bit nonces: each nonce belongs to exactly one
      offset, which reaches it at exactly one of its tests before any wraps. */
  lemma ResiduesPartition(n: nat, v: nat)
    requires n > 0 && v < TWO_64
    ensures v % n < n && NonceAt(v % n, n, v / n) == v
    ensures forall offset, k | 0 <= offset < n && 0 <= k && offset + k * n < TWO_64 ::
              NonceAt(offset, n, k) == v ==> offset == v % n && k == v / n
  {
    assert v == v / n * n + v % n;
    forall offset, k | 0 <= offset < n && 0 <= k && offset + k * n < TWO_64 && NonceAt(offset, n, k) == v
      ensures offset == v % n && k == v / n
    {
      DivModUnique(v, n, k, offset);
    }
  }

  // ----------------------------------------------------------- the protocol

  predicate Holds(th: Thread, id: Id)
  {
    (th.Checking? || th.Searching? || th.Found?) && th.id == id
  }

  predicate Busy(th: Thread)
  {
    th.Checking? || th.Searching? || th.Found?
  }

  /** When a step may happen. The two API obligations appear here: only a caller
      that still owns its cookie cancels it, and nothing uses a freed scheduler. */
  predicate Enabled(s: State, e: Event)
  {
    !s.freed &&
    match e
    case Submit(_) => true
    case Pick(t) => t < |s.threads| && s.threads[t].Waiting? && !s.quit && s.queue != []
    case Check(t) => t < |s.threads| && s.threads[t].Checking?
    case Round(t) => t < |s.threads| && s.threads[t].Searching?
    case Solve(t) => t < |s.threads| && s.threads[t].Found?
    case Deliver(id) => id in s.heap && s.heap[id].idle
    case Cancel(id) => id in s.callers
    case Quit => true
    case Leave(t) => t < |s.threads| && s.threads[t].Waiting? && s.quit
    case Free => s.quit && forall t :: 0 <= t < |s.threads| ==> s.threads[t].Exited?
  }

  /** A new cookie goes behind the head of the queue, not to its end. */
  function DoSubmit(s: State, job: Job): State
  {
    var id := |s.jobs|;
    var c := Cookie(2, 0, job.hash, job.target, 0, false, false);
    var queue := if s.queue == [] then [id] else [s.queue[0], id] + s.queue[1..];
    Put(s, id, c).(queue := queue, callers := s.callers + {id}, jobs := s.jobs + [job])
  }

  function DoPick(s: State, t: nat): State
    requires Enabled(s, Pick(t))
  {
    var id := s.queue[0];
    if id !in s.heap then Fault(s)
    else
      var c := s.heap[id];
      var s1 := Put(s, id, c.(refCount := c.refCount + 1, nextOffset := c.nextOffset + 1));
      var s2 := if c.nextOffset + 1 >= s.n then RemoveQueued(s1, id) else s1;
      s2.(threads := s2.threads[t := Checking(id, c.nextOffset, c.nextOffset)],
          tried := s2.tried[(id, c.nextOffset) := 0])
  }

  function DoCheck(s: State, t: nat): State
    requires Enabled(s, Check(t))
  {
    var th := s.threads[t];
    if th.id !in s.heap then Fault(s)
    else if s.heap[th.id].done || s.quit then Unref(s.(threads := s.threads[t := Waiting]), th.id)
    else s.(threads := s.threads[t := Searching(th.id, th.offset, th.nonce)])
  }

  /** The cookie and offset a thread works on. */
  function PickOf(th: Thread): (Id, nat)
    requires Busy(th)
  {
    (th.id, th.offset)
  }

  function CountTests(tried: map<(Id, nat), nat>, p: (Id, nat), tests: nat): map<(Id, nat), nat>
  {
    tried[p := (if p in tried then tried[p] else 0) + tests]
  }

  function DoRound(sha: seq<byte> -> seq<byte>, s: State, t: nat): State
    requires IsSha512(sha) && Enabled(s, Round(t))
  {
    var th := s.threads[t];
    if th.id !in s.heap then Fault(s)
    else
      var job := Job(s.heap[th.id].hash, s.heap[th.id].target);
      var s1 := s.(tried := CountTests(s.tried, PickOf(th), SearchCount(sha, job, s.n, th.nonce, NONCES_PER_CHECK)));
      match Search(sha, job, s.n, th.nonce, NONCES_PER_CHECK)
      case Hit(nonce) => s1.(threads := s1.threads[t := Found(th.id, th.offset, nonce)])
      case Miss(next) => s1.(threads := s1.threads[t := Checking(th.id, th.offset, next)])
  }

  function DoSolve(s: State, t: nat): State
    requires Enabled(s, Solve(t))
  {
    var th := s.threads[t];
    if th.id !in s.heap then Fault(s)
    else
      var c := s.heap[th.id];
      var s1 := if c.done then s
                else Put(s, th.id, c.(nonce := th.nonce, done := true, idle := true, refCount := c.refCount + 1));
      s1.(threads := s1.threads[t := Checking(th.id, th.offset, th.nonce)])
  }

  /** The idle source's reference and the caller's are both dropped, then the
      callback runs without the lock. */
  function DoDeliver(s: State, id: Id): State
    requires Enabled(s, Deliver(id))
  {
    var c := s.heap[id];
    var s1 := Unref(Unref(Put(s, id, c.(idle := false)), id), id);
    s1.(callers := s1.callers - {id}, calls := s1.calls + [(id, c.nonce)])
  }

  function CancelQueued(s: State, id: Id): State
  {
    if id !in s.heap then Fault(s)
    else if s.heap[id].nextOffset < s.n then RemoveQueued(s, id)
    else s
  }

  function CancelIdle(s: State, id: Id): State
  {
    if id !in s.heap then Fault(s)
    else if s.heap[id].idle then Unref(Put(s, id, s.heap[id].(idle := false)), id)
    else s
  }

  function CancelOwned(s: State, id: Id): State
  {
    if id !in s.heap then Fault(s) else Unref(Put(s, id, s.heap[id].(done := true)), id)
  }

  function DoCancel(s: State, id: Id): State
  {
    var s' := CancelOwned(CancelIdle(CancelQueued(s, id), id), id);
    s'.(callers := s'.callers - {id}, cancelled := s'.cancelled + {id})
  }

  /** ntb_pow_free after the threads have been joined. */
  function Drain(s: State): State
    decreases |s.queue|
  {
    if s.queue == [] then s else Drain(Unref(s.(queue := s.queue[1..]), s.queue[0]))
  }

  function Next(sha: seq<byte> -> seq<byte>, s: State, e: Event): State
    requires IsSha512(sha)
  {
    if !Enabled(s, e) then s
    else
      match e
      case Submit(job) => DoSubmit(s, job)
      case Pick(t) => DoPick(s, t)
      case Check(t) => DoCheck(s, t)
      case Round(t) => DoRound(sha, s, t)
      case Solve(t) => DoSolve(s, t)
      case Deliver(id) => DoDeliver(s, id)
      case Cancel(id) => DoCancel(s, id)
      case Quit => s.(quit := true)
      case Leave(t) => s.(threads := s.threads[t := Exited])
      case Free => Drain(s.(freed := true))
  }

  /** The state after a run; an event that cannot happen is skipped. */
  function Run(sha: seq<byte> -> seq<byte>, s: State, events: seq<Event>): State
    requires IsSha512(sha)
    decreases |events|
  {
    if events == [] then s else Run(sha, Next(sha, s, events[0]), events[1..])
  }

  // ------------------------------------------------------------ invariants

  function B(b: bool): nat
  {
    if b then 1 else 0
  }

  function HoldCount(threads: seq<Thread>, id: Id): nat
  {
    if threads == [] then 0 else B(Holds(threads[0], id)) + HoldCount(threads[1..], id)
  }

  /** What holds of a cookie, given who holds it: its caller, the queue (perhaps as
      its head) and the number of threads working on it. */
  ghost predicate Fine(sha: seq<byte> -> seq<byte>, c: Cookie, job: Job, n: nat, freed: bool,
                       caller: bool, queued: bool, head: bool, held: nat)
    requires IsSha512(sha)
  {
    // the count is the number of live holders, and there is one
    && c.refCount == B(caller) + B(queued) + held + B(c.idle) >= 1
    // the job is the one submitted
    && Job(c.hash, c.target) == job
    // queued cookies have offsets left, and only the head has lost any
    && (queued ==> c.nextOffset < n && (!head ==> c.nextOffset == 0))
    // what lets ntb_pow_cancel tell from the offset whether the cookie is queued
    && (!freed && caller ==> (queued <==> c.nextOffset < n))
    // a pending idle source means a solution its caller has not been told
    && (c.idle ==> caller && c.done && Solves(sha, job, c.nonce))
    && (c.done && caller ==> c.idle)
    // an unsolved cookie still belongs to its caller
    && (c.done || caller)
  }

  ghost predicate CookieOk(sha: seq<byte> -> seq<byte>, s: State, id: Id)
    requires IsSha512(sha) && id in s.heap
  {
    id < |s.jobs| &&
    Fine(sha, s.heap[id], s.jobs[id], s.n, s.freed, id in s.callers, id in s.queue, IsHead(s.queue, id),
         HoldCount(s.threads, id))
  }

  predicate IsHead(q: seq<Id>, id: Id)
  {
    q != [] && q[0] == id
  }

  /** A thread that has tried k nonces of its offset, all in vain, is at the next one. */
  ghost predicate InClass(test: Test, at: Nonces, nonce: nat, k: nat)
  {
    nonce == at(k) && Rejected(test, at, 0, k)
  }

  /** Where a thread stands in its residue class, given how many nonces were tried there:
      at the next one, or with a solution at the last one. A thread whose cookie is done
      tries no more. */
  ghost predicate StandsOk(sha: seq<byte> -> seq<byte>, th: Thread, job: Job, n: nat, done: bool, k: nat)
    requires IsSha512(sha)
  {
    && (th.Searching? ==> InClass(TestOf(sha, job), Class(th.offset, n), th.nonce, k))
    && (th.Checking? ==> done || InClass(TestOf(sha, job), Class(th.offset, n), th.nonce, k))
    && (th.Found? ==> k >= 1 && InClass(TestOf(sha, job), Class(th.offset, n), th.nonce, k - 1) && Solves(sha, job, th.nonce))
  }

  /** A working thread's cookie is allocated, its offset was handed out, and the nonce it
      is at belongs to that offset. */
  ghost predicate ThreadOk(sha: seq<byte> -> seq<byte>, s: State, t: nat)
    requires IsSha512(sha) && t < |s.threads|
  {
    var th := s.threads[t];
    Busy(th) ==>
      && th.id in s.heap && th.id < |s.jobs| && PickOf(th) in s.tried
      && th.offset < s.heap[th.id].nextOffset && th.offset < s.n
      && StandsOk(sha, th, s.jobs[th.id], s.n, s.heap[th.id].done, s.tried[PickOf(th)])
  }

  /** No two threads search one cookie at the same offset. */
  ghost predicate Apart(s: State, t: nat, u: nat)
    requires t < |s.threads| && u < |s.threads|
  {
    var a, b := s.threads[t], s.threads[u];
    t != u && Busy(a) && Busy(b) && a.id == b.id ==> a.offset != b.offset
  }

  /** Of the nonces tried for an offset handed out, all but perhaps the last were
      rejected. */
  ghost predicate PickOk(sha: seq<byte> -> seq<byte>, s: State, p: (Id, nat))
    requires IsSha512(sha) && p in s.tried
  {
    && p.0 < |s.jobs| && p.1 < s.n && (p.0 in s.heap ==> p.1 < s.heap[p.0].nextOffset)
    && (s.tried[p] >= 1 ==> Rejected(TestOf(sha, s.jobs[p.0]), Class(p.1, s.n), 0, s.tried[p] - 1))
  }

  /** Every offset below the next one was handed out. */
  ghost predicate HandedOut(s: State, id: Id, offset: nat)
  {
    id in s.heap && offset < s.heap[id].nextOffset ==> (id, offset) in s.tried
  }

  /** The callback runs with a solution, after which the caller owns nothing, and
      never for a cancelled cookie. */
  ghost predicate CallOk(sha: seq<byte> -> seq<byte>, s: State, i: nat)
    requires IsSha512(sha) && i < |s.calls|
  {
    var id := s.calls[i].0;
    && id < |s.jobs| && id !in s.callers && id !in s.cancelled
    && Solves(sha, s.jobs[id], s.calls[i].1)
  }

  ghost predicate CookiesOk(sha: seq<byte> -> seq<byte>, s: State)
    requires IsSha512(sha)
  {
    && 1 <= s.n < TWO_31 && !s.fault
    && (forall id {:trigger CookieOk(sha, s, id)} :: id in s.heap ==> CookieOk(sha, s, id))
    && s.callers <= s.heap.Keys
    && (forall i :: 0 <= i < |s.queue| ==> s.queue[i] in s.heap)
    && Distinct(s.queue)
  }

  ghost predicate ThreadsOk(sha: seq<byte> -> seq<byte>, s: State)
    requires IsSha512(sha)
  {
    && (forall t {:trigger ThreadOk(sha, s, t)} :: 0 <= t < |s.threads| ==> ThreadOk(sha, s, t))
    && (forall t, u {:trigger Apart(s, t, u)} :: 0 <= t < |s.threads| && 0 <= u < |s.threads| ==> Apart(s, t, u))
  }

  ghost predicate HistoryOk(sha: seq<byte> -> seq<byte>, s: State)
    requires IsSha512(sha)
  {
    && (forall p {:trigger PickOk(sha, s, p)} :: p in s.tried ==> PickOk(sha, s, p))
    && (forall id, o {:trigger HandedOut(s, id, o)} :: HandedOut(s, id, o))
    && (forall i {:trigger CallOk(sha, s, i)} :: 0 <= i < |s.calls| ==> CallOk(sha, s, i))
    && (forall i, j :: 0 <= i < j < |s.calls| ==> s.calls[i].0 != s.calls[j].0)
    && (forall id :: id in s.cancelled ==> id < |s.jobs| && id !in s.callers)
  }

  ghost predicate Inv(sha: seq<byte> -> seq<byte>, s: State)
    requires IsSha512(sha)
  {
    CookiesOk(sha, s) && ThreadsOk(sha, s) && HistoryOk(sha, s)
  }

  // ----------------------------------------------------------------- proofs

  lemma {:induction false} HoldCountUpdate(threads: seq<Thread>, t: nat, th: Thread, id: Id)
    requires t < |threads|
    ensures HoldCount(threads[t := th], id) + B(Holds(threads[t], id))
         == HoldCount(threads, id) + B(Holds(th, id))
  {
    if t > 0 {
      HoldCountUpdate(threads[1..], t - 1, th, id);
      assert threads[t := th][1..] == threads[1..][t - 1 := th];
    } else {
      assert threads[t := th][1..] == threads[1..];
    }
  }

  lemma {:induction false} NoHolders(threads: seq<Thread>, id: Id)
    requires forall t :: 0 <= t < |threads| ==> !Holds(threads[t], id)
    ensures HoldCount(threads, id) == 0
  {
    if threads != [] {
      NoHolders(threads[1..], id);
    }
  }

  lemma {:induction false} HolderCounted(threads: seq<Thread>, t: nat)
    requires t < |threads| && Busy(threads[t])
    ensures HoldCount(threads, threads[t].id) >= 1
  {
    if t > 0 {
      HolderCounted(threads[1..], t - 1);
    }
  }

  lemma {:induction false} WithoutMembers(q: seq<Id>, id: Id)
    ensures forall x :: x in Without(q, id) <==> x in q && x != id
    ensures id !in q ==> Without(q, id) == q
  {
    if q != [] {
      WithoutMembers(q[1..], id);
    }
  }

  lemma {:induction false} WithoutDistinct(q: seq<Id>, id: Id)
    requires Distinct(q)
    ensures Distinct(Without(q, id))
    ensures q != [] && q[0] == id ==> Without(q, id) == q[1..]
    ensures q != [] && q[0] != id ==> Without(q, id) != [] && Without(q, id)[0] == q[0]
  {
    if q != [] {
      WithoutDistinct(q[1..], id);
      WithoutMembers(q[1..], id);
      assert q[0] !in q[1..];
    }
  }

  // Each step is proved in three parts. A step changes at most one cookie and one
  // thread, and its effect on them is first worked out in closed form.

  lemma SubmitQueue(s: State, job: Job)
    requires |s.jobs| !in s.queue && Distinct(s.queue)
    ensures var q := DoSubmit(s, job).queue;
      && Distinct(q) && (forall x :: x in q <==> x in s.queue || x == |s.jobs|)
      && (forall x :: x in s.queue ==> IsHead(q, x) == IsHead(s.queue, x))
      && (s.queue != [] ==> !IsHead(q, |s.jobs|))
  {
    var id := |s.jobs|;
    if s.queue != [] {
      assert s.queue == [s.queue[0]] + s.queue[1..];
    }
  }

  lemma SubmitFresh(sha: seq<byte> -> seq<byte>, s: State)
    requires IsSha512(sha) && CookiesOk(sha, s) && ThreadsOk(sha, s)
    ensures |s.jobs| !in s.heap && |s.jobs| !in s.queue && HoldCount(s.threads, |s.jobs|) == 0
  {
    var id := |s.jobs|;
    forall x | x in s.heap ensures x < id { assert CookieOk(sha, s, x); }
    forall t | 0 <= t < |s.threads| ensures !Holds(s.threads[t], id) { assert ThreadOk(sha, s, t); }
    NoHolders(s.threads, id);
  }

  lemma SubmitNew(sha: seq<byte> -> seq<byte>, s: State, job: Job)
    requires IsSha512(sha) && CookiesOk(sha, s) && HoldCount(s.threads, |s.jobs|) == 0
    requires |s.jobs| !in s.heap && |s.jobs| !in s.queue
    ensures var s' := DoSubmit(s, job); |s.jobs| in s'.heap && CookieOk(sha, s', |s.jobs|)
  {
    SubmitQueue(s, job);
  }

  lemma SubmitOld(sha: seq<byte> -> seq<byte>, s: State, job: Job, x: Id)
    requires IsSha512(sha) && CookiesOk(sha, s) && |s.jobs| !in s.heap && |s.jobs| !in s.queue && x in s.heap
    ensures CookieOk(sha, DoSubmit(s, job), x)
  {
    SubmitQueue(s, job);
    assert CookieOk(sha, s, x);
    if x !in s.queue && s.queue != [] {
      assert s.queue[0] in s.queue;
    }
  }

  lemma SubmitCookies(sha: seq<byte> -> seq<byte>, s: State, job: Job)
    requires IsSha512(sha) && CookiesOk(sha, s) && ThreadsOk(sha, s)
    ensures |s.jobs| !in s.heap && CookiesOk(sha, DoSubmit(s, job))
  {
    var s' := DoSubmit(s, job);
    SubmitFresh(sha, s);
    SubmitQueue(s, job);
    forall x | x in s'.heap ensures CookieOk(sha, s', x) {
      if x == |s.jobs| {
        SubmitNew(sha, s, job);
      } else {
        SubmitOld(sha, s, job, x);
      }
    }
    forall i | 0 <= i < |s'.queue| ensures s'.queue[i] in s'.heap {
      assert s'.queue[i] in s'.queue;
      assert forall x :: x in s.queue ==> x in s.heap;
    }
  }

  lemma SubmitRest(sha: seq<byte> -> seq<byte>, s: State, job: Job)
    requires IsSha512(sha) && ThreadsOk(sha, s) && HistoryOk(sha, s) && |s.jobs| !in s.heap
    ensures ThreadsOk(sha, DoSubmit(s, job)) && HistoryOk(sha, DoSubmit(s, job))
  {
    var s' := DoSubmit(s, job);
    forall t | 0 <= t < |s.threads| ensures ThreadOk(sha, s', t) { assert ThreadOk(sha, s, t); }
    forall t, u | 0 <= t < |s.threads| && 0 <= u < |s.threads| ensures Apart(s', t, u) { assert Apart(s, t, u); }
    forall p | p in s'.tried ensures PickOk(sha, s', p) { assert PickOk(sha, s, p); }
    forall id, o ensures HandedOut(s', id, o) { assert HandedOut(s, id, o); }
    forall i | 0 <= i < |s'.calls| ensures CallOk(sha, s', i) { assert CallOk(sha, s, i); }
  }

  /** Handing out an offset never repeats one, takes it from the head of the queue,
      and drops the cookie from the queue with its last offset. */
  lemma PickEffect(sha: seq<byte> -> seq<byte>, s: State, t: nat)
    requires IsSha512(sha) && CookiesOk(sha, s) && HistoryOk(sha, s) && Enabled(s, Pick(t))
    ensures s.queue[0] in s.heap
    ensures var id := s.queue[0];
      var c := s.heap[id];
      var last := c.nextOffset + 1 >= s.n;
      && (id, c.nextOffset) !in s.tried
      && DoPick(s, t) ==
         s.(heap := s.heap[id := c.(refCount := c.refCount + 1 - B(last), nextOffset := c.nextOffset + 1)],
            queue := if last then s.queue[1..] else s.queue,
            threads := s.threads[t := Checking(id, c.nextOffset, c.nextOffset)],
            tried := s.tried[(id, c.nextOffset) := 0])
  {
    var id := s.queue[0];
    assert CookieOk(sha, s, id);
    WithoutDistinct(s.queue, id);
    assert forall p :: p in s.tried ==> PickOk(sha, s, p);
  }

  lemma PickCookies(sha: seq<byte> -> seq<byte>, s: State, t: nat)
    requires IsSha512(sha) && Inv(sha, s) && Enabled(s, Pick(t))
    ensures CookiesOk(sha, DoPick(s, t))
  {
    PickEffect(sha, s, t);
    var id, s' := s.queue[0], DoPick(s, t);
    assert id !in s.queue[1..];
    assert forall x :: x in s.queue <==> x in s.queue[1..] || x == id;
    forall x | x in s'.heap ensures CookieOk(sha, s', x) {
      assert CookieOk(sha, s, x);
      HoldCountUpdate(s.threads, t, s'.threads[t], x);
    }
  }

  /** The thread that picks starts its class from the beginning. */
  lemma PickStarts(sha: seq<byte> -> seq<byte>, s: State, t: nat)
    requires IsSha512(sha) && Inv(sha, s) && Enabled(s, Pick(t))
    ensures ThreadOk(sha, DoPick(s, t), t)
  {
    PickEffect(sha, s, t);
    var id := s.queue[0];
    assert CookieOk(sha, s, id);
    NonceAtStart(s.heap[id].nextOffset, s.n);
  }

  lemma NonceAtStart(offset: nat, n: nat)
    requires offset < TWO_64
    ensures NonceAt(offset, n, 0) == offset
  {
  }

  lemma PickThreads(sha: seq<byte> -> seq<byte>, s: State, t: nat)
    requires IsSha512(sha) && Inv(sha, s) && Enabled(s, Pick(t))
    ensures ThreadsOk(sha, DoPick(s, t))
  {
    PickEffect(sha, s, t);
    PickStarts(sha, s, t);
    var s' := DoPick(s, t);
    forall u | 0 <= u < |s.threads| ensures ThreadOk(sha, s', u) {
      if u != t { assert ThreadOk(sha, s, u); }
    }
    forall u, v | 0 <= u < |s.threads| && 0 <= v < |s.threads| ensures Apart(s', u, v) {
      assert Apart(s, u, v) && ThreadOk(sha, s, u) && ThreadOk(sha, s, v);
    }
  }

  lemma PickRest(sha: seq<byte> -> seq<byte>, s: State, t: nat)
    requires IsSha512(sha) && Inv(sha, s) && Enabled(s, Pick(t))
    ensures HistoryOk(sha, DoPick(s, t))
  {
    PickEffect(sha, s, t);
    var id, s' := s.queue[0], DoPick(s, t);
    assert CookieOk(sha, s, id);
    forall p | p in s'.tried ensures PickOk(sha, s', p) { assert p in s.tried ==> PickOk(sha, s, p); }
    forall x, o ensures HandedOut(s', x, o) { assert HandedOut(s, x, o); }
    forall i | 0 <= i < |s'.calls| ensures CallOk(sha, s', i) { assert CallOk(sha, s, i); }
  }

  /** The history is the same but for what was tried at one offset. */
  ghost predicate SameBut(s: State, s': State, p: (Id, nat))
  {
    && s'.n == s.n && s'.jobs == s.jobs && s'.calls == s.calls
    && s'.cancelled == s.cancelled && s'.callers == s.callers
    && s'.tried.Keys == s.tried.Keys && (forall q :: q in s.tried && q != p ==> s'.tried[q] == s.tried[q])
  }

  /** No cookie comes or is reopened, and none goes but perhaps one that no thread has. */
  ghost predicate HeapKept(s: State, s': State, id: Id)
  {
    && (forall x :: x in s'.heap ==>
          && x in s.heap && s'.heap[x].nextOffset == s.heap[x].nextOffset && (s.heap[x].done ==> s'.heap[x].done))
    && (forall x :: x in s.heap && x != id ==> x in s'.heap)
    && (id !in s'.heap ==> HoldCount(s'.threads, id) == 0)
  }

  /** The part of the proof shared by the steps that move one thread, keep its
      cookie and offset if it still has one, and otherwise touch one cookie. */
  lemma ThreadMoved(sha: seq<byte> -> seq<byte>, s: State, s': State, t: nat, id: Id, p: (Id, nat))
    requires IsSha512(sha) && ThreadsOk(sha, s)
    requires t < |s.threads| == |s'.threads| && s'.threads == s.threads[t := s'.threads[t]]
    requires Busy(s'.threads[t]) ==>
      Busy(s.threads[t]) && PickOf(s'.threads[t]) == PickOf(s.threads[t]) && ThreadOk(sha, s', t)
    requires SameBut(s, s', p) && (s'.tried == s.tried || (Busy(s.threads[t]) && p == PickOf(s.threads[t])))
    requires HeapKept(s, s', id)
    ensures ThreadsOk(sha, s')
  {
    forall u | 0 <= u < |s'.threads| ensures ThreadOk(sha, s', u) {
      if u != t {
        assert ThreadOk(sha, s, u) && Apart(s, t, u);
        if Busy(s'.threads[u]) { HolderCounted(s'.threads, u); }
      }
    }
    forall u, v | 0 <= u < |s'.threads| && 0 <= v < |s'.threads| ensures Apart(s', u, v) { assert Apart(s, u, v); }
  }

  lemma HistoryMoved(sha: seq<byte> -> seq<byte>, s: State, s': State, id: Id, p: (Id, nat))
    requires IsSha512(sha) && HistoryOk(sha, s) && SameBut(s, s', p) && HeapKept(s, s', id)
    requires p in s'.tried ==> s'.tried[p] == s.tried[p] || PickOk(sha, s', p)
    ensures HistoryOk(sha, s')
  {
    forall q | q in s'.tried ensures PickOk(sha, s', q) { assert PickOk(sha, s, q); }
    forall x, o ensures HandedOut(s', x, o) { assert HandedOut(s, x, o); }
    forall i | 0 <= i < |s'.calls| ensures CallOk(sha, s', i) { assert CallOk(sha, s, i); }
  }

  /** Cookies other than the one a step concerns keep their guarantee when their
      holders do not change; losing the head of the queue only relaxes it. */
  lemma OthersKeep(sha: seq<byte> -> seq<byte>, s: State, s': State, id: Id)
    requires IsSha512(sha) && CookiesOk(sha, s)
    requires s'.n == s.n && s'.freed == s.freed && s'.jobs == s.jobs && !s'.fault
    requires forall x :: x in s'.heap && x != id ==> x in s.heap && s'.heap[x] == s.heap[x]
    requires forall x :: x in s.heap && x != id ==> x in s'.heap
    requires s'.callers - {id} == s.callers - {id}
    requires forall x :: x != id ==> (x in s'.queue <==> x in s.queue)
    requires forall x :: x != id && IsHead(s.queue, x) ==> IsHead(s'.queue, x)
    requires Distinct(s'.queue)
    requires forall x :: x != id ==> HoldCount(s'.threads, x) == HoldCount(s.threads, x)
    requires id in s'.heap ==> CookieOk(sha, s', id)
    requires id !in s'.heap ==> id !in s'.callers && id !in s'.queue
    ensures CookiesOk(sha, s')
  {
    forall x | x in s'.heap ensures CookieOk(sha, s', x) {
      if x != id {
        assert CookieOk(sha, s, x);
        assert x in s'.callers <==> x in s.callers - {id};
      }
    }
    forall x | x in s'.callers ensures x in s'.heap {
      if x != id { assert x in s.callers - {id}; }
    }
    forall i | 0 <= i < |s'.queue| ensures s'.queue[i] in s'.heap {
      assert s'.queue[i] in s'.queue;
    }
  }

  lemma HoldCountOthers(threads: seq<Thread>, t: nat, th: Thread, id: Id)
    requires t < |threads|
    requires forall x :: x != id ==> Holds(threads[t], x) == Holds(th, x)
    ensures forall x :: x != id ==> HoldCount(threads[t := th], x) == HoldCount(threads, x)
    ensures HoldCount(threads[t := th], id) == HoldCount(threads, id) + B(Holds(th, id)) - B(Holds(threads[t], id))
  {
    HoldCountUpdate(threads, t, th, id);
    forall x | x != id ensures HoldCount(threads[t := th], x) == HoldCount(threads, x) {
      HoldCountUpdate(threads, t, th, x);
    }
  }

  lemma CheckKeeps(sha: seq<byte> -> seq<byte>, s: State, t: nat)
    requires IsSha512(sha) && Inv(sha, s) && Enabled(s, Check(t))
    ensures Inv(sha, DoCheck(s, t))
  {
    var th, s' := s.threads[t], DoCheck(s, t);
    CheckCookies(sha, s, t);
    CheckMoves(sha, s, t);
    ThreadMoved(sha, s, s', t, th.id, PickOf(th));
    HistoryMoved(sha, s, s', th.id, PickOf(th));
  }

  lemma CheckMoves(sha: seq<byte> -> seq<byte>, s: State, t: nat)
    requires IsSha512(sha) && CookiesOk(sha, s) && ThreadsOk(sha, s) && Enabled(s, Check(t))
    ensures var th, s' := s.threads[t], DoCheck(s, t);
      && |s'.threads| == |s.threads| && s'.threads == s.threads[t := s'.threads[t]]
      && s'.tried == s.tried && SameBut(s, s', PickOf(th)) && HeapKept(s, s', th.id)
      && (Busy(s'.threads[t]) ==> PickOf(s'.threads[t]) == PickOf(th) && ThreadOk(sha, s', t))
  {
    var th, s' := s.threads[t], DoCheck(s, t);
    assert ThreadOk(sha, s, t) && CookieOk(sha, s, th.id);
    HolderCounted(s.threads, t);
    HoldCountOthers(s.threads, t, s'.threads[t], th.id);
  }

  lemma CheckCookies(sha: seq<byte> -> seq<byte>, s: State, t: nat)
    requires IsSha512(sha) && Inv(sha, s) && Enabled(s, Check(t))
    ensures CookiesOk(sha, DoCheck(s, t))
  {
    var id, s' := s.threads[t].id, DoCheck(s, t);
    assert ThreadOk(sha, s, t) && CookieOk(sha, s, id);
    HolderCounted(s.threads, t);
    HoldCountOthers(s.threads, t, s'.threads[t], id);
    OthersKeep(sha, s, s', id);
  }

  /** What a round gives, when k nonces of the class were tried before. */
  ghost predicate RoundGives(sha: seq<byte> -> seq<byte>, job: Job, n: nat, th: Thread, th': Thread, k: nat)
    requires IsSha512(sha) && Busy(th)
  {
    && Busy(th') && PickOf(th') == PickOf(th) && StandsOk(sha, th', job, n, false, k)
    && (k >= 1 ==> Rejected(TestOf(sha, job), Class(th.offset, n), 0, k - 1))
  }

  function AfterRound(th: Thread, r: Outcome): Thread
    requires Busy(th)
  {
    match r
    case Hit(nonce) => Found(th.id, th.offset, nonce)
    case Miss(next) => Checking(th.id, th.offset, next)
  }

  /** A round goes on in the thread's residue class, and counts what it has tried. */
  lemma RoundStands(sha: seq<byte> -> seq<byte>, job: Job, n: nat, th: Thread, k: nat)
    requires IsSha512(sha) && th.Searching? && StandsOk(sha, th, job, n, false, k)
    ensures var r, c := Search(sha, job, n, th.nonce, NONCES_PER_CHECK), SearchCount(sha, job, n, th.nonce, NONCES_PER_CHECK);
      RoundGives(sha, job, n, th, AfterRound(th, r), k + c)
  {
    SearchTests(sha, job, n, th.offset, k, NONCES_PER_CHECK);
  }

  lemma RoundEffect(sha: seq<byte> -> seq<byte>, s: State, t: nat)
    requires IsSha512(sha) && Enabled(s, Round(t)) && s.threads[t].id in s.heap && PickOf(s.threads[t]) in s.tried
    ensures var th, c := s.threads[t], s.heap[s.threads[t].id];
      var job := Job(c.hash, c.target);
      var count := SearchCount(sha, job, s.n, th.nonce, NONCES_PER_CHECK);
      DoRound(sha, s, t) ==
        s.(tried := s.tried[PickOf(th) := s.tried[PickOf(th)] + count],
           threads := s.threads[t := AfterRound(th, Search(sha, job, s.n, th.nonce, NONCES_PER_CHECK))])
  {
  }

  /** A step that only moves a thread on in its class. */
  lemma MovedOn(sha: seq<byte> -> seq<byte>, s: State, s': State, t: nat, th': Thread, k: nat)
    requires IsSha512(sha) && Inv(sha, s) && t < |s.threads| && Busy(s.threads[t])
    requires s.threads[t].id < |s.jobs| && RoundGives(sha, s.jobs[s.threads[t].id], s.n, s.threads[t], th', k)
    requires s' == s.(tried := s.tried[PickOf(s.threads[t]) := k], threads := s.threads[t := th'])
    ensures Inv(sha, s')
  {
    var th := s.threads[t];
    assert ThreadOk(sha, s, t) && PickOk(sha, s, PickOf(th)) && CookieOk(sha, s, th.id);
    HoldCountOthers(s.threads, t, th', th.id);
    MovedOnCookies(sha, s, s', th.id);
    HolderCounted(s.threads, t);
    assert ThreadOk(sha, s', t);
    ThreadMoved(sha, s, s', t, th.id, PickOf(th));
    assert PickOk(sha, s', PickOf(th));
    HistoryMoved(sha, s, s', th.id, PickOf(th));
  }

  lemma MovedOnCookies(sha: seq<byte> -> seq<byte>, s: State, s': State, id: Id)
    requires IsSha512(sha) && CookiesOk(sha, s) && id in s.heap
    requires s' == s.(tried := s'.tried, threads := s'.threads)
    requires forall x :: HoldCount(s'.threads, x) == HoldCount(s.threads, x)
    ensures CookiesOk(sha, s')
  {
    assert CookieOk(sha, s, id);
    OthersKeep(sha, s, s', id);
  }

  lemma RoundKeeps(sha: seq<byte> -> seq<byte>, s: State, t: nat)
    requires IsSha512(sha) && Inv(sha, s) && Enabled(s, Round(t))
    ensures Inv(sha, DoRound(sha, s, t))
  {
    var th' := RoundMoves(sha, s, t);
    MovedOn(sha, s, DoRound(sha, s, t), t, th', DoRound(sha, s, t).tried[PickOf(s.threads[t])]);
  }

  lemma RoundMoves(sha: seq<byte> -> seq<byte>, s: State, t: nat) returns (th': Thread)
    requires IsSha512(sha) && CookiesOk(sha, s) && ThreadsOk(sha, s) && Enabled(s, Round(t))
    ensures var th, s' := s.threads[t], DoRound(sha, s, t);
      && th.id < |s.jobs| && PickOf(th) in s'.tried
      && s' == s.(tried := s.tried[PickOf(th) := s'.tried[PickOf(th)]], threads := s.threads[t := th'])
      && RoundGives(sha, s.jobs[th.id], s.n, th, th', s'.tried[PickOf(th)])
  {
    var th := s.threads[t];
    assert ThreadOk(sha, s, t) && CookieOk(sha, s, th.id);
    var job, k := s.jobs[th.id], s.tried[PickOf(th)];
    RoundEffect(sha, s, t);
    RoundStands(sha, job, s.n, th, k);
    th' := AfterRound(th, Search(sha, job, s.n, th.nonce, NONCES_PER_CHECK));
  }

  lemma SolveCookies(sha: seq<byte> -> seq<byte>, s: State, t: nat)
    requires IsSha512(sha) && Inv(sha, s) && Enabled(s, Solve(t))
    ensures CookiesOk(sha, DoSolve(s, t))
  {
    var th, s' := s.threads[t], DoSolve(s, t);
    assert ThreadOk(sha, s, t) && CookieOk(sha, s, th.id);
    HoldCountOthers(s.threads, t, s'.threads[t], th.id);
    OthersKeep(sha, s, s', th.id);
  }

  lemma SolveKeeps(sha: seq<byte> -> seq<byte>, s: State, t: nat)
    requires IsSha512(sha) && Inv(sha, s) && Enabled(s, Solve(t))
    ensures Inv(sha, DoSolve(s, t))
  {
    var th, s' := s.threads[t], DoSolve(s, t);
    assert ThreadOk(sha, s, t) && CookieOk(sha, s, th.id);
    SolveCookies(sha, s, t);
    ThreadMoved(sha, s, s', t, th.id, PickOf(th));
    HistoryMoved(sha, s, s', th.id, PickOf(th));
  }

  lemma LeaveKeeps(sha: seq<byte> -> seq<byte>, s: State, t: nat)
    requires IsSha512(sha) && Inv(sha, s) && Enabled(s, Leave(t))
    ensures Inv(sha, s.(threads := s.threads[t := Exited]))
  {
    var s' := s.(threads := s.threads[t := Exited]);
    var id := |s.jobs|;
    forall x | x in s.heap ensures x != id { assert CookieOk(sha, s, x); }
    HoldCountOthers(s.threads, t, Exited, id);
    OthersKeep(sha, s, s', id);
    forall u | 0 <= u < |s.threads| ensures !Holds(s'.threads[u], id) { assert ThreadOk(sha, s, u); }
    NoHolders(s'.threads, id);
    ThreadMoved(sha, s, s', t, id, (id, 0));
    HistoryMoved(sha, s, s', id, (id, 0));
  }

  /** When one cookie's references are dropped without any thread moving, it goes
      away only if no thread works on it. */
  lemma ReleasedThreads(sha: seq<byte> -> seq<byte>, s: State, s': State, id: Id)
    requires IsSha512(sha) && ThreadsOk(sha, s) && HeapKept(s, s', id)
    requires s'.n == s.n && s'.jobs == s.jobs && s'.threads == s.threads && s'.tried == s.tried
    ensures ThreadsOk(sha, s')
  {
    forall t | 0 <= t < |s.threads| ensures ThreadOk(sha, s', t) {
      assert ThreadOk(sha, s, t);
      if Busy(s.threads[t]) { HolderCounted(s.threads, t); }
    }
    forall t, u | 0 <= t < |s.threads| && 0 <= u < |s.threads| ensures Apart(s', t, u) { assert Apart(s, t, u); }
  }

  lemma Released(sha: seq<byte> -> seq<byte>, s: State, s': State, id: Id)
    requires IsSha512(sha) && Inv(sha, s) && id in s.heap && HeapKept(s, s', id)
    requires s'.n == s.n && s'.jobs == s.jobs && s'.threads == s.threads && s'.tried == s.tried
    requires s'.callers <= s.callers
    requires s'.cancelled <= s.cancelled + {id} && (id in s'.cancelled ==> id !in s'.callers)
    requires s'.calls == s.calls || s'.calls == s.calls + [(id, s.heap[id].nonce)]
    requires s'.calls == s.calls ==> (id in s'.cancelled ==> id in s.callers || id in s.cancelled)
    requires s'.calls != s.calls ==>
      s'.cancelled == s.cancelled && s.heap[id].idle && id in s.callers && id !in s'.callers
    ensures ThreadsOk(sha, s') && HistoryOk(sha, s')
  {
    assert CookieOk(sha, s, id);
    ReleasedThreads(sha, s, s', id);
    forall p | p in s'.tried ensures PickOk(sha, s', p) { assert PickOk(sha, s, p); }
    forall x, o ensures HandedOut(s', x, o) { assert HandedOut(s, x, o); }
    forall i | 0 <= i < |s.calls| ensures CallOk(sha, s', i) { assert CallOk(sha, s, i); }
    forall i | 0 <= i < |s.calls| ensures s.calls[i].0 !in s.callers { assert CallOk(sha, s, i); }
  }

  lemma DeliverKeeps(sha: seq<byte> -> seq<byte>, s: State, id: Id)
    requires IsSha512(sha) && Inv(sha, s) && Enabled(s, Deliver(id))
    ensures Inv(sha, DoDeliver(s, id))
  {
    var s' := DoDeliver(s, id);
    assert CookieOk(sha, s, id);
    OthersKeep(sha, s, s', id);
    Released(sha, s, s', id);
  }

  /** A cancelled cookie is left with exactly the threads that work on it. */
  lemma CancelEffect(s: State, id: Id, held: nat)
    requires id in s.heap && (id in s.queue <==> s.heap[id].nextOffset < s.n)
    requires s.heap[id].refCount == 1 + B(id in s.queue) + held + B(s.heap[id].idle)
    ensures DoCancel(s, id) ==
      s.(heap := if held == 0 then s.heap - {id}
                 else s.heap[id := s.heap[id].(refCount := held, idle := false, done := true)],
         queue := Without(s.queue, id), callers := s.callers - {id}, cancelled := s.cancelled + {id})
  {
    var c := s.heap[id].(refCount := 1 + held, idle := false);
    CancelSharedEffect(s, id, held);
    CancelOwnedEffect(CancelIdle(CancelQueued(s, id), id), id, s.heap, c);
  }

  lemma CancelSharedEffect(s: State, id: Id, held: nat)
    requires id in s.heap && (id in s.queue <==> s.heap[id].nextOffset < s.n)
    requires s.heap[id].refCount == 1 + B(id in s.queue) + held + B(s.heap[id].idle)
    ensures CancelIdle(CancelQueued(s, id), id) ==
      s.(heap := s.heap[id := s.heap[id].(refCount := 1 + held, idle := false)], queue := Without(s.queue, id))
  {
    var c := s.heap[id].(refCount := 1 + held + B(s.heap[id].idle));
    CancelQueuedEffect(s, id, c);
    var s1 := s.(heap := s.heap[id := c], queue := Without(s.queue, id));
    assert CancelQueued(s, id) == s1;
    CancelIdleEffect(s1, id, s.heap, c);
    assert c.(refCount := c.refCount - B(c.idle), idle := false)
      == s.heap[id].(refCount := 1 + held, idle := false);
  }

  lemma CancelQueuedEffect(s: State, id: Id, c: Cookie)
    requires id in s.heap && (id in s.queue <==> s.heap[id].nextOffset < s.n)
    requires c.refCount >= 1 && s.heap[id] == c.(refCount := c.refCount + B(id in s.queue))
    ensures CancelQueued(s, id) == s.(heap := s.heap[id := c], queue := Without(s.queue, id))
  {
    assert s.heap == s.heap[id := s.heap[id]];
    WithoutMembers(s.queue, id);
    if id in s.queue {
      UnrefShared(s.(queue := Without(s.queue, id)), id, s.heap, s.heap[id]);
    }
  }

  lemma CancelIdleEffect(s: State, id: Id, heap: map<Id, Cookie>, c: Cookie)
    requires s.heap == heap[id := c] && c.refCount >= 1 + B(c.idle)
    ensures CancelIdle(s, id) == s.(heap := heap[id := c.(refCount := c.refCount - B(c.idle), idle := false)])
  {
    if c.idle {
      assert s.heap[id := c.(idle := false)] == heap[id := c.(idle := false)];
      UnrefShared(Put(s, id, c.(idle := false)), id, heap, c.(idle := false));
    }
  }

  lemma CancelOwnedEffect(s: State, id: Id, heap: map<Id, Cookie>, c: Cookie)
    requires s.heap == heap[id := c] && c.refCount >= 1
    ensures CancelOwned(s, id) == s.(heap := if c.refCount == 1 then heap - {id}
                                             else heap[id := c.(refCount := c.refCount - 1, done := true)])
  {
    var d := c.(done := true);
    assert s.heap[id := d] == heap[id := d];
    if c.refCount > 1 {
      UnrefShared(Put(s, id, d), id, heap, d);
    } else {
      assert heap[id := d] - {id} == heap - {id};
    }
  }

  lemma UnrefShared(s: State, id: Id, heap: map<Id, Cookie>, c: Cookie)
    requires s.heap == heap[id := c] && c.refCount >= 2
    ensures Unref(s, id) == s.(heap := heap[id := c.(refCount := c.refCount - 1)])
  {
    assert s.heap[id := c.(refCount := c.refCount - 1)] == heap[id := c.(refCount := c.refCount - 1)];
  }

  lemma CancelCookies(sha: seq<byte> -> seq<byte>, s: State, id: Id)
    requires IsSha512(sha) && Inv(sha, s) && Enabled(s, Cancel(id))
    ensures CookiesOk(sha, DoCancel(s, id))
  {
    assert CookieOk(sha, s, id);
    CancelEffect(s, id, HoldCount(s.threads, id));
    WithoutMembers(s.queue, id);
    WithoutDistinct(s.queue, id);
    OthersKeep(sha, s, DoCancel(s, id), id);
  }

  lemma CancelRest(sha: seq<byte> -> seq<byte>, s: State, id: Id)
    requires IsSha512(sha) && Inv(sha, s) && Enabled(s, Cancel(id))
    ensures ThreadsOk(sha, DoCancel(s, id)) && HistoryOk(sha, DoCancel(s, id))
  {
    CancelMoves(sha, s, id);
    Released(sha, s, DoCancel(s, id), id);
  }

  lemma CancelMoves(sha: seq<byte> -> seq<byte>, s: State, id: Id)
    requires IsSha512(sha) && CookiesOk(sha, s) && Enabled(s, Cancel(id))
    ensures var s' := DoCancel(s, id);
      && id in s.heap && HeapKept(s, s', id) && s'.threads == s.threads && s'.tried == s.tried
      && s'.n == s.n && s'.jobs == s.jobs && s'.calls == s.calls
      && s'.callers == s.callers - {id} && s'.cancelled == s.cancelled + {id}
  {
    assert CookieOk(sha, s, id);
    CancelEffect(s, id, HoldCount(s.threads, id));
  }

  lemma DequeueKeeps(sha: seq<byte> -> seq<byte>, s: State)
    requires IsSha512(sha) && Inv(sha, s) && s.freed && s.queue != []
    ensures Inv(sha, Unref(s.(queue := s.queue[1..]), s.queue[0]))
  {
    var id := s.queue[0];
    var s' := Unref(s.(queue := s.queue[1..]), id);
    assert CookieOk(sha, s, id);
    assert id !in s.queue[1..];
    assert forall x :: x in s.queue <==> x in s.queue[1..] || x == id;
    OthersKeep(sha, s, s', id);
    Released(sha, s, s', id);
  }

  lemma {:induction false} DrainKeeps(sha: seq<byte> -> seq<byte>, s: State)
    requires IsSha512(sha) && Inv(sha, s) && s.freed
    ensures Inv(sha, Drain(s)) && Drain(s).queue == []
    ensures Drain(s).callers == s.callers && Drain(s).threads == s.threads
    decreases |s.queue|
  {
    if s.queue != [] {
      DequeueKeeps(sha, s);
      DrainKeeps(sha, Unref(s.(queue := s.queue[1..]), s.queue[0]));
    }
  }

  lemma FlagsKeep(sha: seq<byte> -> seq<byte>, s: State, quit: bool, freed: bool)
    requires IsSha512(sha) && Inv(sha, s) && (s.freed ==> freed)
    ensures Inv(sha, s.(quit := quit, freed := freed))
  {
    var s' := s.(quit := quit, freed := freed);
    forall x | x in s'.heap ensures CookieOk(sha, s', x) { assert CookieOk(sha, s, x); }
    forall t | 0 <= t < |s.threads| ensures ThreadOk(sha, s', t) { assert ThreadOk(sha, s, t); }
    forall t, u | 0 <= t < |s.threads| && 0 <= u < |s.threads| ensures Apart(s', t, u) { assert Apart(s, t, u); }
    forall p | p in s'.tried ensures PickOk(sha, s', p) { assert PickOk(sha, s, p); }
    forall x, o ensures HandedOut(s', x, o) { assert HandedOut(s, x, o); }
    forall i | 0 <= i < |s'.calls| ensures CallOk(sha, s', i) { assert CallOk(sha, s, i); }
  }

  lemma NextKeeps(sha: seq<byte> -> seq<byte>, s: State, e: Event)
    requires IsSha512(sha) && Inv(sha, s)
    ensures Inv(sha, Next(sha, s, e))
  {
    if Enabled(s, e) {
      match e
      case Submit(job) =>
        SubmitCookies(sha, s, job);
        SubmitRest(sha, s, job);
      case Pick(t) =>
        PickCookies(sha, s, t);
        PickThreads(sha, s, t);
        PickRest(sha, s, t);
      case Check(t) => CheckKeeps(sha, s, t);
      case Round(t) => RoundKeeps(sha, s, t);
      case Solve(t) => SolveKeeps(sha, s, t);
      case Deliver(id) => DeliverKeeps(sha, s, id);
      case Cancel(id) =>
        CancelCookies(sha, s, id);
        CancelRest(sha, s, id);
      case Quit => FlagsKeep(sha, s, true, s.freed);
      case Leave(t) => LeaveKeeps(sha, s, t);
      case Free =>
        FlagsKeep(sha, s, s.quit, true);
        DrainKeeps(sha, s.(freed := true));
    }
  }

  lemma {:induction false} RunKeeps(sha: seq<byte> -> seq<byte>, s: State, events: seq<Event>)
    requires IsSha512(sha) && Inv(sha, s)
    ensures Inv(sha, Run(sha, s, events))
    decreases |events|
  {
    if events != [] {
      NextKeeps(sha, s, events[0]);
      RunKeeps(sha, Next(sha, s, events[0]), events[1..]);
    }
  }

  /** In every interleaving, whatever the number of threads: each cookie's count
      is the number of its live holders, no freed cookie is ever touched, only the
      head of the queue is partly handed out, no two threads search one cookie at
      the same offset, each thread goes through the residue class of its offset without
      skipping a solution, and callbacks are single, sound and never follow a cancel. */
  lemma EveryRunSafe(sha: seq<byte> -> seq<byte>, n: nat, events: seq<Event>)
    requires IsSha512(sha) && 1 <= n < TWO_31
    ensures Inv(sha, Run(sha, Init(n), events))
  {
    RunKeeps(sha, Init(n), events);
  }

  lemma NoncesApart(n: nat, o: nat, k: nat, o': nat, k': nat)
    requires n > 0 && o < n && o' < n && (o, k) != (o', k') && o + k * n < TWO_64 && o' + k' * n < TWO_64
    ensures NonceAt(o, n, k) != NonceAt(o', n, k')
  {
    var v, v' := o + k * n, o' + k' * n;
    SplitUnique(v, n, o, k);
    SplitUnique(v', n, o', k');
    assert NonceAt(o, n, k) == v && NonceAt(o', n, k') == v';
  }

  lemma SplitUnique(v: nat, n: nat, o: nat, k: nat)
    requires o < n && v == o + k * n
    ensures v % n == o && v / n == k
  {
    DivModUnique(v, n, k, o);
  }

  /** Two tests of one cookie in a run are tests of two nonces, as long as neither class
      has gone through all its nonces. */
  lemma TestsApart(sha: seq<byte> -> seq<byte>, n: nat, events: seq<Event>, s: State, id: Id, o: nat, k: nat, o': nat, k': nat)
    requires IsSha512(sha) && 1 <= n < TWO_31 && s == Run(sha, Init(n), events)
    requires (id, o) in s.tried && k < s.tried[(id, o)] && (id, o') in s.tried && k' < s.tried[(id, o')]
    requires (o, k) != (o', k') && o + k * s.n < TWO_64 && o' + k' * s.n < TWO_64
    ensures NonceAt(o, s.n, k) != NonceAt(o', s.n, k')
  {
    EveryRunSafe(sha, n, events);
    assert PickOk(sha, s, (id, o)) && PickOk(sha, s, (id, o'));
    NoncesApart(s.n, o, k, o', k');
  }

  /** The nonces of a job that a run has got to: those tried for some offset. */
  ghost predicate Passed(s: State, id: Id, v: nat)
    requires s.n > 0
  {
    (id, v % s.n) in s.tried && v / s.n + 1 < s.tried[(id, v % s.n)]
  }

  lemma PassedFails(sha: seq<byte> -> seq<byte>, s: State, id: Id, v: nat)
    requires IsSha512(sha) && Inv(sha, s) && v < TWO_64 && Passed(s, id, v)
    ensures id < |s.jobs| && !Solves(sha, s.jobs[id], v)
  {
    var o, k := v % s.n, v / s.n;
    ResiduesPartition(s.n, v);
    assert PickOk(sha, s, (id, o));
    assert Class(o, s.n)(k) == v;
  }

  /** A cookie all of whose offsets were handed out has every nonce in the class of one of
      them, and a nonce that its thread has passed does not solve the job. */
  lemma AllNoncesCovered(sha: seq<byte> -> seq<byte>, n: nat, events: seq<Event>, s: State, id: Id, v: nat)
    requires IsSha512(sha) && 1 <= n < TWO_31 && v < TWO_64 && s == Run(sha, Init(n), events)
    requires id in s.heap && s.heap[id].nextOffset >= s.n
    ensures s.n > 0 && (id, v % s.n) in s.tried && NonceAt(v % s.n, s.n, v / s.n) == v
    ensures Passed(s, id, v) ==> id < |s.jobs| && !Solves(sha, s.jobs[id], v)
  {
    EveryRunSafe(sha, n, events);
    ResiduesPartition(s.n, v);
    assert HandedOut(s, id, v % s.n);
    if Passed(s, id, v) {
      PassedFails(sha, s, id, v);
    }
  }

  /** No leak: after a shut-down with every cookie cancelled or called back,
      nothing is left allocated. */
  lemma NothingLeaks(sha: seq<byte> -> seq<byte>, n: nat, events: seq<Event>)
    requires IsSha512(sha) && 1 <= n < TWO_31
    ensures var s := Run(sha, Init(n), events);
      Enabled(s, Free) && s.callers == {} ==> Next(sha, s, Free).heap == map[]
  {
    var s := Run(sha, Init(n), events);
    EveryRunSafe(sha, n, events);
    if Enabled(s, Free) && s.callers == {} {
      FlagsKeep(sha, s, s.quit, true);
      DrainKeeps(sha, s.(freed := true));
      UnheldFreed(sha, Drain(s.(freed := true)));
    }
  }

  lemma UnheldFreed(sha: seq<byte> -> seq<byte>, s: State)
    requires IsSha512(sha) && Inv(sha, s) && s.callers == {} && s.queue == []
    requires forall t :: 0 <= t < |s.threads| ==> s.threads[t].Exited?
    ensures s.heap == map[]
  {
    forall id | id in s.heap ensures false {
      NoHolders(s.threads, id);
      SomeoneHolds(sha, s, id);
    }
  }

  lemma SomeoneHolds(sha: seq<byte> -> seq<byte>, s: State, id: Id)
    requires IsSha512(sha) && CookiesOk(sha, s) && id in s.heap
    ensures id in s.callers || id in s.queue || HoldCount(s.threads, id) >= 1
  {
    assert CookieOk(sha, s, id);
  }
}
