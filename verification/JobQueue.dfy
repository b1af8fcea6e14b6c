/**
 * The queue of src/selector.c through which resolver threads tell the event loop that a
 * name has been resolved. Any number of threads and the loop take the small steps between
 * which the scheduler may switch; the mutex is what they have to agree through.
 */
module JobQueue {

  /** A notification; `id` tells apart two for the same descriptor. */
  datatype Job = Job(id: nat, fd: int)

  /** A look of the loop at a job, and whether its descriptor was in use at that moment. */
  datatype Look = Look(job: Job, registered: bool)

  datatype Holder = Free | HeldBy(thread: nat) | HeldByLoop

  /** Where a thread is in selector_notify_block. */
  datatype Notifier =
    | Idle
    | Created(job: Job)                       // allocated, not queued yet
    | Locked(job: Job)                        // inside the mutex
    | Linked(job: Job, next: seq<Job>)        // job->next has been read from the list head
    | Queued                                  // the list head has been written

  /** Where the loop is in handle_block_notifications. */
  datatype Loop =
    | Outside
    | Traversing(rest: seq<Job>)              // the jobs from the cursor on
    | Emptied                                 // the list head has been reset

  datatype Queue = Queue(
    head: seq<Job>,                 // the list behind resolution_jobs, newest first
    mutex: Holder,
    threads: map<nat, Notifier>,
    loop: Loop,
    registered: set<int>,           // descriptors in use
    pushed: seq<Job>,               // history: jobs written to the list head
    examined: seq<Look>,            // history: jobs the loop looked at
    dispatched: seq<Job>,           // history: jobs whose handler was called
    dropped: seq<Job>,              // history: jobs whose descriptor was gone
    created: nat                    // history: jobs allocated
  )

  function Pc(q: Queue, t: nat): Notifier {
    if t in q.threads then q.threads[t] else Idle
  }

  function At(q: Queue, t: nat, pc: Notifier): Queue {
    q.(threads := q.threads[t := pc])
  }

  datatype Step =
    | Create(thread: nat, fd: int)
    | Lock(thread: nat)
    | ReadHead(thread: nat)
    | WriteHead(thread: nat)
    | Unlock(thread: nat)
    | LoopLock
    | LoopExamine
    | LoopReset
    | LoopUnlock
    | Environment(registered: set<int>)       // registrations and closings in between

  /** Whether the scheduler may take a step: a taken mutex blocks. */
  predicate Enabled(q: Queue, s: Step) {
    match s
    case Create(t, _) => Pc(q, t).Idle?
    case Lock(t) => Pc(q, t).Created? && q.mutex.Free?
    case ReadHead(t) => Pc(q, t).Locked?
    case WriteHead(t) => Pc(q, t).Linked?
    case Unlock(t) => Pc(q, t).Queued?
    case LoopLock => q.loop.Outside? && q.mutex.Free?
    case LoopExamine => q.loop.Traversing? && q.loop.rest != []
    case LoopReset => q.loop == Traversing([])
    case LoopUnlock => q.loop.Emptied?
    case Environment(_) => true
  }

  function Take(q: Queue, s: Step): Queue
    requires Enabled(q, s)
  {
    match s
    case Create(t, fd) => At(q, t, Created(Job(q.created, fd))).(created := q.created + 1)
    case Lock(t) => At(q, t, Locked(Pc(q, t).job)).(mutex := HeldBy(t))
    case ReadHead(t) => At(q, t, Linked(Pc(q, t).job, q.head))
    case WriteHead(t) =>
      At(q, t, Queued).(head := [Pc(q, t).job] + Pc(q, t).next, pushed := q.pushed + [Pc(q, t).job])
    case Unlock(t) => At(q, t, Idle).(mutex := Free)
    case LoopLock => q.(mutex := HeldByLoop, loop := Traversing(q.head))
    case LoopExamine =>
      var job := q.loop.rest[0];
      var look := Look(job, job.fd in q.registered);
      var p := q.(loop := Traversing(q.loop.rest[1..]), examined := q.examined + [look]);
      if job.fd in q.registered then p.(dispatched := p.dispatched + [job])
      else p.(dropped := p.dropped + [job])
    case LoopReset => q.(head := [], loop := Emptied)
    case LoopUnlock => q.(loop := Outside, mutex := Free)
    case Environment(r) => q.(registered := r)
  }

  const EMPTY_QUEUE: Queue := Queue([], Free, map[], Outside, {}, [], [], [], [], 0)

  /** The jobs that are queued and not looked at yet. */
  function Pending(q: Queue): seq<Job> {
    match q.loop
    case Outside => q.head
    case Traversing(rest) => rest
    case Emptied => []
  }

  predicate InMutex(pc: Notifier) {
    pc.Locked? || pc.Linked? || pc.Queued?
  }

  /** On its way to the list. */
  predicate Carrying(pc: Notifier) {
    pc.Created? || pc.Locked? || pc.Linked?
  }

  predicate Mutual(q: Queue) {
    && (forall t :: t in q.threads && InMutex(q.threads[t]) ==> q.mutex == HeldBy(t))
    && (!q.loop.Outside? <==> q.mutex.HeldByLoop?)
  }

  /** What a thread in the critical section read is still the list. */
  predicate Undisturbed(q: Queue) {
    && (forall t :: t in q.threads && q.threads[t].Linked? ==> q.threads[t].next == q.head)
    && (q.loop.Emptied? ==> q.head == [])
  }

  /** Ids are handed out once: what is on its way differs from what was pushed and from each other. */
  predicate Distinct(q: Queue) {
    && (forall i :: 0 <= i < |q.pushed| ==> q.pushed[i].id < q.created)
    && (forall i, j :: 0 <= i < j < |q.pushed| ==> q.pushed[i].id != q.pushed[j].id)
    && (forall t :: t in q.threads && Carrying(q.threads[t]) ==> Unpushed(q, q.threads[t].job))
    && (forall t, u :: t in q.threads && u in q.threads && t != u
                       && Carrying(q.threads[t]) && Carrying(q.threads[u]) ==>
                       q.threads[t].job.id != q.threads[u].job.id)
  }

  predicate Unpushed(q: Queue, job: Job) {
    job.id < q.created && forall i :: 0 <= i < |q.pushed| ==> q.pushed[i].id != job.id
  }

  function Jobs(looks: seq<Look>): seq<Job> {
    seq(|looks|, i requires 0 <= i < |looks| => looks[i].job)
  }

  /** The jobs looked at while their descriptor was in use, or while it was not, in order. */
  function Having(looks: seq<Look>, registered: bool): seq<Job> {
    if looks == [] then []
    else
      var last := looks[|looks| - 1];
      Having(looks[..|looks| - 1], registered) + if last.registered == registered then [last.job] else []
  }

  /**
   * Nothing queued is lost and nothing is looked at twice; the handler was called for
   * exactly the jobs whose descriptor was in use when they were looked at.
   */
  predicate Accounted(q: Queue) {
    && multiset(q.pushed) == multiset(Jobs(q.examined)) + multiset(Pending(q))
    && q.dispatched == Having(q.examined, true)
    && q.dropped == Having(q.examined, false)
  }

  lemma {:induction false} LooksSplit(looks: seq<Look>)
    ensures multiset(Jobs(looks)) == multiset(Having(looks, true)) + multiset(Having(looks, false))
    decreases |looks|
  {
    if looks != [] {
      hide Having, Jobs;
      var init, last := looks[..|looks| - 1], looks[|looks| - 1];
      LooksSplit(init);
      JobsMore(init, last);
      assert looks == init + [last];
      OneMore(Jobs(init), Having(init, true), Having(init, false), last.job);
    }
  }

  lemma OneMore(all: seq<Job>, some: seq<Job>, others: seq<Job>, job: Job)
    requires multiset(all) == multiset(some) + multiset(others)
    ensures multiset(all + [job]) == multiset(some + [job]) + multiset(others)
    ensures multiset(all + [job]) == multiset(some) + multiset(others + [job])
  {
  }

  lemma JobsMore(looks: seq<Look>, look: Look)
    ensures Jobs(looks + [look]) == Jobs(looks) + [look.job]
    ensures Having(looks + [look], look.registered) == Having(looks, look.registered) + [look.job]
    ensures Having(looks + [look], !look.registered) == Having(looks, !look.registered)
  {
    assert (looks + [look])[..|looks|] == looks;
  }

  predicate Inv(q: Queue) {
    Mutual(q) && Undisturbed(q) && Distinct(q) && Accounted(q)
  }

  lemma MutualKept(q: Queue, s: Step)
    requires Mutual(q) && Undisturbed(q) && Enabled(q, s)
    ensures Mutual(Take(q, s)) && Undisturbed(Take(q, s))
  {
  }

  /** A thread that goes on with its job, or without one. */
  lemma DistinctMoving(q: Queue, t: nat, pc: Notifier)
    requires Distinct(q) && (Carrying(pc) ==> Carrying(Pc(q, t)) && pc.job == Pc(q, t).job)
    ensures Distinct(At(q, t, pc))
  {
    var p := At(q, t, pc);
    assert forall u :: u in p.threads && Carrying(p.threads[u]) ==>
             u in q.threads && Carrying(q.threads[u]) && p.threads[u].job == q.threads[u].job;
    assert forall job :: Unpushed(q, job) ==> Unpushed(p, job);
  }

  lemma DistinctCreated(q: Queue, t: nat, fd: int)
    requires Distinct(q) && Pc(q, t).Idle?
    ensures Distinct(Take(q, Create(t, fd)))
  {
    var p := Take(q, Create(t, fd));
    forall u | u in p.threads && Carrying(p.threads[u])
      ensures Unpushed(p, p.threads[u].job)
      ensures u != t ==> p.threads[u].job.id < q.created
    {
      if u != t { assert Unpushed(q, q.threads[u].job); }
    }
  }

  lemma DistinctPushed(q: Queue, t: nat)
    requires Distinct(q) && Pc(q, t).Linked?
    ensures Distinct(Take(q, WriteHead(t)))
  {
    var p := Take(q, WriteHead(t));
    assert Unpushed(q, q.threads[t].job);
    forall u | u in p.threads && Carrying(p.threads[u])
      ensures Unpushed(p, p.threads[u].job)
    {
      assert u != t && Unpushed(q, q.threads[u].job);
    }
  }

  lemma DistinctElsewhere(q: Queue, p: Queue)
    requires Distinct(q) && p.threads == q.threads && p.pushed == q.pushed && p.created == q.created
    ensures Distinct(p)
  {
    assert forall job :: Unpushed(q, job) ==> Unpushed(p, job);
  }

  lemma DistinctKept(q: Queue, s: Step)
    requires Distinct(q) && Enabled(q, s)
    ensures Distinct(Take(q, s))
  {
    hide Distinct;
    var p := Take(q, s);
    match s
    case Create(t, fd) => DistinctCreated(q, t, fd);
    case WriteHead(t) => DistinctPushed(q, t);
    case Lock(t) =>
      DistinctMoving(q, t, Locked(Pc(q, t).job));
      DistinctElsewhere(At(q, t, Locked(Pc(q, t).job)), p);
    case ReadHead(t) => DistinctMoving(q, t, Linked(Pc(q, t).job, q.head));
    case Unlock(t) =>
      DistinctMoving(q, t, Idle);
      DistinctElsewhere(At(q, t, Idle), p);
    case _ => DistinctElsewhere(q, p);
  }

  lemma MultisetOfCons(job: Job, s: seq<Job>)
    ensures multiset([job] + s) == multiset{job} + multiset(s)
    ensures multiset(s + [job]) == multiset(s) + multiset{job}
  {
  }

  lemma AccountedExamined(q: Queue)
    requires Accounted(q) && Enabled(q, LoopExamine)
    ensures Accounted(Take(q, LoopExamine))
  {
    hide Having, Jobs;
    var job, rest := q.loop.rest[0], q.loop.rest[1..];
    assert q.loop.rest == [job] + rest;
    JobsMore(q.examined, Look(job, job.fd in q.registered));
    MultisetOfCons(job, rest);
    MultisetOfCons(job, Jobs(q.examined));
  }

  lemma AccountedPushed(q: Queue, t: nat)
    requires Mutual(q) && Undisturbed(q) && Accounted(q) && Enabled(q, WriteHead(t))
    ensures Accounted(Take(q, WriteHead(t)))
  {
    var job := Pc(q, t).job;
    assert q.mutex == HeldBy(t) && q.loop.Outside?;
    MultisetOfCons(job, q.head);
    MultisetOfCons(job, q.pushed);
  }

  lemma AccountedKept(q: Queue, s: Step)
    requires Mutual(q) && Undisturbed(q) && Accounted(q) && Enabled(q, s)
    ensures Accounted(Take(q, s))
  {
    if s.LoopExamine? {
      AccountedExamined(q);
    } else if s.WriteHead? {
      AccountedPushed(q, s.thread);
    } else {
      assert Pending(Take(q, s)) == Pending(q);
    }
  }

  lemma StepKept(q: Queue, s: Step)
    requires Inv(q) && Enabled(q, s)
    ensures Inv(Take(q, s))
  {
    MutualKept(q, s);
    DistinctKept(q, s);
    AccountedKept(q, s);
  }

  /** A schedule: steps that are each enabled when taken. */
  predicate Schedule(q: Queue, steps: seq<Step>)
    decreases |steps|
  {
    steps == [] || (Enabled(q, steps[0]) && Schedule(Take(q, steps[0]), steps[1..]))
  }

  function After(q: Queue, steps: seq<Step>): Queue
    requires Schedule(q, steps)
    decreases |steps|
  {
    if steps == [] then q else After(Take(q, steps[0]), steps[1..])
  }

  lemma {:induction false} ScheduleKept(q: Queue, steps: seq<Step>)
    requires Inv(q) && Schedule(q, steps)
    ensures Inv(After(q, steps))
    decreases |steps|
  {
    if steps != [] {
      StepKept(q, steps[0]);
      ScheduleKept(Take(q, steps[0]), steps[1..]);
    }
  }

  /**
   * For every interleaving: each notification that was queued is either still pending or
   * was examined exactly once, and then dispatched if its descriptor was in use at that
   * moment and dropped if not; and whenever the loop has just emptied the list nothing is
   * pending.
   */
  lemma NoNotificationLost(steps: seq<Step>)
    requires Schedule(EMPTY_QUEUE, steps)
    ensures var q := After(EMPTY_QUEUE, steps);
            && multiset(q.pushed) == multiset(Jobs(q.examined)) + multiset(Pending(q))
            && q.dispatched == Having(q.examined, true) && q.dropped == Having(q.examined, false)
            && (forall j :: j in q.pushed ==>
                  multiset(q.dispatched)[j] + multiset(q.dropped)[j] + multiset(Pending(q))[j] == 1)
            && (q.loop.Emptied? ==> multiset(q.pushed) == multiset(q.dispatched) + multiset(q.dropped))
  {
    ScheduleKept(EMPTY_QUEUE, steps);
    var q := After(EMPTY_QUEUE, steps);
    LooksSplit(q.examined);
    forall j | j in q.pushed
      ensures multiset(q.pushed)[j] == 1
    {
      OnceEach(q.pushed, j);
    }
  }

  lemma {:induction false} OnceEach(jobs: seq<Job>, j: Job)
    requires j in jobs && forall i, k :: 0 <= i < k < |jobs| ==> jobs[i].id != jobs[k].id
    ensures multiset(jobs)[j] == 1
    decreases |jobs|
  {
    var n := |jobs| - 1;
    var init := jobs[..n];
    assert jobs == init + [jobs[n]];
    if j == jobs[n] {
      assert j !in init;
    } else {
      OnceEach(init, j);
    }
  }
}
