/** The queue of BlockingQueue.h, shared by any number of threads.  Each thread runs Put, GetBlocking or Get one step
    at a time: a step is one operation on the mutex, the semaphore or the list. */
module BlockingQueues {

  /** Where a thread stands.  A thread at PutPush up to PutRelease, at GetTest, GetWait, Pop or Unlock holds the
      mutex. */
  datatype Pc<T> =
    | Idle
    | PutPush(thing: T)            // mutex locked, about to push
    | PutLoop(didOverflow: bool)   // at the head of the overflow loop
    | PutRelease                   // about to release the semaphore
    | Ticket                       // GetBlocking has a permit, about to lock the mutex
    | GetTest                      // Get has the mutex, about to test the size
    | GetWait                      // Get saw an element, about to take a permit
    | Pop(ticket: bool)            // about to remove the front, with or without a permit
    | Unlock                       // about to unlock the mutex and return

  datatype Action<T> = StartPut(thing: T) | StartGetBlocking | StartGet | Continue

  datatype Outcome = Running | Aborted | Crashed

  /** put and removed record what has been pushed and what has left the queue, in order. */
  datatype State<T> = State(
    capacity: nat,
    hasCallback: bool,
    queue: seq<T>,
    permits: nat,
    holder: set<nat>,
    pcs: map<nat, Pc<T>>,
    put: seq<T>,
    removed: seq<T>,
    outcome: Outcome)

  function PcOf<T>(s: State<T>, t: nat): Pc<T> {
    if t in s.pcs then s.pcs[t] else Idle
  }

  function Initial<T>(capacity: nat, hasCallback: bool): State<T> {
    State(capacity, hasCallback, [], 0, {}, map[], [], [], Running)
  }

  // ---------------------------------------------------------------- steps

  /** Whether thread t can take the step now.  Locking waits for the mutex, taking a permit for a permit. */
  predicate Enabled<T>(s: State<T>, t: nat, a: Action<T>) {
    && s.outcome == Running
    && match PcOf(s, t) {
         case Idle => ((a.StartPut? || a.StartGet?) && s.holder == {}) || (a.StartGetBlocking? && s.permits > 0)
         case Ticket => a.Continue? && s.holder == {}
         case GetWait => a.Continue? && s.permits > 0
         case _ => a.Continue?
       }
  }

  function Step<T>(s: State<T>, t: nat, a: Action<T>): State<T>
    requires Enabled(s, t, a)
  {
    match PcOf(s, t) {
      case Idle =>
        (match a
         case StartPut(thing) => s.(holder := {t}, pcs := s.pcs[t := PutPush(thing)])
         case StartGetBlocking => s.(permits := s.permits - 1, pcs := s.pcs[t := Ticket])
         case _ => s.(holder := {t}, pcs := s.pcs[t := GetTest]))
      case PutPush(thing) => s.(queue := s.queue + [thing], put := s.put + [thing], pcs := s.pcs[t := PutLoop(false)])
      case PutLoop(didOverflow) =>
        if |s.queue| > s.capacity then
          if s.hasCallback then PopFront(s).(pcs := s.pcs[t := PutLoop(true)]) else s.(outcome := Aborted)
        else s.(pcs := s.pcs[t := if didOverflow then Unlock else PutRelease])
      case PutRelease => s.(permits := s.permits + 1, pcs := s.pcs[t := Unlock])
      case Ticket => s.(holder := {t}, pcs := s.pcs[t := Pop(true)])
      case GetTest => s.(pcs := s.pcs[t := if |s.queue| > 0 then GetWait else Pop(false)])
      case GetWait => s.(permits := s.permits - 1, pcs := s.pcs[t := Pop(true)])
      case Pop(_) => if s.queue == [] then s.(outcome := Crashed) else PopFront(s).(pcs := s.pcs[t := Unlock])
      case Unlock => s.(holder := {}, pcs := s.pcs[t := Idle])
    }
  }

  function PopFront<T>(s: State<T>): State<T> {
    if s.queue == [] then s else s.(queue := s.queue[1..], removed := s.removed + [s.queue[0]])
  }

  // ---------------------------------------------------------------- the invariant

  predicate HoldsMutex<T>(pc: Pc<T>) {
    !pc.Idle? && !pc.Ticket?
  }

  predicate HasTicket<T>(pc: Pc<T>) {
    pc.Ticket? || pc == Pop(true)
  }

  /** A pushed element for which the semaphore has not been released yet. */
  predicate OwesRelease<T>(pc: Pc<T>) {
    pc == PutLoop(false) || pc.PutRelease?
  }

  /** The threads that have a permit for an element they have not removed yet. */
  function TicketHolders<T>(pcs: map<nat, Pc<T>>): set<nat> {
    set t | t in pcs && HasTicket(pcs[t])
  }

  function Owing<T>(pcs: map<nat, Pc<T>>): set<nat> {
    set t | t in pcs && OwesRelease(pcs[t])
  }

  /** Every element of the queue is accounted for: by a permit, by a thread that has a permit for it, or by a thread
      that is still to release one. */
  ghost predicate Counted<T>(s: State<T>) {
    |s.queue| == s.permits + |TicketHolders(s.pcs)| + |Owing(s.pcs)|
  }

  /** Nothing is lost, invented or reordered. */
  ghost predicate InOrder<T>(s: State<T>) {
    s.removed + s.queue == s.put
  }

  ghost predicate Exclusive<T>(s: State<T>) {
    && (forall t :: t in s.pcs ==> (HoldsMutex(s.pcs[t]) <==> t in s.holder))
    && s.holder <= s.pcs.Keys
    && (forall t, u :: t in s.holder && u in s.holder ==> t == u)
  }

  ghost predicate Bounded<T>(s: State<T>) {
    && (forall t :: t in s.pcs ==> PcBounded(s, s.pcs[t]))
    && (s.holder == {} ==> |s.queue| <= s.capacity)
  }

  /** What the holder of the mutex knows of the queue. */
  predicate PcBounded<T>(s: State<T>, pc: Pc<T>) {
    match pc
    case PutLoop(didOverflow) => if didOverflow then |s.queue| == s.capacity else |s.queue| <= s.capacity + 1
    case GetWait => 0 < |s.queue| <= s.capacity
    case Pop(ticket) => |s.queue| <= s.capacity && (!ticket ==> s.queue == [])
    case Idle => true
    case Ticket => true
    case _ => |s.queue| <= s.capacity
  }

  ghost predicate Consistent<T>(s: State<T>) {
    Counted(s) && InOrder(s) && Exclusive(s) && Bounded(s)
  }

  lemma InitialConsistent<T>(capacity: nat, hasCallback: bool)
    ensures Consistent(Initial<T>(capacity, hasCallback))
  {
  }

  function One(b: bool): nat {
    if b then 1 else 0
  }

  /** Moving one thread adds it to, or takes it out of, the set of ticket holders. */
  lemma MoveTicket<T>(pcs: map<nat, Pc<T>>, t: nat, pc: Pc<T>)
    ensures |TicketHolders(pcs[t := pc])|
              == |TicketHolders(pcs)| + One(HasTicket(pc)) - One(t in pcs && HasTicket(pcs[t]))
  {
    var rest := TicketHolders(pcs) - {t};
    assert TicketHolders(pcs) == if t in pcs && HasTicket(pcs[t]) then rest + {t} else rest;
    assert TicketHolders(pcs[t := pc]) == if HasTicket(pc) then rest + {t} else rest;
  }

  lemma MoveOwing<T>(pcs: map<nat, Pc<T>>, t: nat, pc: Pc<T>)
    ensures |Owing(pcs[t := pc])| == |Owing(pcs)| + One(OwesRelease(pc)) - One(t in pcs && OwesRelease(pcs[t]))
  {
    var rest := Owing(pcs) - {t};
    assert Owing(pcs) == if t in pcs && OwesRelease(pcs[t]) then rest + {t} else rest;
    assert Owing(pcs[t := pc]) == if OwesRelease(pc) then rest + {t} else rest;
  }

  /** A step moves one thread. */
  lemma StepMoves<T>(s: State<T>, t: nat, a: Action<T>)
    requires Enabled(s, t, a) && Step(s, t, a).outcome == Running
    ensures t in Step(s, t, a).pcs && Step(s, t, a).pcs == s.pcs[t := Step(s, t, a).pcs[t]]
  {
  }

  lemma StepKeepsExclusive<T>(s: State<T>, t: nat, a: Action<T>)
    requires Exclusive(s) && Enabled(s, t, a) && Step(s, t, a).outcome == Running
    ensures Exclusive(Step(s, t, a))
  {
  }

  lemma StepKeepsBounded<T>(s: State<T>, t: nat, a: Action<T>)
    requires Exclusive(s) && Bounded(s) && Enabled(s, t, a) && Step(s, t, a).outcome == Running
    ensures Bounded(Step(s, t, a))
  {
  }

  lemma StepKeepsInOrder<T>(s: State<T>, t: nat, a: Action<T>)
    requires InOrder(s) && Enabled(s, t, a)
    ensures InOrder(Step(s, t, a))
  {
  }

  lemma StepKeepsCounted<T>(s: State<T>, t: nat, a: Action<T>)
    requires Counted(s) && Bounded(s) && Enabled(s, t, a) && Step(s, t, a).outcome == Running
    ensures Counted(Step(s, t, a))
  {
    var s' := Step(s, t, a);
    StepMoves(s, t, a);
    MoveTicket(s.pcs, t, s'.pcs[t]);
    MoveOwing(s.pcs, t, s'.pcs[t]);
  }

  lemma StepKeepsConsistent<T>(s: State<T>, t: nat, a: Action<T>)
    requires Consistent(s) && Enabled(s, t, a) && Step(s, t, a).outcome == Running
    ensures Consistent(Step(s, t, a))
  {
    StepKeepsExclusive(s, t, a);
    StepKeepsBounded(s, t, a);
    StepKeepsInOrder(s, t, a);
    StepKeepsCounted(s, t, a);
  }

  // ---------------------------------------------------------------- runs

  datatype Event<T> = Event(thread: nat, action: Action<T>)

  /** The events can happen in this order from s on. */
  predicate Feasible<T>(s: State<T>, run: seq<Event<T>>)
    decreases |run|
  {
    run == [] || (Enabled(s, run[0].thread, run[0].action) && Feasible(Step(s, run[0].thread, run[0].action), run[1..]))
  }

  function Exec<T>(s: State<T>, run: seq<Event<T>>): State<T>
    requires Feasible(s, run)
    decreases |run|
  {
    if run == [] then s else Exec(Step(s, run[0].thread, run[0].action), run[1..])
  }

  /** Every run keeps the invariant for as long as the program runs. */
  lemma {:induction false} RunsStayConsistent<T>(s: State<T>, run: seq<Event<T>>)
    requires Consistent(s) && Feasible(s, run)
    ensures Exec(s, run).outcome == Running ==> Consistent(Exec(s, run))
    decreases |run|
  {
    if run != [] {
      var e := run[0];
      if Step(s, e.thread, e.action).outcome == Running {
        StepKeepsConsistent(s, e.thread, e.action);
        RunsStayConsistent(Step(s, e.thread, e.action), run[1..]);
      }
    }
  }

  /** What the invariant says when nobody holds the mutex, and that the semaphore never exceeds its limit. */
  lemma ConsistentMeans<T>(s: State<T>)
    requires Consistent(s)
    ensures s.permits <= s.capacity
    ensures s.holder == {} ==> s.permits + |TicketHolders(s.pcs)| == |s.queue| <= s.capacity
    ensures s.removed <= s.put
    ensures forall t :: t in s.pcs && s.pcs[t].PutRelease? ==> s.permits + 1 <= s.capacity
  {
    assert Owing(s.pcs) <= s.holder;
    assert s.holder == {} ==> Owing(s.pcs) == {};
    if s.holder != {} {
      var t :| t in s.holder;
      assert PcBounded(s, s.pcs[t]);
      assert OwesRelease(s.pcs[t]) ==> Owing(s.pcs) == {t} && |Owing(s.pcs)| == 1;
    }
  }

  // ---------------------------------------------------------------- what can go wrong

  /** A removal hits an empty queue exactly if the thread is a Get that found the queue empty. */
  lemma CrashesIffGetOnEmpty<T>(s: State<T>, t: nat, a: Action<T>)
    requires Consistent(s) && Enabled(s, t, a)
    ensures Step(s, t, a).outcome == Crashed <==> PcOf(s, t) == Pop(false)
  {
    if PcOf(s, t) == Pop(true) {
      assert t in TicketHolders(s.pcs);
      assert |TicketHolders(s.pcs)| > 0;
    }
  }

  /** A thread gets there exactly by testing an empty queue in Get. */
  lemma UnsafePopIffGetOnEmpty<T>(s: State<T>, t: nat, a: Action<T>)
    requires Enabled(s, t, a) && PcOf(s, t) != Pop(false)
    ensures PcOf(Step(s, t, a), t) == Pop(false) <==> PcOf(s, t).GetTest? && s.queue == []
  {
  }

  /** Without an overflow callback, Put aborts exactly if it has pushed onto a full queue. */
  lemma AbortsIffFull<T>(s: State<T>, t: nat, a: Action<T>)
    requires Consistent(s) && Enabled(s, t, a)
    ensures Step(s, t, a).outcome == Aborted <==>
              PcOf(s, t) == PutLoop(false) && !s.hasCallback && |s.queue| == s.capacity + 1
  {
  }

  /** In this run, every Get that tests the size finds an element. */
  predicate GetsFindElements<T>(s: State<T>, run: seq<Event<T>>)
    requires Feasible(s, run)
    decreases |run|
  {
    run == [] ||
    (&& (PcOf(s, run[0].thread).GetTest? ==> s.queue != [])
     && GetsFindElements(Step(s, run[0].thread, run[0].action), run[1..]))
  }

  ghost predicate NoUnsafePop<T>(s: State<T>) {
    forall t :: t in s.pcs ==> s.pcs[t] != Pop(false)
  }

  /** With an overflow callback and no Get on an empty queue, every run is safe. */
  lemma {:induction false} SafeRuns<T>(s: State<T>, run: seq<Event<T>>)
    requires Consistent(s) && s.outcome == Running && s.hasCallback && NoUnsafePop(s) && Feasible(s, run)
    requires GetsFindElements(s, run)
    ensures Exec(s, run).outcome == Running && Consistent(Exec(s, run))
    decreases |run|
  {
    if run != [] {
      var e := run[0];
      CrashesIffGetOnEmpty(s, e.thread, e.action);
      AbortsIffFull(s, e.thread, e.action);
      StepKeepsConsistent(s, e.thread, e.action);
      SafeRuns(Step(s, e.thread, e.action), run[1..]);
    }
  }

  // ---------------------------------------------------------------- runs that go wrong

  /** The state after the first i events. */
  function After<T>(s: State<T>, run: seq<Event<T>>, i: nat): State<T>
    requires Feasible(s, run) && i <= |run|
    decreases i
  {
    if i == 0 then s else After(Step(s, run[0].thread, run[0].action), run[1..], i - 1)
  }

  /** Step i of the run is a Get that tests the size of an empty queue, and the run goes on after it. */
  predicate EmptyGet<T>(s: State<T>, run: seq<Event<T>>, i: nat)
    requires Feasible(s, run)
  {
    && i + 1 < |run|
    && PcOf(After(s, run, i), run[i].thread).GetTest? && After(s, run, i).queue == []
  }

  ghost predicate SomeEmptyGet<T>(s: State<T>, run: seq<Event<T>>)
    requires Feasible(s, run)
  {
    exists i: nat :: EmptyGet(s, run, i)
  }

  lemma EmptyGetLater<T>(s: State<T>, run: seq<Event<T>>)
    requires run != [] && Feasible(s, run)
    ensures var rest := SomeEmptyGet(Step(s, run[0].thread, run[0].action), run[1..]);
            SomeEmptyGet(s, run) <==> EmptyGet(s, run, 0) || rest
  {
    var s', rest := Step(s, run[0].thread, run[0].action), run[1..];
    if SomeEmptyGet(s', rest) {
      var i: nat :| EmptyGet(s', rest, i);
      var next := i + 1;
      assert EmptyGet(s, run, next);
    }
    if SomeEmptyGet(s, run) {
      var i: nat :| EmptyGet(s, run, i);
      if i > 0 {
        var before := i - 1;
        assert EmptyGet(s', rest, before);
      }
    }
  }

  /** With a thread at the removal of an element that is not there, only this thread can go on, and it crashes. */
  lemma UnsafePopCrashes<T>(s: State<T>, t: nat, u: nat, a: Action<T>)
    requires Consistent(s) && PcOf(s, t) == Pop(false) && Enabled(s, u, a)
    ensures Step(s, u, a).outcome == Crashed
  {
    assert t in s.holder && PcBounded(s, s.pcs[t]);
    assert u in s.pcs && HoldsMutex(s.pcs[u]) ==> u == t;
  }

  /** A run ends in a crash if and only if some Get has found the queue empty and the run went on from there: its next
      step is the removal. */
  lemma {:induction false} CrashedIff<T>(s: State<T>, run: seq<Event<T>>)
    requires Consistent(s) && s.outcome == Running && NoUnsafePop(s) && Feasible(s, run)
    ensures Exec(s, run).outcome == Crashed <==> SomeEmptyGet(s, run)
    decreases |run|
  {
    if run != [] {
      var e, rest := run[0], run[1..];
      var s' := Step(s, e.thread, e.action);
      EmptyGetLater(s, run);
      CrashesIffGetOnEmpty(s, e.thread, e.action);
      if s'.outcome == Running {
        StepKeepsConsistent(s, e.thread, e.action);
        UnsafePopIffGetOnEmpty(s, e.thread, e.action);
        if PcOf(s', e.thread) == Pop(false) {
          NextStepCrashes(s', e.thread, rest);
        } else {
          StepMoves(s, e.thread, e.action);
          CrashedIff(s', rest);
        }
      } else {
        assert rest == [];
      }
    }
  }

  /** With an overflow callback, a run keeps going if and only if it does not remove from an empty queue. */
  lemma SafeIff<T>(s: State<T>, run: seq<Event<T>>)
    requires Consistent(s) && s.outcome == Running && s.hasCallback && NoUnsafePop(s) && Feasible(s, run)
    ensures Exec(s, run).outcome == if SomeEmptyGet(s, run) then Crashed else Running
  {
    CrashedIff(s, run);
    CallbackNeverAborts(s, run);
  }

  lemma {:induction false} CallbackNeverAborts<T>(s: State<T>, run: seq<Event<T>>)
    requires s.outcome != Aborted && s.hasCallback && Feasible(s, run)
    ensures Exec(s, run).outcome != Aborted
    decreases |run|
  {
    if run != [] {
      CallbackNeverAborts(Step(s, run[0].thread, run[0].action), run[1..]);
    }
  }

  lemma NextStepCrashes<T>(s: State<T>, t: nat, run: seq<Event<T>>)
    requires Consistent(s) && s.outcome == Running && PcOf(s, t) == Pop(false) && Feasible(s, run)
    ensures Exec(s, run).outcome == Crashed <==> run != []
    ensures !SomeEmptyGet(s, run)
  {
    if run != [] {
      UnsafePopCrashes(s, t, run[0].thread, run[0].action);
      assert run[1..] == [];
    }
  }

  // ---------------------------------------------------------------- waiting

  /** Get waits with the mutex locked; its permit is there exactly if some element has no ticket holder yet. */
  lemma GetBlocksIff<T>(s: State<T>, t: nat)
    requires Consistent(s) && s.outcome == Running && PcOf(s, t).GetWait?
    ensures Enabled(s, t, Continue) <==> |s.queue| > |TicketHolders(s.pcs)|
  {
  }

  ghost predicate Stuck<T>(s: State<T>, t: nat) {
    Consistent(s) && PcOf(s, t).GetWait? && s.permits == 0
  }

  /** Once a Get waits for a permit that is not there, no thread takes a step ever again. */
  lemma StuckForever<T>(s: State<T>, t: nat, run: seq<Event<T>>)
    requires Stuck(s, t) && Feasible(s, run)
    ensures run == []
  {
  }

  /** A Get on an empty queue that nobody else uses does crash. */
  lemma CrashIsReachable() returns (run: seq<Event<int>>)
    ensures Feasible(Initial<int>(1, true), run) && Exec(Initial<int>(1, true), run).outcome == Crashed
  {
    var s0 := Initial<int>(1, true);
    var s1 := Step(s0, 0, StartGet);
    var s2 := Step(s1, 0, Continue);
    var s3 := Step(s2, 0, Continue);
    run := [Event(0, StartGet), Event(0, Continue), Event(0, Continue)];
    ExecCons(s2, run[2..], s3, []);
    ExecCons(s1, run[1..], s3, run[2..]);
    ExecCons(s0, run, s3, run[1..]);
  }

  /** A Put without a callback onto a full queue does abort. */
  lemma AbortIsReachable() returns (run: seq<Event<int>>)
    ensures Feasible(Initial<int>(0, false), run) && Exec(Initial<int>(0, false), run).outcome == Aborted
  {
    var s0 := Initial<int>(0, false);
    var s1 := Step(s0, 0, StartPut(7));
    var s2 := Step(s1, 0, Continue);
    var s3 := Step(s2, 0, Continue);
    run := [Event(0, StartPut(7)), Event(0, Continue), Event(0, Continue)];
    ExecCons(s2, run[2..], s3, []);
    ExecCons(s1, run[1..], s3, run[2..]);
    ExecCons(s0, run, s3, run[1..]);
  }

  /** An element has been put and thread 0 is done. */
  lemma PutOne() returns (run: seq<Event<int>>, s: State<int>)
    ensures Feasible(Initial<int>(1, true), run) && Exec(Initial<int>(1, true), run) == s
    ensures s.outcome == Running && s.queue == [7] && s.permits == 1 && s.holder == {} && s.pcs.Keys == {0}
  {
    var s0 := Initial<int>(1, true);
    run := [Event(0, StartPut(7)), Event(0, Continue), Event(0, Continue), Event(0, Continue), Event(0, Continue)];
    var s1 := Step(s0, 0, StartPut(7));
    var s2 := Step(s1, 0, Continue);
    var s3 := Step(s2, 0, Continue);
    var s4 := Step(s3, 0, Continue);
    s := Step(s4, 0, Continue);
    ExecCons(s4, run[4..], s, []);
    ExecCons(s3, run[3..], s, run[4..]);
    ExecCons(s2, run[2..], s, run[3..]);
    ExecCons(s1, run[1..], s, run[2..]);
    ExecCons(s0, run, s, run[1..]);
  }

  /** A GetBlocking takes the permit of the only element, then a Get locks the mutex and sees the element. */
  lemma TakeTicketThenGet(s: State<int>) returns (run: seq<Event<int>>, end: State<int>)
    requires s.outcome == Running && s.queue == [7] && s.permits == 1 && s.holder == {} && s.pcs.Keys == {0}
    ensures Feasible(s, run) && Exec(s, run) == end && end.outcome == Running && PcOf(end, 2).GetWait?
    ensures end.permits == 0
  {
    run := [Event(1, StartGetBlocking), Event(2, StartGet), Event(2, Continue)];
    var s1 := Step(s, 1, StartGetBlocking);
    var s2 := Step(s1, 2, StartGet);
    end := Step(s2, 2, Continue);
    ExecCons(s2, run[2..], end, []);
    ExecCons(s1, run[1..], end, run[2..]);
    ExecCons(s, run, end, run[1..]);
  }

  lemma {:induction false} ExecAppend<T>(s: State<T>, run: seq<Event<T>>, more: seq<Event<T>>)
    requires Feasible(s, run) && Feasible(Exec(s, run), more)
    ensures Feasible(s, run + more) && Exec(s, run + more) == Exec(Exec(s, run), more)
    decreases |run|
  {
    if run == [] {
      assert run + more == more;
    } else {
      ExecAppend(Step(s, run[0].thread, run[0].action), run[1..], more);
      assert (run + more)[1..] == run[1..] + more;
    }
  }

  /** That does happen: one element, a GetBlocking that has its permit, and a Get that locks the mutex first. */
  lemma StuckIsReachable()
    ensures exists run: seq<Event<int>> ::
              Feasible(Initial<int>(1, true), run) && Stuck(Exec(Initial<int>(1, true), run), 2)
  {
    var s0 := Initial<int>(1, true);
    var first, s := PutOne();
    var second, end := TakeTicketThenGet(s);
    ExecAppend(s0, first, second);
    InitialConsistent<int>(1, true);
    RunsStayConsistent(s0, first + second);
    assert Stuck(Exec(s0, first + second), 2);
  }

  lemma ExecCons<T>(s: State<T>, run: seq<Event<T>>, end: State<T>, rest: seq<Event<T>>)
    requires run != [] && run[1..] == rest && Enabled(s, run[0].thread, run[0].action)
    requires Feasible(Step(s, run[0].thread, run[0].action), rest)
    requires Exec(Step(s, run[0].thread, run[0].action), rest) == end
    ensures Feasible(s, run) && Exec(s, run) == end
  {
  }

  /** Nothing else blocks for good: as long as some thread is inside an operation, some thread can go on, unless a
      Get is stuck. */
  lemma SomeoneCanContinue<T>(s: State<T>, t: nat)
    requires Consistent(s) && s.outcome == Running && !PcOf(s, t).Idle?
    ensures exists u :: Enabled(s, u, Continue) || Stuck(s, u)
  {
    if s.holder != {} {
      var u :| u in s.holder;
      assert HoldsMutex(PcOf(s, u));
      assert Enabled(s, u, Continue) || Stuck(s, u);
    } else {
      assert t in s.pcs && !HoldsMutex(s.pcs[t]);
      assert Enabled(s, t, Continue);
    }
  }

  // ---------------------------------------------------------------- whole operations

  /** One more step at the end of a run. */
  lemma Go<T>(s: State<T>, run: seq<Event<T>>, mid: State<T>, t: nat, a: Action<T>)
    returns (more: seq<Event<T>>, end: State<T>)
    requires Feasible(s, run) && Exec(s, run) == mid && Enabled(mid, t, a)
    ensures more == run + [Event(t, a)] && end == Step(mid, t, a) && Feasible(s, more) && Exec(s, more) == end
  {
    end := Step(mid, t, a);
    ExecCons(mid, [Event(t, a)], end, []);
    ExecAppend(s, run, [Event(t, a)]);
    more := run + [Event(t, a)];
  }

  /** All events are by one thread. */
  predicate ByOne<T>(run: seq<Event<T>>, t: nat) {
    forall i :: 0 <= i < |run| ==> run[i].thread == t
  }

  /** A whole Put, the mutex being free: the element is behind all the others.  With room for it there is one more
      permit; with a callback the oldest element makes room; with neither the program aborts. */
  lemma PutCompletes<T>(s: State<T>, t: nat, thing: T) returns (run: seq<Event<T>>, end: State<T>)
    requires Consistent(s) && s.outcome == Running && s.holder == {} && PcOf(s, t).Idle?
    ensures run != [] && run[0] == Event(t, StartPut(thing)) && ByOne(run, t) && Feasible(s, run) && Exec(s, run) == end
    ensures end.put == s.put + [thing]
    ensures |s.queue| < s.capacity ==>
              && end.outcome == Running && end.holder == {} && PcOf(end, t).Idle?
              && end.queue == s.queue + [thing] && end.removed == s.removed && end.permits == s.permits + 1
    ensures |s.queue| == s.capacity && s.hasCallback ==>
              && end.outcome == Running && end.holder == {} && PcOf(end, t).Idle?
              && end.queue == (s.queue + [thing])[1..] && end.permits == s.permits
              && end.removed == s.removed + [(s.queue + [thing])[0]]
    ensures |s.queue| <= s.capacity
    ensures |s.queue| == s.capacity && !s.hasCallback ==> end.outcome == Aborted
  {
    run, end := Go(s, [], s, t, StartPut(thing));
    run, end := Go(s, run, end, t, Continue);
    run, end := Go(s, run, end, t, Continue);
    if |s.queue| < s.capacity || s.hasCallback {
      run, end := Go(s, run, end, t, Continue);
      run, end := Go(s, run, end, t, Continue);
    }
  }

  /** A whole GetBlocking, a permit being there and the mutex free: it takes the permit and the oldest element. */
  lemma GetBlockingCompletes<T>(s: State<T>, t: nat) returns (run: seq<Event<T>>, end: State<T>)
    requires Consistent(s) && s.outcome == Running && s.holder == {} && PcOf(s, t).Idle? && s.permits > 0
    ensures run != [] && run[0] == Event(t, StartGetBlocking) && ByOne(run, t) && Feasible(s, run)
    ensures Exec(s, run) == end
    ensures s.queue != [] && end.outcome == Running && end.holder == {} && PcOf(end, t).Idle?
    ensures end.queue == s.queue[1..] && end.removed == s.removed + [s.queue[0]] && end.permits == s.permits - 1
  {
    ConsistentMeans(s);
    run, end := Go(s, [], s, t, StartGetBlocking);
    run, end := Go(s, run, end, t, Continue);
    run, end := Go(s, run, end, t, Continue);
    run, end := Go(s, run, end, t, Continue);
  }

  /** Without a permit, GetBlocking waits. */
  lemma GetBlockingWaitsIff<T>(s: State<T>, t: nat)
    requires s.outcome == Running && PcOf(s, t).Idle?
    ensures Enabled(s, t, StartGetBlocking) <==> s.permits > 0
  {
  }

  /** A whole Get does what GetBlocking does, a permit being there. */
  lemma GetCompletes<T>(s: State<T>, t: nat) returns (run: seq<Event<T>>, end: State<T>)
    requires Consistent(s) && s.outcome == Running && s.holder == {} && PcOf(s, t).Idle? && s.permits > 0
    ensures run != [] && run[0] == Event(t, StartGet) && ByOne(run, t) && Feasible(s, run) && Exec(s, run) == end
    ensures s.queue != [] && end.outcome == Running && end.holder == {} && PcOf(end, t).Idle?
    ensures end.queue == s.queue[1..] && end.removed == s.removed + [s.queue[0]] && end.permits == s.permits - 1
  {
    ConsistentMeans(s);
    run, end := Go(s, [], s, t, StartGet);
    run, end := Go(s, run, end, t, Continue);
    run, end := Go(s, run, end, t, Continue);
    run, end := Go(s, run, end, t, Continue);
    run, end := Go(s, run, end, t, Continue);
  }
}
