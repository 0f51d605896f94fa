/** The crash handlers of coffeecatch.c: protected sections of any number of threads, over process-wide signal
    handlers that are installed with the first section and taken down with the last.  A step is one operation on the
    mutex, on the shared data, on one signal handler, on the thread key, or on the thread's own structure.  A signal may
    arrive between any two steps, and its handler takes steps of its own. */
module CoffeeCatch {

  const SIGABRT: nat := 6
  const SIG_NUMBER_MAX: nat := 32

  /** Was stands for whatever handler the signal had before. */
  datatype Handler = Was | Pass | Abort | Default

  /** The thread's native_code_handler_struct, if it has one. */
  datatype Slot = Absent | Slot(reenter: int, ctxIsSet: bool)

  datatype Pc =
    | User              // outside the library
    | SetupLock         // not inside, about to lock the mutex
    | SetupGlobal       // has the mutex, about to count itself in
    | Allocate          // first one in, about to allocate the table of old handlers
    | Install(i: nat)   // about to replace handler i
    | SetupUnlock       // all set up, about to unlock the mutex
    | SetupThread       // about to create its structure and save the restore point
    | Closing           // has taken reenter to 0, about to clear ctx_is_set
    | Detach            // about to remove its structure
    | CleanupLock       // about to lock the mutex
    | CleanupGlobal     // has the mutex, about to count itself out
    | Restore(i: nat)   // last one out, about to restore handler i
    | DeleteKey         // has freed the table, about to delete the thread key
    | CleanupUnlock     // counted out, about to unlock the mutex

  /** What a handler does next.  The pass-through handler starts with CallOld, the handler of SIGABRT with Reset. */
  datatype Stage =
    | CallOld    // call the old handler
    | Reset      // set the signal back to its default
    | Query      // look for the thread's restore point, and jump there
    | LateCall   // there is none: call the old handler and abort

  /** A handler of ours at work, and how often the table of old handlers had been freed when it was entered. */
  datatype Frame = Frame(sig: nat, stage: Stage, since: nat)

  /** depth counts the sections the thread is in, and base is the depth of the one that saved the restore point.  jumps
      counts the jumps since the last setup.  skipped counts the sections that were left by jumps and not closed, and
      stranded the jumps that left from between the two stores that close a section.  frames are the handlers at work,
      the innermost last. */
  datatype Thread = Thread(
    pc: Pc,
    depth: nat,
    base: nat,
    slot: Slot,
    jumps: nat,
    skipped: nat,
    stranded: nat,
    frames: seq<Frame>)

  datatype Saved = Freed | Saved(actions: map<nat, Handler>)
  datatype Lock = Free | HeldBy(thread: nat)

  /** Faulted: an assertion of the library fails, or a call on the thread key that it relies on.
      BadTable: the table of old handlers is read while there is none. */
  datatype Outcome = Running | Killed | Aborted | Faulted | BadTable

  /** delivered records the signals that were reset since their handler was last installed, closings how often the
      table has been freed, stray how often the thread key was queried while there was none, and strandings how many
      jumps have left from between the two stores that close a section. */
  datatype State = State(
    caught: seq<nat>,
    initialized: int,
    saOld: Saved,
    key: bool,
    handlers: map<nat, Handler>,
    lock: Lock,
    threads: map<nat, Thread>,
    delivered: set<nat>,
    closings: nat,
    stray: nat,
    strandings: nat,
    outcome: Outcome)

  datatype Action = Try | End | Signal(sig: nat) | Handle | Continue

  function Outside(): Thread {
    Thread(User, 0, 0, Absent, 0, 0, 0, [])
  }

  function Initial(caught: seq<nat>): State {
    State(caught, 0, Freed, false, map[], Free, map[], {}, 0, 0, 0, Running)
  }

  function ThreadOf(s: State, t: nat): Thread {
    if t in s.threads then s.threads[t] else Outside()
  }

  function HandlerOf(s: State, sig: nat): Handler {
    if sig in s.handlers then s.handlers[sig] else Was
  }

  /** coffeecatch_get.  A key that does not exist gives nothing. */
  function Get(s: State, t: nat): Slot {
    if s.key then ThreadOf(s, t).slot else Absent
  }

  /** The mark that a query of the thread key leaves. */
  function Queried(s: State): State {
    if s.key then s else s.(stray := s.stray + 1)
  }

  function Put(s: State, t: nat, th: Thread): State {
    s.(threads := s.threads[t := th])
  }

  function Move(s: State, t: nat, pc: Pc): State {
    Put(s, t, ThreadOf(s, t).(pc := pc))
  }

  function Fault(s: State): State {
    s.(outcome := Faulted)
  }

  // ---------------------------------------------------------------- steps

  /** What coffeecatch_inside returns. */
  predicate IsInside(s: State, t: nat) {
    Get(s, t).Slot? && Get(s, t).reenter > 0
  }

  /** A signal is blocked in a thread while its own handler is at work there. */
  predicate Blocked(th: Thread, sig: nat) {
    exists i :: 0 <= i < |th.frames| && th.frames[i].sig == sig
  }

  /** A handler at work runs before anything else in its thread. */
  predicate Enabled(s: State, t: nat, a: Action) {
    var th := ThreadOf(s, t);
    && s.outcome == Running
    && (match a
        case Signal(sig) => !Blocked(th, sig)
        case Handle => th.frames != []
        case _ => th.frames == [] && EnabledOutsideHandlers(s, th, a))
  }

  predicate EnabledOutsideHandlers(s: State, th: Thread, a: Action) {
    match th.pc
    case User => a.Try? || (a.End? && th.depth > 0)
    case SetupLock => a.Continue? && s.lock == Free
    case CleanupLock => a.Continue? && s.lock == Free
    case _ => a.Continue?
  }

  function Step(s: State, t: nat, a: Action): State
    requires Enabled(s, t, a)
  {
    match a
    case Try => StepTry(s, t)
    case End => StepEnd(s, t)
    case Signal(sig) => StepSignal(s, t, sig)
    case Handle => StepHandle(s, t)
    case Continue => StepContinue(s, t)
  }

  /** COFFEE_TRY: a nested section only counts; otherwise the thread starts its setup. */
  function StepTry(s: State, t: nat): State {
    var th, slot := ThreadOf(s, t), Get(s, t);
    if IsInside(s, t) then
      Put(Queried(s), t, th.(slot := slot.(reenter := slot.reenter + 1), depth := th.depth + 1))
    else Put(Queried(s), t, th.(pc := SetupLock))
  }

  /** COFFEE_END, which is coffeecatch_cleanup up to its first store. */
  function StepEnd(s: State, t: nat): State
    requires ThreadOf(s, t).depth > 0
  {
    var th, slot := ThreadOf(s, t), Get(s, t);
    if slot.Absent? || slot.reenter <= 0 then Fault(Queried(s))
    else
      var closed := th.(slot := slot.(reenter := slot.reenter - 1), depth := th.depth - 1);
      Put(Queried(s), t, if slot.reenter == 1 then closed.(pc := Closing) else closed)
  }

  /** The handler that a signal enters, and where it starts. */
  function Ours(sig: nat): Handler {
    if sig == SIGABRT then Abort else Pass
  }

  function Entered(s: State, sig: nat): Frame {
    Frame(sig, if sig == SIGABRT then Reset else CallOld, s.closings)
  }

  /** A signal arrives: one of our handlers is entered, or the default action kills the process. */
  function StepSignal(s: State, t: nat, sig: nat): State {
    var th := ThreadOf(s, t);
    match HandlerOf(s, sig)
    case Was => s
    case Default => s.(outcome := Killed)
    case _ => Put(s, t, th.(frames := th.frames + [Entered(s, sig)]))
  }

  /** The handler that a thread is in. */
  function Top(th: Thread): Frame
    requires th.frames != []
  {
    th.frames[|th.frames| - 1]
  }

  function SetStage(th: Thread, stage: Stage): Thread
    requires th.frames != []
  {
    th.(frames := th.frames[|th.frames| - 1 := Top(th).(stage := stage)])
  }

  function StepHandle(s: State, t: nat): State
    requires ThreadOf(s, t).frames != []
  {
    var th := ThreadOf(s, t);
    match Top(th).stage
    case CallOld => if TableMissing(s, th) then s.(outcome := BadTable) else Put(s, t, SetStage(th, Reset))
    case Reset => StepReset(s, t)
    case Query => StepQuery(s, t)
    case LateCall => s.(outcome := if TableMissing(s, th) then BadTable else Aborted)
  }

  /** Reading the table of old handlers, whose entries are zero where nothing was saved. */
  predicate TableMissing(s: State, th: Thread)
    requires th.frames != []
  {
    Top(th).sig < SIG_NUMBER_MAX && s.saOld.Freed?
  }

  function StepReset(s: State, t: nat): State
    requires ThreadOf(s, t).frames != []
  {
    var th := ThreadOf(s, t);
    var sig := Top(th).sig;
    Put(s.(handlers := s.handlers[sig := Default], delivered := s.delivered + {sig}), t, SetStage(th, Query))
  }

  /** coffeecatch_try_jump_userland. */
  function StepQuery(s: State, t: nat): State
    requires ThreadOf(s, t).frames != []
  {
    var th := ThreadOf(s, t);
    if Get(s, t).Slot? && Get(s, t).ctxIsSet then
      Put(Queried(s).(strandings := s.strandings + One(th.pc.Closing?)), t, Landed(th, Get(s, t)))
    else if Top(th).sig == SIGABRT then Put(Queried(s), t, SetStage(th, LateCall))
    else Queried(s).(outcome := Aborted)
  }

  /** siglongjmp: on to the catch block of the section that saved the restore point.  From between the two stores that
      close this section, it is entered once more. */
  function Landed(th: Thread, slot: Slot): Thread
    requires slot.Slot?
  {
    th.(pc := User, depth := th.base, slot := slot.(ctxIsSet := false), jumps := th.jumps + 1, frames := [],
        skipped := if th.depth > th.base then th.skipped + (th.depth - th.base) else th.skipped,
        stranded := if th.pc.Closing? then th.stranded + 1 else th.stranded)
  }

  function StepContinue(s: State, t: nat): State {
    match ThreadOf(s, t).pc
    case User => s
    case SetupLock => Move(s.(lock := HeldBy(t)), t, SetupGlobal)
    case SetupGlobal => StepCountIn(s, t)
    case Allocate => Move(s.(saOld := Saved(map[])), t, Install(0))
    case Install(i) => StepInstall(s, t, i)
    case SetupUnlock => Move(s.(lock := Free), t, SetupThread)
    case SetupThread => StepSetupThread(s, t)
    case _ => StepCleanup(s, t)
  }

  /** The rest of coffeecatch_cleanup, and coffeecatch_handler_cleanup. */
  function StepCleanup(s: State, t: nat): State {
    var th := ThreadOf(s, t);
    match th.pc
    case Closing =>
      if th.slot.Absent? then Fault(s) else Put(s, t, th.(pc := Detach, slot := th.slot.(ctxIsSet := false)))
    case Detach => if !s.key then Fault(Queried(s)) else Put(s, t, th.(pc := CleanupLock, slot := Absent))
    case CleanupLock => Move(s.(lock := HeldBy(t)), t, CleanupGlobal)
    case CleanupGlobal => StepCountOut(s, t)
    case Restore(i) => StepRestore(s, t, i)
    case DeleteKey => Move(s.(key := false), t, CleanupUnlock)
    case CleanupUnlock => Move(s.(lock := Free), t, User)
    case _ => s
  }

  function StepCountIn(s: State, t: nat): State {
    Move(s.(initialized := s.initialized + 1), t, if s.initialized == 0 then Allocate else SetupUnlock)
  }

  /** The last one out goes on to restore the old handlers. */
  function StepCountOut(s: State, t: nat): State {
    if s.initialized == 0 then Fault(s)
    else Move(s.(initialized := s.initialized - 1), t, if s.initialized == 1 then Restore(0) else CleanupUnlock)
  }

  /** Replace one handler and save the old one; after the last, create the thread key. */
  function StepInstall(s: State, t: nat, i: nat): State {
    if i >= |s.caught| then Move(s.(key := true), t, SetupUnlock)
    else
      var sig := s.caught[i];
      if sig >= SIG_NUMBER_MAX then Fault(s)
      else if s.saOld.Freed? then s.(outcome := BadTable)
      else
        var actions := s.saOld.actions[sig := HandlerOf(s, sig)];
        var s1 := s.(saOld := Saved(actions), handlers := s.handlers[sig := Ours(sig)],
            delivered := s.delivered - {sig});
        Move(s1, t, Install(i + 1))
  }

  /** Create the thread's structure if there is none, mark its restore point as set, and enter the section. */
  function StepSetupThread(s: State, t: nat): State {
    var th := ThreadOf(s, t);
    var slot := if Get(s, t).Absent? then Slot(0, false) else Get(s, t);
    if !s.key || slot.reenter != 0 then Fault(Queried(s))
    else Put(s, t, th.(pc := User, slot := Slot(1, true), depth := th.depth + 1, base := th.depth + 1, jumps := 0))
  }

  /** Restore one handler; after the last, free the table. */
  function StepRestore(s: State, t: nat, i: nat): State {
    if i >= |s.caught| then Move(s.(saOld := Freed, closings := s.closings + 1), t, DeleteKey)
    else
      var sig := s.caught[i];
      if sig >= SIG_NUMBER_MAX then Fault(s)
      else if s.saOld.Freed? || sig !in s.saOld.actions then s.(outcome := BadTable)
      else Move(s.(handlers := s.handlers[sig := s.saOld.actions[sig]]), t, Restore(i + 1))
  }

  // ---------------------------------------------------------------- the invariant

  predicate HoldsMutex(pc: Pc) {
    match pc
    case User => false
    case SetupLock => false
    case SetupThread => false
    case Closing => false
    case Detach => false
    case CleanupLock => false
    case _ => true
  }

  /** The sections that the thread's structure counts. */
  function Reenter(th: Thread): int {
    if th.slot.Slot? then th.slot.reenter else 0
  }

  predicate HasContext(th: Thread) {
    th.slot.Slot? && th.slot.ctxIsSet
  }

  /** In a section that its structure knows of. */
  predicate InSection(th: Thread) {
    th.pc.User? && Reenter(th) > 0
  }

  /** Past the global setup and not past the global cleanup. */
  predicate CountedIn(th: Thread) {
    match th.pc
    case User => Reenter(th) > 0
    case SetupLock => false
    case SetupGlobal => false
    case Restore(_) => false
    case DeleteKey => false
    case CleanupUnlock => false
    case _ => true
  }

  /** What the thread holds of the count: a jump from between the two stores keeps what it held. */
  function Held(th: Thread): nat {
    One(CountedIn(th)) + th.stranded
  }

  function One(b: bool): nat {
    if b then 1 else 0
  }

  function Members(threads: map<nat, Thread>): set<nat> {
    set t | t in threads && CountedIn(threads[t])
  }

  predicate InSetup(pc: Pc) {
    pc.SetupLock? || pc.SetupGlobal? || pc.Allocate? || pc.Install? || pc.SetupUnlock? || pc.SetupThread?
  }

  /** What holds of each thread by itself.  The structure counts the open sections and those that jumps have skipped,
      but not those that are open for a second time. */
  predicate LocalOk(th: Thread) {
    && th.jumps <= 1
    && Reenter(th) == th.depth + th.skipped - th.stranded
    && (HasContext(th) ==> th.jumps == 0 && 1 <= th.base && Reenter(th) - th.depth == 1 - th.base)
    && (if th.pc.User? then
          && 0 <= Reenter(th)
          && (Reenter(th) > 0 ==> (HasContext(th) <==> th.jumps == 0))
          && (Reenter(th) == 0 ==> !HasContext(th) && (th.slot.Slot? ==> th.depth > 0))
        else if InSetup(th.pc) then
          Reenter(th) == 0 && !HasContext(th) && (th.slot.Slot? ==> th.depth > 0)
        else if th.pc.Closing? then th.slot.Slot? && th.slot.reenter == 0
        else if th.pc.Detach? then th.slot == Slot(0, false)
        else th.slot == Absent)
  }

  /** Whether the shared data is being set up or taken down, and how far. */
  function Phase(s: State): Pc {
    if s.lock.Free? then User
    else
      var pc := ThreadOf(s, s.lock.thread).pc;
      if pc.Allocate? || pc.Install? || pc.Restore? || pc.DeleteKey? then pc else User
  }

  /** Our handler stands in for signal i. */
  predicate Covers(s: State, i: nat) {
    match Phase(s)
    case Allocate => false
    case Install(k) => i < k
    case Restore(k) => k <= i
    case DeleteKey => false
    case _ => s.initialized > 0
  }

  predicate IsOurs(h: Handler) {
    h.Pass? || h.Abort?
  }

  predicate SignalOk(s: State, i: nat)
    requires i < |s.caught|
  {
    var sig := s.caught[i];
    if Covers(s, i) then
      && s.saOld.Saved? && sig in s.saOld.actions && !IsOurs(s.saOld.actions[sig])
      && HandlerOf(s, sig) == if sig in s.delivered then Default else Ours(sig)
    else !IsOurs(HandlerOf(s, sig))
  }

  ghost predicate SignalsOk(s: State) {
    && (forall i :: 0 <= i < |s.caught| ==> SignalOk(s, i))
    && (forall sig :: sig !in s.caught ==> HandlerOf(s, sig) == Was)
  }

  /** The original handler of signal i is saved where ours stands in for it, and in place where not. */
  predicate OriginalOk(s: State, i: nat)
    requires i < |s.caught|
  {
    var sig := s.caught[i];
    if Covers(s, i) then s.saOld.Saved? && sig in s.saOld.actions && s.saOld.actions[sig] == Was
    else HandlerOf(s, sig) == Was
  }

  /** The thread has a handler that has reset its signal and will not find a restore point: it is bound to abort. */
  predicate BoundToAbort(th: Thread) {
    !HasContext(th) && exists i :: 0 <= i < |th.frames| && (th.frames[i].stage.Query? || th.frames[i].stage.LateCall?)
  }

  ghost predicate Doomed(s: State) {
    exists t :: t in s.threads && BoundToAbort(s.threads[t])
  }

  ghost predicate OriginalsOk(s: State) {
    Doomed(s) || forall i :: 0 <= i < |s.caught| ==> OriginalOk(s, i)
  }

  ghost predicate Exclusive(s: State) {
    && (forall t :: t in s.threads ==> (HoldsMutex(s.threads[t].pc) <==> s.lock == HeldBy(t)))
    && (s.lock.HeldBy? ==> s.lock.thread in s.threads)
  }

  /** There is no table of old handlers: before it is allocated or after it was freed. */
  predicate NoTable(s: State) {
    (s.initialized == 0 && !Phase(s).Restore?) || Phase(s).Allocate?
  }

  /** There is no thread key: before it is created or after it was deleted. */
  predicate NoKey(s: State) {
    || (s.initialized == 0 && !Phase(s).Restore? && !Phase(s).DeleteKey?)
    || Phase(s).Allocate? || Phase(s).Install?
  }

  predicate GlobalOk(s: State) {
    && s.initialized >= 0
    && (s.saOld.Freed? <==> NoTable(s))
    && (!s.key <==> NoKey(s))
    && (Phase(s).Allocate? || Phase(s).Install? ==> s.initialized == 1)
    && (Phase(s).Restore? || Phase(s).DeleteKey? ==> s.initialized == 0)
  }

  ghost predicate ThreadsOk(s: State) {
    forall t :: t in s.threads ==> LocalOk(s.threads[t])
  }

  ghost predicate CountOk(s: State) {
    && s.initialized == |Members(s.threads)| + s.strandings
    && forall t :: t in s.threads ==> s.threads[t].stranded <= s.strandings
  }

  predicate IsSignalList(caught: seq<nat>) {
    && (forall i, j :: 0 <= i < j < |caught| ==> caught[i] != caught[j])
    && (forall i :: 0 <= i < |caught| ==> caught[i] < SIG_NUMBER_MAX)
  }

  /** A handler at work is for a caught signal; unless the table has been freed since it was entered, the table is
      there. */
  predicate FrameOk(s: State, f: Frame) {
    && f.sig in s.caught && f.since <= s.closings && (f.since == s.closings ==> s.saOld.Saved?)
    && (f.stage.LateCall? ==> f.sig == SIGABRT)
  }

  predicate ThreadFramesOk(s: State, th: Thread) {
    && (th.pc.Allocate? ==> th.frames == [])
    && forall i :: 0 <= i < |th.frames| ==> FrameOk(s, th.frames[i])
  }

  ghost predicate FramesOk(s: State) {
    forall t :: t in s.threads ==> ThreadFramesOk(s, s.threads[t])
  }

  /** What does not concern the signals. */
  ghost predicate Counted(s: State) {
    Exclusive(s) && ThreadsOk(s) && CountOk(s) && GlobalOk(s)
  }

  ghost predicate Consistent(s: State) {
    IsSignalList(s.caught) && Counted(s) && SignalsOk(s) && OriginalsOk(s) && FramesOk(s)
  }

  lemma InitialConsistent(caught: seq<nat>)
    requires IsSignalList(caught)
    ensures Consistent(Initial(caught))
  {
  }

  /** The list of the library. */
  lemma NativeSignalsAreAList()
    ensures IsSignalList([6, 4, 5, 7, 8, 11, 16])
  {
  }

  // ---------------------------------------------------------------- counting

  lemma MoveMember(threads: map<nat, Thread>, t: nat, th: Thread)
    ensures |Members(threads[t := th])|
              == |Members(threads)| + One(CountedIn(th)) - One(t in threads && CountedIn(threads[t]))
  {
    var rest := Members(threads) - {t};
    assert Members(threads) == if t in threads && CountedIn(threads[t]) then rest + {t} else rest;
    assert Members(threads[t := th]) == if CountedIn(th) then rest + {t} else rest;
  }

  lemma SubsetCount<T>(all: set<T>, some: set<T>)
    requires some <= all
    ensures |some| <= |all|
  {
    assert all == some + (all - some);
  }

  /** A thread that holds a part of the count keeps the count positive; with another one, or another part, above one. */
  lemma HeldCounts(s: State, t: nat)
    requires CountOk(s) && Held(ThreadOf(s, t)) > 0
    ensures s.initialized > 0
    ensures forall u :: u in s.threads && u != t && CountedIn(s.threads[u]) ==> s.initialized > 1
    ensures CountedIn(ThreadOf(s, t)) && ThreadOf(s, t).stranded > 0 ==> s.initialized > 1
  {
    var members := Members(s.threads);
    assert CountedIn(s.threads[t]) ==> t in members;
    forall u | u in s.threads && u != t && CountedIn(s.threads[u]) ensures s.initialized > 1 {
      assert u in members;
      if CountedIn(s.threads[t]) {
        SubsetCount(members, {t, u});
      }
    }
  }

  /** While a thread holds a part of the count and is not itself setting up, all of the shared data is in place. */
  lemma InPlaceForHolders(s: State, t: nat)
    requires Counted(s) && Held(ThreadOf(s, t)) > 0
    requires !ThreadOf(s, t).pc.Allocate? && !ThreadOf(s, t).pc.Install?
    ensures s.key && s.saOld.Saved? && s.initialized > 0 && Phase(s) == User
  {
    HeldCounts(s, t);
  }

  // ---------------------------------------------------------------- what a step does to its thread

  /** What the thread of a step knows. */
  ghost predicate Known(s: State, t: nat) {
    && LocalOk(ThreadOf(s, t))
    && (HoldsMutex(ThreadOf(s, t).pc) <==> s.lock == HeldBy(t))
    && (ThreadOf(s, t).slot.Slot? ==> s.key)
  }

  lemma SlotIsHeld(th: Thread)
    requires LocalOk(th) && th.slot.Slot?
    ensures Held(th) > 0 && (InSetup(th.pc) ==> th.stranded > 0)
  {
  }

  /** A thread that sets up the shared data has no structure: one that it kept would be counted. */
  lemma NoSlotInSetup(s: State, t: nat)
    requires Counted(s) && (ThreadOf(s, t).pc.Allocate? || ThreadOf(s, t).pc.Install?)
    ensures ThreadOf(s, t).slot.Absent? && ThreadOf(s, t).stranded == 0
  {
    var th := ThreadOf(s, t);
    assert LocalOk(s.threads[t]) && Phase(s) == th.pc;
    HeldCounts(s, t);
    if th.slot.Slot? {
      SlotIsHeld(th);
    }
  }

  lemma LocalOf(s: State, t: nat)
    requires ThreadsOk(s)
    ensures LocalOk(ThreadOf(s, t))
  {
  }

  lemma MutexOf(s: State, t: nat)
    requires Exclusive(s)
    ensures HoldsMutex(ThreadOf(s, t).pc) <==> s.lock == HeldBy(t)
  {
  }

  lemma KeyOf(s: State, t: nat)
    requires Counted(s) && LocalOk(ThreadOf(s, t)) && ThreadOf(s, t).slot.Slot?
    ensures s.key
  {
    SlotIsHeld(ThreadOf(s, t));
    if ThreadOf(s, t).pc.Allocate? || ThreadOf(s, t).pc.Install? {
      NoSlotInSetup(s, t);
    } else {
      InPlaceForHolders(s, t);
    }
  }

  lemma KnownOf(s: State, t: nat)
    requires Counted(s)
    ensures Known(s, t)
  {
    LocalOf(s, t);
    MutexOf(s, t);
    if ThreadOf(s, t).slot.Slot? {
      KeyOf(s, t);
    }
  }

  /** What a step does to the thread that takes it: nothing to the others, and the mutex and the count go with it. */
  predicate StepsAlone(s: State, t: nat, s': State) {
    var th, th' := ThreadOf(s, t), ThreadOf(s', t);
    && s'.caught == s.caught
    && (s'.threads == s.threads || s'.threads == s.threads[t := th'])
    && LocalOk(th')
    && (HoldsMutex(th'.pc) <==> s'.lock == HeldBy(t))
    && (s'.lock == s.lock || (s.lock in {Free, HeldBy(t)} && s'.lock in {Free, HeldBy(t)}))
    && s'.initialized == s.initialized + Held(th') - Held(th)
    && s'.strandings == s.strandings + th'.stranded - th.stranded >= s.strandings
  }

  /** A step that changes only the thread, and neither what it holds of the mutex nor of the count. */
  lemma LocalStepsAlone(s: State, t: nat, th: Thread, s': State)
    requires Known(s, t) && s'.caught == s.caught && s'.lock == s.lock
    requires s'.initialized == s.initialized && s'.strandings == s.strandings
    requires s'.threads == s.threads[t := th] && LocalOk(th) && th.stranded == ThreadOf(s, t).stranded
    requires !HoldsMutex(th.pc) && !HoldsMutex(ThreadOf(s, t).pc) && CountedIn(th) == CountedIn(ThreadOf(s, t))
    ensures StepsAlone(s, t, s')
  {
  }

  lemma EnterKeepsLocal(th: Thread)
    requires LocalOk(th) && InSection(th)
    ensures var th' := th.(slot := th.slot.(reenter := th.slot.reenter + 1), depth := th.depth + 1);
            LocalOk(th') && InSection(th')
  {
  }

  lemma SetupKeepsLocal(th: Thread)
    requires LocalOk(th) && th.pc.User? && !InSection(th)
    ensures LocalOk(th.(pc := SetupLock)) && Held(th.(pc := SetupLock)) == Held(th)
  {
  }

  lemma TryStepsAlone(s: State, t: nat)
    requires Known(s, t) && Enabled(s, t, Try)
    ensures StepsAlone(s, t, StepTry(s, t))
  {
    var th := ThreadOf(s, t);
    if IsInside(s, t) {
      EnterKeepsLocal(th);
      var slot := th.slot.(reenter := th.slot.reenter + 1);
      LocalStepsAlone(s, t, th.(slot := slot, depth := th.depth + 1), StepTry(s, t));
    } else {
      SetupKeepsLocal(th);
      LocalStepsAlone(s, t, th.(pc := SetupLock), StepTry(s, t));
    }
  }

  lemma EndStepsAlone(s: State, t: nat)
    requires Known(s, t) && Enabled(s, t, End) && StepEnd(s, t).outcome == Running
    ensures StepsAlone(s, t, StepEnd(s, t))
  {
  }

  lemma SignalStepsAlone(s: State, t: nat, sig: nat)
    requires Known(s, t)
    ensures StepsAlone(s, t, StepSignal(s, t, sig))
  {
  }

  lemma HandleStepsAlone(s: State, t: nat)
    requires Known(s, t) && ThreadOf(s, t).frames != []
    ensures StepsAlone(s, t, StepHandle(s, t))
  {
    match Top(ThreadOf(s, t)).stage
    case CallOld => StageStepsAlone(s, t, Reset, StepHandle(s, t));
    case Reset => StageStepsAlone(s, t, Query, StepHandle(s, t));
    case Query => QueryStepsAlone(s, t);
    case LateCall =>
  }

  /** A handler goes on to its next stage, or nothing changes but the outcome. */
  lemma StageStepsAlone(s: State, t: nat, stage: Stage, s': State)
    requires Known(s, t) && ThreadOf(s, t).frames != []
    requires s'.caught == s.caught && s'.lock == s.lock
    requires s'.initialized == s.initialized && s'.strandings == s.strandings
    requires s'.threads == s.threads || s'.threads == s.threads[t := SetStage(ThreadOf(s, t), stage)]
    ensures StepsAlone(s, t, s')
  {
  }

  lemma QueryStepsAlone(s: State, t: nat)
    requires Known(s, t) && ThreadOf(s, t).frames != []
    ensures StepsAlone(s, t, StepQuery(s, t))
  {
    var th := ThreadOf(s, t);
    if HasContext(th) {
      LandedIsOk(th);
    } else if Top(th).sig == SIGABRT {
      StageStepsAlone(s, t, LateCall, StepQuery(s, t));
    }
  }

  /** A jump keeps the books: the sections it skips, or the one it opens again, are accounted for. */
  lemma LandedIsOk(th: Thread)
    requires LocalOk(th) && HasContext(th)
    ensures var th' := Landed(th, th.slot);
            LocalOk(th') && Held(th') == Held(th) && !HoldsMutex(th.pc) && !HoldsMutex(th'.pc)
  {
  }

  lemma SetupStepsAlone(s: State, t: nat)
    requires Known(s, t) && StepContinue(s, t).outcome == Running && InSetup(ThreadOf(s, t).pc)
    requires ThreadOf(s, t).pc.SetupLock? ==> s.lock == Free
    ensures StepsAlone(s, t, StepContinue(s, t))
  {
    var pc := ThreadOf(s, t).pc;
    if pc.Install? {
      InstallStepsAlone(s, t, pc.i);
    } else if pc.SetupGlobal? {
      CountInStepsAlone(s, t);
    }
  }

  lemma CountInStepsAlone(s: State, t: nat)
    requires Known(s, t) && ThreadOf(s, t).pc == SetupGlobal
    ensures StepsAlone(s, t, StepCountIn(s, t))
  {
  }

  lemma InstallStepsAlone(s: State, t: nat, i: nat)
    requires Known(s, t) && ThreadOf(s, t).pc == Install(i) && StepInstall(s, t, i).outcome == Running
    ensures StepsAlone(s, t, StepInstall(s, t, i))
  {
  }

  lemma CleanupStepsAlone(s: State, t: nat)
    requires Known(s, t) && Enabled(s, t, Continue) && StepContinue(s, t).outcome == Running
    requires !InSetup(ThreadOf(s, t).pc)
    ensures StepsAlone(s, t, StepContinue(s, t))
  {
    var pc := ThreadOf(s, t).pc;
    if pc.Restore? {
      RestoreStepsAlone(s, t, pc.i);
    } else if pc.CleanupGlobal? {
      CountOutStepsAlone(s, t);
    } else if pc.Closing? {
      ClosingStepsAlone(s, t);
    }
  }

  lemma ClosingStepsAlone(s: State, t: nat)
    requires Known(s, t) && ThreadOf(s, t).pc == Closing
    ensures StepsAlone(s, t, StepCleanup(s, t))
  {
    var th := ThreadOf(s, t);
    LocalStepsAlone(s, t, th.(pc := Detach, slot := Slot(0, false)), StepCleanup(s, t));
  }

  lemma RestoreStepsAlone(s: State, t: nat, i: nat)
    requires Known(s, t) && ThreadOf(s, t).pc == Restore(i) && StepRestore(s, t, i).outcome == Running
    ensures StepsAlone(s, t, StepRestore(s, t, i))
  {
  }

  lemma CountOutStepsAlone(s: State, t: nat)
    requires Known(s, t) && ThreadOf(s, t).pc == CleanupGlobal && StepCountOut(s, t).outcome == Running
    ensures StepsAlone(s, t, StepCountOut(s, t))
  {
  }

  lemma StepIsAlone(s: State, t: nat, a: Action)
    requires Known(s, t) && Enabled(s, t, a) && Step(s, t, a).outcome == Running
    ensures StepsAlone(s, t, Step(s, t, a))
  {
    match a
    case Try => TryStepsAlone(s, t);
    case End => EndStepsAlone(s, t);
    case Signal(sig) => SignalStepsAlone(s, t, sig);
    case Handle => HandleStepsAlone(s, t);
    case Continue =>
      if InSetup(ThreadOf(s, t).pc) {
        SetupStepsAlone(s, t);
      } else {
        CleanupStepsAlone(s, t);
      }
  }

  lemma AloneKeepsExclusive(s: State, t: nat, s': State)
    requires Exclusive(s) && Known(s, t) && StepsAlone(s, t, s')
    ensures Exclusive(s')
  {
  }

  lemma AloneKeepsThreads(s: State, t: nat, s': State)
    requires ThreadsOk(s) && StepsAlone(s, t, s')
    ensures ThreadsOk(s')
  {
  }

  lemma AloneKeepsStranded(s: State, t: nat, s': State)
    requires CountOk(s) && StepsAlone(s, t, s')
    ensures forall u :: u in s'.threads ==> s'.threads[u].stranded <= s'.strandings
  {
    forall u | u in s'.threads ensures s'.threads[u].stranded <= s'.strandings {
      assert u != t ==> s'.threads[u] == s.threads[u];
      assert t in s.threads ==> s.threads[t].stranded <= s.strandings;
    }
  }

  lemma AloneKeepsCount(s: State, t: nat, s': State)
    requires CountOk(s) && StepsAlone(s, t, s')
    ensures CountOk(s')
  {
    AloneKeepsStranded(s, t, s');
    if s'.threads != s.threads {
      MoveMember(s.threads, t, ThreadOf(s', t));
    }
  }

  // ---------------------------------------------------------------- what a step does to the shared data

  ghost predicate AllOriginal(s: State) {
    forall i :: 0 <= i < |s.caught| ==> OriginalOk(s, i)
  }

  /** The step keeps the shared data in order. */
  ghost predicate KeepsShared(s: State, s': State) {
    GlobalOk(s') && SignalsOk(s') && (AllOriginal(s) ==> AllOriginal(s'))
  }

  /** Every signal is as before, or in order again. */
  lemma SignalsKept(s: State, s': State)
    requires SignalsOk(s) && s'.caught == s.caught && GlobalOk(s')
    requires forall i :: 0 <= i < |s.caught| ==> SignalOk(s', i) && (OriginalOk(s, i) ==> OriginalOk(s', i))
    requires forall sig :: sig !in s.caught ==> HandlerOf(s', sig) == HandlerOf(s, sig)
    ensures KeepsShared(s, s')
  {
    if AllOriginal(s) {
      forall i | 0 <= i < |s.caught| ensures OriginalOk(s', i) {
        assert OriginalOk(s, i);
      }
    }
  }

  /** A step outside of the mutex, or one that only takes or gives up the mutex, keeps the shared data as it is. */
  lemma SameShared(s: State, s': State)
    requires GlobalOk(s) && SignalsOk(s) && Phase(s') == Phase(s)
    requires s'.(threads := s.threads, lock := s.lock, stray := s.stray, strandings := s.strandings) == s
    ensures KeepsShared(s, s')
  {
    forall i | 0 <= i < |s.caught| ensures SignalOk(s', i) && (OriginalOk(s, i) ==> OriginalOk(s', i)) {
      assert SignalOk(s, i);
    }
    SignalsKept(s, s');
  }

  /** Nothing changes for the signals when the count changes without leaving zero or reaching it. */
  lemma CountInKeepsShared(s: State, t: nat)
    requires GlobalOk(s) && SignalsOk(s) && s.lock == HeldBy(t) && ThreadOf(s, t).pc == SetupGlobal
    ensures KeepsShared(s, StepCountIn(s, t))
  {
    var s' := StepCountIn(s, t);
    assert Phase(s) == User && Phase(s') == if s.initialized == 0 then Allocate else User;
    forall i | 0 <= i < |s.caught| ensures SignalOk(s', i) && (OriginalOk(s, i) ==> OriginalOk(s', i)) {
      assert SignalOk(s, i);
    }
    SignalsKept(s, s');
  }

  lemma AllocateKeepsShared(s: State, t: nat)
    requires GlobalOk(s) && SignalsOk(s) && s.lock == HeldBy(t) && ThreadOf(s, t).pc == Allocate
    ensures KeepsShared(s, StepContinue(s, t))
  {
    var s' := StepContinue(s, t);
    assert Phase(s) == Allocate && Phase(s') == Install(0);
    forall i | 0 <= i < |s.caught| ensures SignalOk(s', i) && (OriginalOk(s, i) ==> OriginalOk(s', i)) {
      assert SignalOk(s, i);
    }
    SignalsKept(s, s');
  }

  lemma InstallKeepsShared(s: State, t: nat, k: nat)
    requires IsSignalList(s.caught) && GlobalOk(s) && SignalsOk(s)
    requires s.lock == HeldBy(t) && ThreadOf(s, t).pc == Install(k)
    ensures KeepsShared(s, StepInstall(s, t, k))
  {
    var s' := StepInstall(s, t, k);
    assert Phase(s) == Install(k) && Phase(s') == if k < |s.caught| then Install(k + 1) else User;
    assert k < |s.caught| ==> SignalOk(s, k);
    forall i | 0 <= i < |s.caught| ensures SignalOk(s', i) && (OriginalOk(s, i) ==> OriginalOk(s', i)) {
      assert SignalOk(s, i);
    }
    SignalsKept(s, s');
  }

  lemma CountOutKeepsShared(s: State, t: nat)
    requires GlobalOk(s) && SignalsOk(s) && s.lock == HeldBy(t) && ThreadOf(s, t).pc == CleanupGlobal
    requires s.initialized > 0
    ensures KeepsShared(s, StepCountOut(s, t))
  {
    var s' := StepCountOut(s, t);
    assert Phase(s) == User && Phase(s') == if s.initialized == 1 then Restore(0) else User;
    forall i | 0 <= i < |s.caught| ensures SignalOk(s', i) && (OriginalOk(s, i) ==> OriginalOk(s', i)) {
      assert SignalOk(s, i);
    }
    SignalsKept(s, s');
  }

  lemma RestoreKeepsShared(s: State, t: nat, k: nat)
    requires IsSignalList(s.caught) && GlobalOk(s) && SignalsOk(s)
    requires s.lock == HeldBy(t) && ThreadOf(s, t).pc == Restore(k)
    ensures KeepsShared(s, StepRestore(s, t, k))
  {
    var s' := StepRestore(s, t, k);
    assert k < |s.caught| ==> SignalOk(s, k);
    assert Phase(s) == Restore(k) && Phase(s') == if k < |s.caught| then Restore(k + 1) else DeleteKey;
    forall i | 0 <= i < |s.caught| ensures SignalOk(s', i) && (OriginalOk(s, i) ==> OriginalOk(s', i)) {
      assert SignalOk(s, i);
    }
    SignalsKept(s, s');
  }

  lemma DeleteKeyKeepsShared(s: State, t: nat)
    requires GlobalOk(s) && SignalsOk(s) && s.lock == HeldBy(t) && ThreadOf(s, t).pc == DeleteKey
    ensures KeepsShared(s, StepContinue(s, t))
  {
    var s' := StepContinue(s, t);
    assert Phase(s) == DeleteKey && Phase(s') == User;
    forall i | 0 <= i < |s.caught| ensures SignalOk(s', i) && (OriginalOk(s, i) ==> OriginalOk(s', i)) {
      assert SignalOk(s, i);
    }
    SignalsKept(s, s');
  }

  /** A reset takes a signal from us; where ours is not in place, it overwrites whatever is. */
  lemma ResetKeepsShared(s: State, t: nat)
    requires GlobalOk(s) && SignalsOk(s) && ThreadOf(s, t).frames != [] && Top(ThreadOf(s, t)).sig in s.caught
    ensures GlobalOk(StepReset(s, t)) && SignalsOk(StepReset(s, t))
    ensures (forall i :: 0 <= i < |s.caught| ==> Covers(s, i)) && AllOriginal(s) ==> AllOriginal(StepReset(s, t))
  {
    var s' := StepReset(s, t);
    assert Phase(s') == Phase(s);
    forall i | 0 <= i < |s.caught| ensures SignalOk(s', i) {
      assert SignalOk(s, i);
    }
    if (forall i :: 0 <= i < |s.caught| ==> Covers(s, i)) && AllOriginal(s) {
      forall i | 0 <= i < |s.caught| ensures OriginalOk(s', i) {
        assert OriginalOk(s, i) && Covers(s, i);
      }
    }
  }

  lemma OtherKeepsShared(s: State, t: nat)
    requires GlobalOk(s) && SignalsOk(s) && Known(s, t) && Enabled(s, t, Continue)
    requires ThreadOf(s, t).pc in {SetupLock, SetupUnlock, SetupThread, Closing, Detach, CleanupLock, CleanupUnlock}
    requires StepContinue(s, t).outcome == Running
    ensures KeepsShared(s, StepContinue(s, t))
  {
    SameShared(s, StepContinue(s, t));
  }

  lemma ContinueKeepsShared(s: State, t: nat)
    requires IsSignalList(s.caught) && Counted(s) && SignalsOk(s) && Known(s, t) && Enabled(s, t, Continue)
    requires StepContinue(s, t).outcome == Running
    ensures KeepsShared(s, StepContinue(s, t))
  {
    match ThreadOf(s, t).pc
    case SetupGlobal => CountInKeepsShared(s, t);
    case Allocate => AllocateKeepsShared(s, t);
    case Install(i) => InstallKeepsShared(s, t, i);
    case CleanupGlobal =>
      HeldCounts(s, t);
      CountOutKeepsShared(s, t);
    case Restore(i) => RestoreKeepsShared(s, t, i);
    case DeleteKey => DeleteKeyKeepsShared(s, t);
    case _ => OtherKeepsShared(s, t);
  }

  lemma BorderKeepsShared(s: State, t: nat, a: Action)
    requires GlobalOk(s) && SignalsOk(s) && Known(s, t) && Enabled(s, t, a) && (a.Try? || a.End? || a.Signal?)
    requires Step(s, t, a).outcome == Running
    ensures KeepsShared(s, Step(s, t, a))
  {
    SameShared(s, Step(s, t, a));
  }

  // ---------------------------------------------------------------- handlers at work

  lemma CallKeepsShared(s: State, t: nat)
    requires GlobalOk(s) && SignalsOk(s) && ThreadOf(s, t).frames != [] && Top(ThreadOf(s, t)).stage.CallOld?
    requires StepHandle(s, t).outcome == Running
    ensures KeepsShared(s, StepHandle(s, t))
  {
    SameShared(s, StepHandle(s, t));
  }

  lemma QueryKeepsShared(s: State, t: nat)
    requires GlobalOk(s) && SignalsOk(s) && Known(s, t) && ThreadOf(s, t).frames != []
    requires StepQuery(s, t).outcome == Running
    ensures KeepsShared(s, StepQuery(s, t))
  {
    SameShared(s, StepQuery(s, t));
  }

  /** A reset in a thread with a restore point leaves the original handlers alone; in any other, the process is
      doomed. */
  lemma ResetKeepsOriginals(s: State, t: nat)
    requires Consistent(s) && Known(s, t) && ThreadOf(s, t).frames != [] && Top(ThreadOf(s, t)).stage.Reset?
    requires Top(ThreadOf(s, t)).sig in s.caught
    ensures GlobalOk(StepReset(s, t)) && SignalsOk(StepReset(s, t))
    ensures AllOriginal(s) ==> Doomed(StepReset(s, t)) || AllOriginal(StepReset(s, t))
  {
    ResetKeepsShared(s, t);
    var th, s' := ThreadOf(s, t), StepReset(s, t);
    if HasContext(th) {
      InPlaceForHolders(s, t);
      assert forall i :: 0 <= i < |s.caught| ==> Covers(s, i);
    } else {
      assert s'.threads[t].frames[|th.frames| - 1].stage.Query?;
      assert BoundToAbort(s'.threads[t]);
    }
  }

  lemma OwnFramesOk(s: State, t: nat)
    requires FramesOk(s)
    ensures ThreadFramesOk(s, ThreadOf(s, t))
    ensures ThreadOf(s, t).frames != [] ==> FrameOk(s, Top(ThreadOf(s, t))) && !ThreadOf(s, t).pc.Allocate?
  {
  }

  lemma HandleKeepsShared(s: State, t: nat)
    requires Consistent(s) && Known(s, t) && ThreadOf(s, t).frames != [] && StepHandle(s, t).outcome == Running
    ensures GlobalOk(StepHandle(s, t)) && SignalsOk(StepHandle(s, t))
    ensures AllOriginal(s) ==> Doomed(StepHandle(s, t)) || AllOriginal(StepHandle(s, t))
  {
    OwnFramesOk(s, t);
    match Top(ThreadOf(s, t)).stage
    case CallOld => CallKeepsShared(s, t);
    case Reset => ResetKeepsOriginals(s, t);
    case Query => QueryKeepsShared(s, t);
    case LateCall =>
  }

  lemma StepKeepsShared(s: State, t: nat, a: Action)
    requires Consistent(s) && Known(s, t) && Enabled(s, t, a) && Step(s, t, a).outcome == Running
    ensures GlobalOk(Step(s, t, a)) && SignalsOk(Step(s, t, a))
    ensures AllOriginal(s) ==> Doomed(Step(s, t, a)) || AllOriginal(Step(s, t, a))
  {
    match a
    case Handle => HandleKeepsShared(s, t);
    case Continue => ContinueKeepsShared(s, t);
    case _ => BorderKeepsShared(s, t, a);
  }

  /** A thread that is bound to abort stays so. */
  lemma SignalKeepsDoom(s: State, t: nat, sig: nat)
    requires t in s.threads && BoundToAbort(s.threads[t])
    ensures BoundToAbort(ThreadOf(StepSignal(s, t, sig), t))
  {
    var th, th' := s.threads[t], ThreadOf(StepSignal(s, t, sig), t);
    var i :| 0 <= i < |th.frames| && (th.frames[i].stage.Query? || th.frames[i].stage.LateCall?);
    assert th'.frames[i] == th.frames[i];
  }

  lemma HandleKeepsDoom(s: State, t: nat)
    requires t in s.threads && BoundToAbort(s.threads[t]) && StepHandle(s, t).outcome == Running
    ensures BoundToAbort(ThreadOf(StepHandle(s, t), t))
  {
    var th, th' := s.threads[t], ThreadOf(StepHandle(s, t), t);
    var i :| 0 <= i < |th.frames| && (th.frames[i].stage.Query? || th.frames[i].stage.LateCall?);
    assert th'.frames[i].stage.Query? || th'.frames[i].stage.LateCall?;
  }

  lemma DoomStays(s: State, t: nat, a: Action)
    requires Known(s, t) && Enabled(s, t, a) && Step(s, t, a).outcome == Running && Doomed(s)
    requires StepsAlone(s, t, Step(s, t, a))
    ensures Doomed(Step(s, t, a))
  {
    var u :| u in s.threads && BoundToAbort(s.threads[u]);
    if u != t {
      assert Step(s, t, a).threads[u] == s.threads[u];
    } else if a.Signal? {
      SignalKeepsDoom(s, t, a.sig);
    } else {
      HandleKeepsDoom(s, t);
    }
  }

  /** Time goes on: the table goes only when it is freed. */
  predicate Later(s: State, s': State) {
    s'.closings > s.closings || (s'.closings == s.closings && (s.saOld.Saved? ==> s'.saOld.Saved?))
  }

  /** Only a handler jumps or is put to work; the rest leaves this to it. */
  predicate Quiet(s: State, t: nat, s': State) {
    var th, th' := ThreadOf(s, t), ThreadOf(s', t);
    && Later(s, s') && s'.strandings == s.strandings && th'.skipped == th.skipped && th'.stranded == th.stranded
    && th'.jumps <= th.jumps && th'.frames == th.frames
  }

  lemma BorderIsQuiet(s: State, t: nat, a: Action)
    requires Enabled(s, t, a) && (a.Try? || a.End?)
    ensures Quiet(s, t, Step(s, t, a))
  {
  }

  lemma SetupIsQuiet(s: State, t: nat)
    requires InSetup(ThreadOf(s, t).pc)
    ensures Quiet(s, t, StepContinue(s, t))
  {
    var pc := ThreadOf(s, t).pc;
    if pc.Install? {
      InstallIsQuiet(s, t, pc.i);
    }
  }

  lemma InstallIsQuiet(s: State, t: nat, i: nat)
    ensures Quiet(s, t, StepInstall(s, t, i))
  {
  }

  lemma CleanupIsQuiet(s: State, t: nat)
    requires !InSetup(ThreadOf(s, t).pc)
    ensures Quiet(s, t, StepContinue(s, t))
  {
    var pc := ThreadOf(s, t).pc;
    if pc.Restore? {
      RestoreIsQuiet(s, t, pc.i);
    } else if pc.CleanupGlobal? {
      CountOutIsQuiet(s, t);
    }
  }

  lemma CountOutIsQuiet(s: State, t: nat)
    ensures Quiet(s, t, StepCountOut(s, t))
  {
  }

  lemma RestoreIsQuiet(s: State, t: nat, i: nat)
    ensures Quiet(s, t, StepRestore(s, t, i))
  {
  }

  lemma StepIsQuiet(s: State, t: nat, a: Action)
    requires Enabled(s, t, a) && !a.Signal? && !a.Handle?
    ensures Quiet(s, t, Step(s, t, a))
  {
    match a
    case Continue =>
      if InSetup(ThreadOf(s, t).pc) {
        SetupIsQuiet(s, t);
      } else {
        CleanupIsQuiet(s, t);
      }
    case _ => BorderIsQuiet(s, t, a);
  }

  lemma StepIsLater(s: State, t: nat, a: Action)
    requires Enabled(s, t, a)
    ensures Later(s, Step(s, t, a))
  {
    if !a.Signal? && !a.Handle? {
      StepIsQuiet(s, t, a);
    }
  }

  /** Where our handler is entered, the table is in place and holds a handler that is not ours. */
  lemma TableAtEntry(s: State, sig: nat)
    requires SignalsOk(s) && IsOurs(HandlerOf(s, sig))
    ensures sig in s.caught && s.saOld.Saved? && sig in s.saOld.actions && !IsOurs(s.saOld.actions[sig])
    ensures !Phase(s).Allocate?
  {
    var i :| 0 <= i < |s.caught| && s.caught[i] == sig;
    assert SignalOk(s, i);
  }

  lemma SignalFrames(s: State, t: nat, sig: nat)
    requires Consistent(s) && Known(s, t)
    ensures ThreadFramesOk(StepSignal(s, t, sig), ThreadOf(StepSignal(s, t, sig), t))
  {
    OwnFramesOk(s, t);
    if IsOurs(HandlerOf(s, sig)) {
      TableAtEntry(s, sig);
      assert ThreadOf(s, t).pc.Allocate? ==> Phase(s).Allocate?;
      PushFrame(s, ThreadOf(s, t), Entered(s, sig));
      FramesOkLater(s, StepSignal(s, t, sig), ThreadOf(StepSignal(s, t, sig), t));
    }
  }

  lemma PushFrame(s: State, th: Thread, f: Frame)
    requires ThreadFramesOk(s, th) && FrameOk(s, f) && !th.pc.Allocate?
    ensures ThreadFramesOk(s, th.(frames := th.frames + [f]))
  {
  }

  lemma HandleFrames(s: State, t: nat)
    requires FramesOk(s) && ThreadOf(s, t).frames != [] && StepHandle(s, t).outcome == Running
    ensures ThreadFramesOk(StepHandle(s, t), ThreadOf(StepHandle(s, t), t))
  {
    OwnFramesOk(s, t);
  }

  /** What is new among the handlers at work is in order. */
  lemma StepKeepsOwnFrames(s: State, t: nat, a: Action)
    requires Consistent(s) && Known(s, t) && Enabled(s, t, a) && Step(s, t, a).outcome == Running
    ensures ThreadFramesOk(Step(s, t, a), ThreadOf(Step(s, t, a), t))
  {
    match a
    case Signal(sig) => SignalFrames(s, t, sig);
    case Handle => HandleFrames(s, t);
    case _ => StepIsQuiet(s, t, a);
  }

  lemma FramesOkLater(s: State, s': State, th: Thread)
    requires ThreadFramesOk(s, th) && Later(s, s') && s'.caught == s.caught
    ensures ThreadFramesOk(s', th)
  {
    forall i | 0 <= i < |th.frames| ensures FrameOk(s', th.frames[i]) {
      assert FrameOk(s, th.frames[i]);
    }
  }

  lemma AloneKeepsFrames(s: State, t: nat, s': State)
    requires FramesOk(s) && StepsAlone(s, t, s') && Later(s, s') && ThreadFramesOk(s', ThreadOf(s', t))
    ensures FramesOk(s')
  {
    forall u | u in s'.threads ensures ThreadFramesOk(s', s'.threads[u]) {
      if u != t {
        assert s'.threads[u] == s.threads[u];
        FramesOkLater(s, s', s.threads[u]);
      }
    }
  }

  lemma StepKeepsOriginals(s: State, t: nat, a: Action)
    requires Consistent(s) && Known(s, t) && Enabled(s, t, a) && Step(s, t, a).outcome == Running
    requires StepsAlone(s, t, Step(s, t, a))
    ensures OriginalsOk(Step(s, t, a))
  {
    if Doomed(s) {
      DoomStays(s, t, a);
    } else {
      StepKeepsShared(s, t, a);
    }
  }

  lemma StepKeepsConsistent(s: State, t: nat, a: Action)
    requires Consistent(s) && Enabled(s, t, a) && Step(s, t, a).outcome == Running
    ensures Consistent(Step(s, t, a))
  {
    var s' := Step(s, t, a);
    KnownOf(s, t);
    StepIsAlone(s, t, a);
    AloneKeepsExclusive(s, t, s');
    AloneKeepsThreads(s, t, s');
    AloneKeepsCount(s, t, s');
    StepKeepsShared(s, t, a);
    StepKeepsOriginals(s, t, a);
    StepIsLater(s, t, a);
    StepKeepsOwnFrames(s, t, a);
    AloneKeepsFrames(s, t, s');
  }

  // ---------------------------------------------------------------- runs

  datatype Event = Event(thread: nat, action: Action)

  /** The events can happen in this order from s on. */
  predicate Feasible(s: State, run: seq<Event>)
    decreases |run|
  {
    run == [] || (Enabled(s, run[0].thread, run[0].action) && Feasible(Step(s, run[0].thread, run[0].action), run[1..]))
  }

  function Exec(s: State, run: seq<Event>): State
    requires Feasible(s, run)
    decreases |run|
  {
    if run == [] then s else Exec(Step(s, run[0].thread, run[0].action), run[1..])
  }

  ghost predicate RunsTo(s: State, run: seq<Event>, end: State) {
    Feasible(s, run) && Exec(s, run) == end
  }

  /** Every run of any number of threads keeps the invariant for as long as the process lives. */
  lemma {:induction false} RunsStayConsistent(s: State, run: seq<Event>)
    requires Consistent(s) && Feasible(s, run)
    ensures Exec(s, run).outcome == Running ==> Consistent(Exec(s, run))
    decreases |run|
  {
    if run != [] {
      var e := run[0];
      var s' := Step(s, e.thread, e.action);
      if s'.outcome == Running {
        StepKeepsConsistent(s, e.thread, e.action);
        RunsStayConsistent(s', run[1..]);
      }
    }
  }

  /** The last step of a run. */
  lemma {:induction false} LastStep(s: State, run: seq<Event>) returns (before: State)
    requires run != [] && Feasible(s, run)
    ensures RunsTo(s, run[..|run| - 1], before)
    ensures var Event(t, a) := run[|run| - 1]; Enabled(before, t, a) && Exec(s, run) == Step(before, t, a)
    decreases |run|
  {
    if |run| == 1 {
      before := s;
    } else {
      var rest, init := run[1..], run[..|run| - 1];
      before := LastStep(Step(s, run[0].thread, run[0].action), rest);
      assert init[1..] == rest[..|rest| - 1];
    }
  }

  // ---------------------------------------------------------------- when an assertion fails

  lemma ContinueIsSound(s: State, t: nat)
    requires Consistent(s) && Known(s, t) && Enabled(s, t, Continue)
    ensures StepContinue(s, t).outcome == Running
  {
    var th := ThreadOf(s, t);
    if Held(th) > 0 {
      HeldCounts(s, t);
      if !th.pc.Allocate? && !th.pc.Install? {
        InPlaceForHolders(s, t);
      }
    }
    assert th.pc.Install? || th.pc.Restore? ==> Phase(s) == th.pc;
    if th.pc.Restore? && th.pc.i < |s.caught| {
      assert SignalOk(s, th.pc.i);
    }
  }

  /** An assertion fails exactly in the COFFEE_END of a thread whose jumps from between the two stores are not
      outnumbered by its open sections and those that its other jumps have skipped. */
  lemma FaultsIff(s: State, t: nat, a: Action)
    requires Consistent(s) && Enabled(s, t, a)
    ensures var th := ThreadOf(s, t);
            Step(s, t, a).outcome == Faulted <==> a.End? && th.depth + th.skipped <= th.stranded
  {
    match a
    case End =>
      KnownOf(s, t);
      EndFaultsIff(s, t);
    case Continue =>
      KnownOf(s, t);
      ContinueIsSound(s, t);
    case _ =>
  }

  lemma EndFaultsIff(s: State, t: nat)
    requires Known(s, t) && s.outcome == Running && ThreadOf(s, t).depth > 0
    ensures var th := ThreadOf(s, t);
            StepEnd(s, t).outcome == Faulted <==> th.depth + th.skipped <= th.stranded
  {
  }

  /** The step jumps from between the two stores that close a section. */
  predicate CutsClosing(s: State, t: nat, a: Action) {
    var th := ThreadOf(s, t);
    a.Handle? && th.frames != [] && Top(th).stage.Query? && th.pc.Closing? && HasContext(th)
  }

  lemma StrandedIff(s: State, t: nat, a: Action)
    requires Consistent(s) && Enabled(s, t, a)
    ensures Step(s, t, a).strandings == s.strandings + One(CutsClosing(s, t, a))
  {
    match a
    case Signal(_) =>
    case Handle =>
      KnownOf(s, t);
      HandleStrandsIff(s, t);
    case _ => StepIsQuiet(s, t, a);
  }

  lemma HandleStrandsIff(s: State, t: nat)
    requires Known(s, t) && ThreadOf(s, t).frames != []
    ensures StepHandle(s, t).strandings == s.strandings + One(CutsClosing(s, t, Handle))
  {
  }

  predicate NeverCuts(s: State, run: seq<Event>)
    requires Feasible(s, run)
    decreases |run|
  {
    run == [] ||
    (&& !CutsClosing(s, run[0].thread, run[0].action)
     && NeverCuts(Step(s, run[0].thread, run[0].action), run[1..]))
  }

  lemma NoStrandedNoFault(s: State, t: nat, a: Action)
    requires Consistent(s) && Enabled(s, t, a) && s.strandings == 0
    ensures Step(s, t, a).outcome != Faulted
  {
    FaultsIff(s, t, a);
  }

  /** In a run without such a jump no assertion ever fails, and the count is that of the threads past global setup
      and not past global cleanup. */
  lemma {:induction false} UncutRunsAreSound(s: State, run: seq<Event>)
    requires Consistent(s) && s.outcome == Running && s.strandings == 0 && Feasible(s, run) && NeverCuts(s, run)
    ensures Exec(s, run).outcome != Faulted && Exec(s, run).strandings == 0
    ensures Exec(s, run).outcome == Running ==> Exec(s, run).initialized == |Members(Exec(s, run).threads)|
    decreases |run|
  {
    if run != [] {
      var e := run[0];
      var s' := Step(s, e.thread, e.action);
      NoStrandedNoFault(s, e.thread, e.action);
      StrandedIff(s, e.thread, e.action);
      if s'.outcome == Running {
        StepKeepsConsistent(s, e.thread, e.action);
        UncutRunsAreSound(s', run[1..]);
      } else {
        assert run[1..] == [];
      }
    }
  }

  /** A run fails an assertion only with its last step, a COFFEE_END, and only after such a jump of the same thread. */
  lemma RunsFaultAfterCut(s: State, run: seq<Event>) returns (before: State)
    requires Consistent(s) && s.outcome == Running && Feasible(s, run) && Exec(s, run).outcome == Faulted
    ensures run != [] && RunsTo(s, run[..|run| - 1], before) && Consistent(before)
    ensures run[|run| - 1].action == End && ThreadOf(before, run[|run| - 1].thread).stranded > 0
  {
    before := LastStep(s, run);
    RunsStayConsistent(s, run[..|run| - 1]);
    FaultsIff(before, run[|run| - 1].thread, run[|run| - 1].action);
  }

  // ---------------------------------------------------------------- what the invariant means

  lemma SignalMeans(s: State, sig: nat)
    requires Consistent(s) && s.lock == Free && sig in s.caught
    ensures s.initialized > 0 ==>
              && s.saOld.Saved? && sig in s.saOld.actions && (!Doomed(s) ==> s.saOld.actions[sig] == Was)
              && HandlerOf(s, sig) == if sig in s.delivered then Default else Ours(sig)
    ensures s.initialized == 0 && !Doomed(s) ==> HandlerOf(s, sig) == Was
  {
    var i :| 0 <= i < |s.caught| && s.caught[i] == sig;
    assert SignalOk(s, i) && (Doomed(s) || OriginalOk(s, i));
  }

  /** The count is that of the threads past global setup and not past global cleanup, and one more for each jump from
      between the two stores.  While it is positive, the table holds the original handlers and ours stand in for
      them, each until its first reset; at zero, every signal has its original handler.  Both while nobody holds the
      mutex, and as to the original handlers, unless some thread is bound to abort. */
  lemma ConsistentMeans(s: State)
    requires Consistent(s) && s.lock == Free
    ensures s.initialized == |Members(s.threads)| + s.strandings
    ensures s.initialized > 0 ==> s.saOld.Saved? && forall sig :: sig in s.caught ==>
              && sig in s.saOld.actions && (!Doomed(s) ==> s.saOld.actions[sig] == Was)
              && HandlerOf(s, sig) == if sig in s.delivered then Default else Ours(sig)
    ensures s.initialized == 0 ==> s.saOld == Freed && !s.key
    ensures s.initialized == 0 && !Doomed(s) ==> forall sig :: HandlerOf(s, sig) == Was
  {
    forall sig | sig in s.caught
      ensures s.initialized > 0 ==>
                && s.saOld.Saved? && sig in s.saOld.actions && (!Doomed(s) ==> s.saOld.actions[sig] == Was)
                && HandlerOf(s, sig) == if sig in s.delivered then Default else Ours(sig)
      ensures s.initialized == 0 && !Doomed(s) ==> HandlerOf(s, sig) == Was
    {
      SignalMeans(s, sig);
    }
  }

  /** A thread jumps not twice after one setup and never with the mutex: from inside a section, or from between the two
      stores that close it.  It lands in the section that saved the restore point, which is the outermost one unless the
      thread has jumped from between the stores before. */
  lemma JumpsAreSafe(s: State, t: nat, a: Action)
    requires Consistent(s) && Enabled(s, t, a) && ThreadOf(Step(s, t, a), t).jumps > ThreadOf(s, t).jumps
    ensures var th, th' := ThreadOf(s, t), ThreadOf(Step(s, t, a), t);
            && a.Handle? && s.lock != HeldBy(t) && th.jumps == 0 && th'.jumps == 1 && th'.depth == th.base
            && ((InSection(th) && th.depth >= th.base) || CutsClosing(s, t, a))
            && (th.stranded == 0 ==> th.base == 1)
  {
    match a
    case Signal(_) =>
    case Handle =>
      KnownOf(s, t);
      HandleJumpsSafely(s, t);
    case _ => StepIsQuiet(s, t, a);
  }

  lemma HandleJumpsSafely(s: State, t: nat)
    requires Known(s, t) && ThreadOf(s, t).frames != []
    requires ThreadOf(StepHandle(s, t), t).jumps > ThreadOf(s, t).jumps
    ensures var th, th' := ThreadOf(s, t), ThreadOf(StepHandle(s, t), t);
            && s.lock != HeldBy(t) && th.jumps == 0 && th'.jumps == 1 && th'.depth == th.base
            && ((InSection(th) && th.depth >= th.base) || CutsClosing(s, t, Handle))
            && (th.stranded == 0 ==> th.base == 1)
  {
  }

  /** A signal in a thread inside a section enters our handler exactly if it has not been reset, by any thread, since
      its handler was installed.  Once it has, it kills. */
  lemma EnteredIff(s: State, t: nat, sig: nat)
    requires Consistent(s) && s.outcome == Running && sig in s.caught && InSection(ThreadOf(s, t))
    ensures StepSignal(s, t, sig).outcome == if sig in s.delivered then Killed else Running
    ensures sig !in s.delivered ==> ThreadOf(StepSignal(s, t, sig), t).frames != []
  {
    InPlaceForHolders(s, t);
    var i :| 0 <= i < |s.caught| && s.caught[i] == sig;
    assert SignalOk(s, i) && Covers(s, i);
  }

  /** A handler at work in a section always gets to look for the restore point, and catches the signal exactly if the
      thread has not jumped since its setup; if it has, the process aborts. */
  lemma CaughtIff(s: State, t: nat)
    requires Consistent(s) && Enabled(s, t, Handle) && InSection(ThreadOf(s, t))
    ensures var th, s' := ThreadOf(s, t), StepHandle(s, t);
            match Top(th).stage
            case CallOld => s'.outcome == Running && ThreadOf(s', t) == SetStage(th, Reset)
            case Reset => s'.outcome == Running && ThreadOf(s', t) == SetStage(th, Query)
            case Query =>
              if th.jumps == 0 then s'.outcome == Running && ThreadOf(s', t).jumps == 1 && ThreadOf(s', t).frames == []
              else s'.outcome == Aborted || (s'.outcome == Running && ThreadOf(s', t) == SetStage(th, LateCall))
            case LateCall => s'.outcome == Aborted
  {
    KnownOf(s, t);
    InPlaceForHolders(s, t);
  }

  // ---------------------------------------------------------------- what may be missing

  predicate ReadsTable(th: Thread)
    requires th.frames != []
  {
    Top(th).stage.CallOld? || Top(th).stage.LateCall?
  }

  /** A step reads a table that is not there exactly if a handler calls the old one before the table is allocated or
      after it was freed.  It was freed then since the handler was entered, and the thread holds no part of the
      count. */
  lemma TableMissedIff(s: State, t: nat, a: Action)
    requires Consistent(s) && Enabled(s, t, a)
    ensures Step(s, t, a).outcome == BadTable <==> a.Handle? && ReadsTable(ThreadOf(s, t)) && NoTable(s)
    ensures Step(s, t, a).outcome == BadTable ==>
              Top(ThreadOf(s, t)).since < s.closings && Held(ThreadOf(s, t)) == 0
  {
    match a
    case Continue =>
      KnownOf(s, t);
      ContinueIsSound(s, t);
    case Handle =>
      OwnFramesOk(s, t);
      HandleMissesTableIff(s, t);
      if Held(ThreadOf(s, t)) > 0 {
        HeldHasTable(s, t);
      }
    case _ =>
  }

  lemma HandleMissesTableIff(s: State, t: nat)
    requires IsSignalList(s.caught) && GlobalOk(s) && s.outcome == Running
    requires ThreadOf(s, t).frames != [] && FrameOk(s, Top(ThreadOf(s, t)))
    ensures StepHandle(s, t).outcome == BadTable <==> ReadsTable(ThreadOf(s, t)) && NoTable(s)
    ensures StepHandle(s, t).outcome == BadTable ==> Top(ThreadOf(s, t)).since < s.closings && s.saOld.Freed?
  {
  }

  lemma HeldHasTable(s: State, t: nat)
    requires Consistent(s) && Held(ThreadOf(s, t)) > 0 && !ThreadOf(s, t).pc.Allocate?
    ensures s.saOld.Saved?
  {
    if ThreadOf(s, t).pc.Install? {
      MutexOf(s, t);
    } else {
      InPlaceForHolders(s, t);
    }
  }

  /** The step asks for the thread's structure. */
  predicate QueriesKey(s: State, t: nat, a: Action)
    requires Enabled(s, t, a)
  {
    match a
    case Try => true
    case End => true
    case Signal(_) => false
    case Handle => Top(ThreadOf(s, t)).stage.Query?
    case Continue => ThreadOf(s, t).pc.SetupThread? || ThreadOf(s, t).pc.Detach?
  }

  /** The thread key is queried in vain exactly where it is queried before it is created or after it was deleted.  That
      takes a COFFEE_TRY or a handler, in a thread that holds no part of the count or is about to create the key. */
  lemma KeyMissedIff(s: State, t: nat, a: Action)
    requires Consistent(s) && Enabled(s, t, a)
    ensures Step(s, t, a).stray > s.stray <==> QueriesKey(s, t, a) && NoKey(s)
    ensures Step(s, t, a).stray > s.stray ==>
              && (a.Try? || a.Handle?)
              && (ThreadOf(s, t).pc.Install? || Held(ThreadOf(s, t)) == 0)
  {
    KnownOf(s, t);
    OwnFramesOk(s, t);
    var th := ThreadOf(s, t);
    if Held(th) > 0 && !th.pc.Allocate? && !th.pc.Install? {
      InPlaceForHolders(s, t);
    }
    if a.Continue? {
      ContinueIsSound(s, t);
      ContinueQueries(s, t);
    }
  }

  lemma ContinueQueries(s: State, t: nat)
    requires Known(s, t) && Enabled(s, t, Continue) && StepContinue(s, t).outcome == Running
    ensures StepContinue(s, t).stray == s.stray
  {
  }

  /** A handler in a thread that holds no part of the count, entered before the table was freed, reads the table. */
  predicate MissesTable(s: State, e: Event) {
    var th := ThreadOf(s, e.thread);
    && Enabled(s, e.thread, e.action) && e.action.Handle? && ReadsTable(th) && NoTable(s)
    && Top(th).since < s.closings && Held(th) == 0
  }

  /** A run reads a missing table only with its last step, and only so. */
  lemma RunsMissTableOutside(s: State, run: seq<Event>) returns (before: State)
    requires Consistent(s) && s.outcome == Running && Feasible(s, run) && Exec(s, run).outcome == BadTable
    ensures run != [] && RunsTo(s, run[..|run| - 1], before) && Consistent(before)
    ensures MissesTable(before, run[|run| - 1])
  {
    before := LastStep(s, run);
    RunsStayConsistent(s, run[..|run| - 1]);
    TableMissedIff(before, run[|run| - 1].thread, run[|run| - 1].action);
  }

  // ---------------------------------------------------------------- what jumps leave behind

  /** The thread has skipped sections with a jump, or jumped from between the two stores. */
  predicate Leaks(th: Thread) {
    th.skipped > 0 || th.stranded > 0
  }

  lemma LeaksHolds(s: State, t: nat)
    requires Counted(s) && Leaks(ThreadOf(s, t))
    ensures s.initialized > 0
  {
    LocalOf(s, t);
    HeldCounts(s, t);
  }

  lemma HandleKeepsLeak(s: State, t: nat)
    requires ThreadOf(s, t).frames != [] && Leaks(ThreadOf(s, t))
    ensures Leaks(ThreadOf(StepHandle(s, t), t))
  {
  }

  lemma OthersKeepLeak(s: State, u: nat, s': State, t: nat)
    requires StepsAlone(s, u, s') && u != t && Leaks(ThreadOf(s, t))
    ensures Leaks(ThreadOf(s', t))
  {
  }

  lemma StepKeepsLeak(s: State, u: nat, a: Action, t: nat)
    requires Consistent(s) && Enabled(s, u, a) && Step(s, u, a).outcome == Running && Leaks(ThreadOf(s, t))
    ensures Leaks(ThreadOf(Step(s, u, a), t))
  {
    if u != t {
      KnownOf(s, u);
      StepIsAlone(s, u, a);
      OthersKeepLeak(s, u, Step(s, u, a), t);
    } else {
      match a
      case Signal(_) =>
      case Handle => HandleKeepsLeak(s, t);
      case _ => StepIsQuiet(s, t, a);
    }
  }

  /** After such a jump the count never returns to zero, whatever happens next. */
  lemma {:induction false} NestedJumpLeaks(s: State, run: seq<Event>, t: nat)
    requires Consistent(s) && Feasible(s, run) && Leaks(ThreadOf(s, t)) && Exec(s, run).outcome == Running
    ensures Leaks(ThreadOf(Exec(s, run), t)) && Exec(s, run).initialized > 0
    decreases |run|
  {
    if run == [] {
      LeaksHolds(s, t);
    } else {
      var e := run[0];
      StepKeepsLeak(s, e.thread, e.action, t);
      StepKeepsConsistent(s, e.thread, e.action);
      NestedJumpLeaks(Step(s, e.thread, e.action), run[1..], t);
    }
  }

  /** Every thread is outside of all sections. */
  ghost predicate AllOut(s: State) {
    forall t :: t in s.threads ==> s.threads[t].pc == User && s.threads[t].depth == 0
  }

  lemma AllOutIsFree(s: State)
    requires Exclusive(s) && AllOut(s)
    ensures s.lock == Free
  {
    assert s.lock.HeldBy? ==> s.lock.thread in s.threads && HoldsMutex(s.threads[s.lock.thread].pc);
  }

  /** When every thread has left all its sections, the handlers are all back if and only if no jump has ever skipped
      sections or left from between the two stores. */
  lemma AllOutRestoresIff(s: State)
    requires Consistent(s) && AllOut(s)
    ensures s.initialized == 0 <==> s.strandings == 0 && forall t :: t in s.threads ==> s.threads[t].skipped == 0
    ensures s.initialized == 0 && !Doomed(s) ==> forall sig :: HandlerOf(s, sig) == Was
    ensures s.initialized > 0 ==> forall sig :: sig in s.caught ==> HandlerOf(s, sig) != Was
  {
    AllOutIsFree(s);
    ConsistentMeans(s);
    if t :| t in s.threads && s.threads[t].skipped > 0 {
      LeaksHolds(s, t);
    } else {
      forall t | t in s.threads ensures !CountedIn(s.threads[t]) {
        assert LocalOk(s.threads[t]);
      }
      assert Members(s.threads) == {};
    }
  }

  // ---------------------------------------------------------------- runs that go wrong

  /** One more step at the end of a run. */
  lemma {:induction false} Go(s: State, run: seq<Event>, mid: State, t: nat, a: Action)
    returns (more: seq<Event>, end: State)
    requires RunsTo(s, run, mid) && Enabled(mid, t, a)
    ensures end == Step(mid, t, a) && RunsTo(s, more, end) && more == run + [Event(t, a)]
    decreases |run|
  {
    end, more := Step(mid, t, a), run + [Event(t, a)];
    if run != [] {
      var rest, end' := Go(Step(s, run[0].thread, run[0].action), run[1..], mid, t, a);
      assert more[1..] == rest;
    } else {
      assert more[1..] == [];
    }
  }

  /** A signal and n steps of its handler. */
  function SignalAndHandle(t: nat, sig: nat, n: nat): (run: seq<Event>)
    ensures |run| == n + 1
  {
    if n == 0 then [Event(t, Signal(sig))] else SignalAndHandle(t, sig, n - 1) + [Event(t, Handle)]
  }

  /** Up to where the handler looks for the restore point: the signal is at its default then, and nothing else has
      changed. */
  ghost predicate HandledUpToQuery(s: State, t: nat, sig: nat, end: State) {
    && end.outcome == Running && end.saOld == s.saOld && end.key == s.key
    && HandlerOf(end, sig) == Default && sig in end.delivered
    && ThreadOf(end, t) == ThreadOf(s, t).(frames := ThreadOf(s, t).frames + [Frame(sig, Query, s.closings)])
    && forall other :: other != sig ==> HandlerOf(end, other) == HandlerOf(s, other)
  }

  /** Every handler of ours resets its signal before it looks for the restore point; that of SIGABRT has not called
      the old handler by then, the other has. */
  lemma HandlerResets(s: State, t: nat, sig: nat) returns (end: State)
    requires s.outcome == Running && IsOurs(HandlerOf(s, sig)) && s.saOld.Saved?
    requires forall f :: f in ThreadOf(s, t).frames ==> f.sig != sig
    ensures RunsTo(s, SignalAndHandle(t, sig, if sig == SIGABRT then 1 else 2), end) && HandledUpToQuery(s, t, sig, end)
  {
    var run, below := [], ThreadOf(s, t).frames;
    run, end := Go(s, [], s, t, Signal(sig));
    assert run == SignalAndHandle(t, sig, 0);
    assert ThreadOf(end, t).frames == below + [Entered(s, sig)];
    if sig != SIGABRT {
      run, end := Go(s, run, end, t, Handle);
      assert ThreadOf(end, t).frames == below + [Frame(sig, Reset, s.closings)];
    }
    run, end := Go(s, run, end, t, Handle);
    assert ThreadOf(end, t).frames == below + [Frame(sig, Query, s.closings)];
  }

  /** The whole handler in a section: a signal that has not been delivered is caught by a thread that has not jumped,
      and is at its default afterwards.  The thread may be in handlers of other signals; the jump leaves them all. */
  lemma HandlerCatches(s: State, t: nat, sig: nat) returns (end: State)
    requires Consistent(s) && s.outcome == Running && sig in s.caught && sig !in s.delivered
    requires InSection(ThreadOf(s, t)) && ThreadOf(s, t).jumps == 0
    requires forall f :: f in ThreadOf(s, t).frames ==> f.sig != sig
    ensures RunsTo(s, SignalAndHandle(t, sig, if sig == SIGABRT then 2 else 3), end) && end.outcome == Running
    ensures var th, th' := ThreadOf(s, t), ThreadOf(end, t);
            th'.pc == User && th'.frames == [] && th'.jumps == 1 && th'.depth == th.base && !HasContext(th')
    ensures HandlerOf(end, sig) == Default && sig in end.delivered
  {
    KnownOf(s, t);
    InPlaceForHolders(s, t);
    CoveredIsOurs(s, sig);
    var mid := HandlerResets(s, t, sig);
    var run;
    run, end := Go(s, SignalAndHandle(t, sig, if sig == SIGABRT then 1 else 2), mid, t, Handle);
  }

  lemma CoveredIsOurs(s: State, sig: nat)
    requires Consistent(s) && sig in s.caught && sig !in s.delivered && s.initialized > 0 && Phase(s) == User
    ensures IsOurs(HandlerOf(s, sig))
  {
    var i :| 0 <= i < |s.caught| && s.caught[i] == sig;
    assert SignalOk(s, i) && Covers(s, i);
  }

  /** The whole handler in a thread without a restore point, inside a section or not: the process aborts. */
  lemma HandlerAborts(s: State, t: nat, sig: nat) returns (end: State)
    requires Consistent(s) && s.outcome == Running && IsOurs(HandlerOf(s, sig))
    requires !HasContext(ThreadOf(s, t))
    requires forall f :: f in ThreadOf(s, t).frames ==> f.sig != sig
    ensures RunsTo(s, SignalAndHandle(t, sig, 3), end) && end.outcome == Aborted && HandlerOf(end, sig) == Default
  {
    TableAtEntry(s, sig);
    var mid := HandlerResets(s, t, sig);
    var run;
    if sig == SIGABRT {
      run, end := Go(s, SignalAndHandle(t, sig, 1), mid, t, Handle);
      assert ThreadOf(end, t).frames == ThreadOf(s, t).frames + [Frame(sig, LateCall, s.closings)];
      run, end := Go(s, run, end, t, Handle);
    } else {
      run, end := Go(s, SignalAndHandle(t, sig, 2), mid, t, Handle);
    }
  }

  /** A signal that is not ours to handle does nothing here. */
  lemma OtherSignalsPass(s: State, t: nat, sig: nat)
    requires Consistent(s) && s.outcome == Running
    requires sig !in s.caught || (s.lock == Free && s.initialized == 0 && !Doomed(s))
    ensures StepSignal(s, t, sig) == s
  {
    if sig in s.caught {
      SignalMeans(s, sig);
    }
  }

  /** No thread waits for good: a thread inside the library can go on, or the one that has the mutex can. */
  lemma SomeoneCanContinue(s: State, t: nat)
    requires Consistent(s) && s.outcome == Running && ThreadOf(s, t).pc != User && ThreadOf(s, t).frames == []
    ensures Enabled(s, t, Continue)
         || exists u :: s.lock == HeldBy(u) && (Enabled(s, u, Continue) || Enabled(s, u, Handle))
  {
    if !Enabled(s, t, Continue) {
      var u := s.lock.thread;
      assert HoldsMutex(s.threads[u].pc);
      assert Enabled(s, u, Continue) || Enabled(s, u, Handle);
    }
  }

  /** Thread 0 in its section, with one caught signal. */
  function Protected(depth: nat): State {
    var thread := Thread(User, depth, 1, Slot(depth, true), 0, 0, 0, []);
    State([11], 1, Saved(map[11 := Was]), true, map[11 := Pass], Free, map[0 := thread], {}, 0, 1, 0, Running)
  }

  /** Thread 0 about to replace the first handler. */
  lemma SetupReachesInstall() returns (run: seq<Event>, end: State)
    ensures RunsTo(Initial([11]), run, end)
    ensures end == Initial([11]).(initialized := 1, saOld := Saved(map[]), lock := HeldBy(0), stray := 1,
                                  threads := map[0 := Outside().(pc := Install(0))])
  {
    var s0 := Initial([11]);
    run, end := Go(s0, [], s0, 0, Try);
    run, end := Go(s0, run, end, 0, Continue);
    run, end := Go(s0, run, end, 0, Continue);
    run, end := Go(s0, run, end, 0, Continue);
  }

  /** Entering a section.  The very first query of the thread key is in vain. */
  lemma SetupReachesProtected() returns (run: seq<Event>)
    ensures RunsTo(Initial([11]), run, Protected(1))
  {
    var s0 := Initial([11]);
    var s;
    run, s := SetupReachesInstall();
    run, s := Go(s0, run, s, 0, Continue);
    run, s := Go(s0, run, s, 0, Continue);
    run, s := Go(s0, run, s, 0, Continue);
    run, s := Go(s0, run, s, 0, Continue);
    assert s == Protected(1);
  }

  /** A second thread that enters its section meanwhile queries the key in vain as well. */
  lemma KeyMissedDuringInstall() returns (run: seq<Event>, end: State)
    ensures RunsTo(Initial([11]), run, end) && Phase(end).Install? && end.stray == 2
  {
    var s0 := Initial([11]);
    run, end := SetupReachesInstall();
    run, end := Go(s0, run, end, 1, Try);
  }

  /** The leak does happen: a signal inside two nested sections, caught, and then the outer section closed. */
  lemma LeakIsReachable() returns (run: seq<Event>, end: State)
    ensures RunsTo(Initial([11]), run, end)
    ensures end.outcome == Running && AllOut(end) && end.initialized == 1 && HandlerOf(end, 11) == Default
  {
    var s0, s := Initial([11]), Protected(1);
    run := SetupReachesProtected();
    run, s := Go(s0, run, s, 0, Try);
    assert s == Protected(2);
    run, s := Caught(run, s, User);
    assert s.threads == map[0 := Thread(User, 1, 1, Slot(2, false), 1, 1, 0, [])];
    run, end := Go(s0, run, s, 0, End);
    assert end.threads == map[0 := Thread(User, 0, 1, Slot(1, false), 1, 1, 0, [])];
  }

  /** The signal arrives in thread 0, and its handler gets to look for the restore point. */
  lemma Handled(run0: seq<Event>, s: State) returns (run: seq<Event>, end: State)
    requires RunsTo(Initial([11]), run0, s) && s.outcome == Running && HandlerOf(s, 11) == Pass && s.saOld.Saved?
    requires 0 in s.threads && s.threads[0].frames == []
    ensures RunsTo(Initial([11]), run, end)
    ensures end == Put(s, 0, s.threads[0].(frames := [Frame(11, Query, s.closings)])).(
                     handlers := s.handlers[11 := Default], delivered := s.delivered + {11})
  {
    var s0 := Initial([11]);
    run, end := Go(s0, run0, s, 0, Signal(11));
    assert end.threads[0].frames == [Frame(11, CallOld, s.closings)];
    run, end := Go(s0, run, end, 0, Handle);
    assert end.threads[0].frames == [Frame(11, Reset, s.closings)];
    run, end := Go(s0, run, end, 0, Handle);
    assert end.threads[0].frames == [Frame(11, Query, s.closings)];
  }

  /** And jumps. */
  lemma Caught(run0: seq<Event>, s: State, pc: Pc) returns (run: seq<Event>, end: State)
    requires RunsTo(Initial([11]), run0, s) && s.outcome == Running && HandlerOf(s, 11) == Pass && s.saOld.Saved?
    requires 0 in s.threads && s.threads[0].frames == [] && HasContext(s.threads[0]) && s.threads[0].pc == pc && s.key
    ensures RunsTo(Initial([11]), run, end)
    ensures end == Put(s, 0, Landed(s.threads[0], s.threads[0].slot)).(
                     handlers := s.handlers[11 := Default], delivered := s.delivered + {11},
                     strandings := s.strandings + One(pc.Closing?))
  {
    run, end := Handled(run0, s);
    run, end := Go(Initial([11]), run, end, 0, Handle);
  }

  /** Thread 0 stranded: a signal between the two stores that close its section has put it into the section again. */
  function Stranded(): State {
    Protected(1).(threads := map[0 := Thread(User, 1, 1, Slot(0, false), 1, 0, 1, [])],
                  handlers := map[11 := Default], delivered := {11}, strandings := 1)
  }

  lemma StrandedIsReachable() returns (run: seq<Event>)
    ensures RunsTo(Initial([11]), run, Stranded())
  {
    var s0, s := Initial([11]), Protected(1);
    run := SetupReachesProtected();
    run, s := Go(s0, run, s, 0, End);
    run, s := Caught(run, s, Closing);
    assert s == Stranded();
  }

  /** The assertion does fail: the section is closed once more. */
  lemma FaultIsReachable() returns (run: seq<Event>, end: State)
    ensures RunsTo(Initial([11]), run, end) && end.outcome == Faulted
  {
    run := StrandedIsReachable();
    run, end := Go(Initial([11]), run, Stranded(), 0, End);
  }

  /** One thread does count twice: it opens a section in the catch block where it is stranded. */
  lemma DoubleCountIsReachable() returns (run: seq<Event>, end: State)
    ensures RunsTo(Initial([11]), run, end)
    ensures end.outcome == Running && end.threads.Keys == {0} && end.initialized == 2
  {
    var s0, s := Initial([11]), Stranded();
    run := StrandedIsReachable();
    run, s := Go(s0, run, s, 0, Try);
    run, s := Go(s0, run, s, 0, Continue);
    run, end := Go(s0, run, s, 0, Continue);
  }

  /** Two threads, of which thread 0 has been in the only section. */
  function Two(th: Thread, other: Thread): State {
    Protected(1).(threads := map[0 := th, 1 := other])
  }

  /** Thread 0 out of its section, at pc. */
  function Left(pc: Pc, other: Thread): State {
    Two(Thread(pc, 0, 1, Absent, 0, 0, 0, []), other)
  }

  lemma CloseStores(run0: seq<Event>, other: Thread) returns (run: seq<Event>)
    requires RunsTo(Initial([11]), run0, Put(Protected(1), 1, other))
    ensures RunsTo(Initial([11]), run, Two(Thread(Detach, 0, 1, Slot(0, false), 0, 0, 0, []), other))
  {
    var s0, s := Initial([11]), Put(Protected(1), 1, other);
    run, s := Go(s0, run0, s, 0, End);
    run, s := Go(s0, run, s, 0, Continue);
    assert s.threads == map[0 := Thread(Detach, 0, 1, Slot(0, false), 0, 0, 0, []), 1 := other];
  }

  lemma DetachAndLock(run0: seq<Event>, other: Thread) returns (run: seq<Event>)
    requires RunsTo(Initial([11]), run0, Two(Thread(Detach, 0, 1, Slot(0, false), 0, 0, 0, []), other))
    ensures RunsTo(Initial([11]), run, Left(CleanupGlobal, other).(lock := HeldBy(0)))
  {
    var s0, s := Initial([11]), Two(Thread(Detach, 0, 1, Slot(0, false), 0, 0, 0, []), other);
    run, s := Go(s0, run0, s, 0, Continue);
    run, s := Go(s0, run, s, 0, Continue);
    assert s.threads == map[0 := Thread(CleanupGlobal, 0, 1, Absent, 0, 0, 0, []), 1 := other];
  }

  lemma RestoreHandler(run0: seq<Event>, other: Thread) returns (run: seq<Event>)
    requires RunsTo(Initial([11]), run0, Left(CleanupGlobal, other).(lock := HeldBy(0)))
    ensures RunsTo(Initial([11]), run, Restored(Restore(1), other))
  {
    var s0, s := Initial([11]), Left(CleanupGlobal, other).(lock := HeldBy(0));
    run, s := Go(s0, run0, s, 0, Continue);
    run, s := Go(s0, run, s, 0, Continue);
    assert s.threads == map[0 := Thread(Restore(1), 0, 1, Absent, 0, 0, 0, []), 1 := other];
    assert s.handlers == map[11 := Was];
  }

  /** The state when all handlers are restored. */
  function Restored(pc: Pc, other: Thread): State {
    Left(pc, other).(lock := HeldBy(0), initialized := 0, handlers := map[11 := Was])
  }

  lemma FreeTable(run0: seq<Event>, other: Thread) returns (run: seq<Event>)
    requires RunsTo(Initial([11]), run0, Restored(Restore(1), other))
    ensures RunsTo(Initial([11]), run, Restored(DeleteKey, other).(saOld := Freed, closings := 1))
  {
    var s;
    run, s := Go(Initial([11]), run0, Restored(Restore(1), other), 0, Continue);
    assert s.threads == map[0 := Thread(DeleteKey, 0, 1, Absent, 0, 0, 0, []), 1 := other];
  }

  lemma LeaveLibrary(run0: seq<Event>, other: Thread) returns (run: seq<Event>)
    requires RunsTo(Initial([11]), run0, Restored(DeleteKey, other).(saOld := Freed, closings := 1))
    ensures RunsTo(Initial([11]), run, Closed(other))
  {
    var s0, s := Initial([11]), Restored(DeleteKey, other).(saOld := Freed, closings := 1);
    run, s := Go(s0, run0, s, 0, Continue);
    run, s := Go(s0, run, s, 0, Continue);
    assert s.threads == map[0 := Thread(User, 0, 1, Absent, 0, 0, 0, []), 1 := other];
  }

  /** Thread 0 is out, and the shared data is gone. */
  function Closed(other: Thread): State {
    Left(User, other).(initialized := 0, saOld := Freed, key := false, handlers := map[11 := Was], closings := 1)
  }

  /** Thread 0 closes the only section, while thread 1, outside of all sections, is in a handler. */
  lemma CloseAround(run0: seq<Event>, other: Thread) returns (run: seq<Event>)
    requires RunsTo(Initial([11]), run0, Put(Protected(1), 1, other))
    ensures RunsTo(Initial([11]), run, Closed(other))
  {
    run := CloseStores(run0, other);
    run := DetachAndLock(run, other);
    run := RestoreHandler(run, other);
    run := FreeTable(run, other);
    run := LeaveLibrary(run, other);
  }

  /** Thread 1 is hit by the signal outside of all sections. */
  lemma HitOutside() returns (run: seq<Event>, end: State)
    ensures RunsTo(Initial([11]), run, end)
    ensures end == Put(Protected(1), 1, Outside().(frames := [Frame(11, CallOld, 0)]))
  {
    run := SetupReachesProtected();
    run, end := Go(Initial([11]), run, Protected(1), 1, Signal(11));
    assert ThreadOf(end, 1).frames == [Frame(11, CallOld, 0)];
  }

  /** The freed table is read: thread 1 is hit by a signal, the only section closes, and then thread 1 goes on to
      call the old handler. */
  lemma BadTableIsReachable() returns (run: seq<Event>, end: State)
    ensures RunsTo(Initial([11]), run, end) && end.outcome == BadTable
  {
    var s;
    run, s := HitOutside();
    run := CloseAround(run, s.threads[1]);
    s := Closed(s.threads[1]);
    run, end := Go(Initial([11]), run, s, 1, Handle);
  }

  /** So it is before the next table is allocated, although the count is positive then. */
  lemma BadTableBeforeAllocation() returns (run: seq<Event>, before: State, end: State)
    ensures RunsTo(Initial([11]), run, end) && end.outcome == BadTable && end.initialized == 1
  {
    var s0, s := Initial([11]), Initial([11]);
    run, s := HitOutside();
    run := CloseAround(run, s.threads[1]);
    s := Closed(s.threads[1]);
    run, s := Go(s0, run, s, 0, Try);
    run, s := Go(s0, run, s, 0, Continue);
    run, before := Go(s0, run, s, 0, Continue);
    run, end := Go(s0, run, before, 1, Handle);
  }

  /** A thread that is bound to abort does overwrite the original handler: thread 1 has called the old handler, the only
      section closes, and then thread 1 resets the signal. */
  lemma OverwriteIsReachable() returns (run: seq<Event>, end: State)
    ensures RunsTo(Initial([11]), run, end)
    ensures end.outcome == Running && end.lock == Free && end.initialized == 0 && HandlerOf(end, 11) == Default
  {
    var s0, s := Initial([11]), Initial([11]);
    run, s := HitOutside();
    run, s := Go(s0, run, s, 1, Handle);
    assert s.threads[1].frames == [Frame(11, Reset, 0)];
    run := CloseAround(run, s.threads[1]);
    s := Closed(s.threads[1]);
    run, end := Go(s0, run, s, 1, Handle);
  }
}
