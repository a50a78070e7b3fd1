/** Who may signal, reap and read the daemon's leader process: the Driver of
    scripts/agentic_gate_driver.py as a state machine over the steps of its main thread (with the
    signal handler that can interrupt it anywhere), the memory sampler thread and the OS. */
module Ownership {
  import opened Wrappers

  datatype Leader = NotStarted | Running | Zombie | Reaped(own: bool)

  datatype Event =
    | Spawned
    | Signalled(kill: bool)          // killpg with SIGTERM or SIGKILL
    | Exited
    | OwnReap                        // waitpid by the driver
    | ForeignReap                    // reaped by someone else
    | StatusRead                     // /proc/<pid>/status gave a value
    | Reported(peak: Option<nat>)    // the record's peak, as the position of the read it came from

  datatype Lock = Free | HeldByMain(depth: nat) | HeldBySampler

  /** Where the interrupted code of the main thread is: what an exit unwinds to. */
  datatype Region = InStart | InTry | InFinally | InRecord

  /** Next step of the main thread. `reap` says whether closing the sampler leads to a reap. */
  datatype MainPc =
    | Spawning | Threading | Session | FinishWait
    | KillEntry | KillCheck(kill: bool) | KillSend(kill: bool) | KillWait(kill: bool)
    | LostMark | SurvivedMark
    | CloseEntry(last: bool, reap: bool) | CloseTimedOut(reap: bool) | CloseLocked(last: bool, reap: bool)
      | CloseProbe(reap: bool)
    | CloseRead(reap: bool) | CloseFold(reap: bool, read: nat) | CloseSet(reap: bool) | CloseRelease(reap: bool)
    | ReapWait | ReapStatus | ReapMark
    | Return | FinallyCheck | Joining | Recording | Finished

  datatype SamplerPc = SOff | SIdle | SLocked | SProbe | SReading | SGot(read: nat) | SFold(read: nat) | SRelease

  datatype State = State(
    main: MainPc, region: Region, inHandler: bool,
    leader: Leader, terminated: bool, returncodeKnown: bool, exitKnown: bool,
    memClosed: bool, memUnavailable: bool, lock: Lock, sampler: SamplerPc, peak: Option<nat>,
    log: seq<Event>,
    signalRaced: bool,  // a foreign reap fell before a group signal that is still to come or was sent
    readRaced: bool,    // a foreign reap fell between a state check and the status read it guards
    cut: bool)          // a signal was handled between the driver's waitpid and the recording of its status

  const INITIAL: State :=
    State(Spawning, InStart, false, NotStarted, false, false, false, false, false, Free, SOff, None, [], false, false,
      false)

  /** _leader_state() == "lost". */
  predicate Lost(s: State) {
    s.leader.NotStarted? || s.leader.Reaped? || s.returncodeKnown
  }

  datatype Action = Main(choice: bool) | Sampler(choice: bool) | Signal | LeaderExits | SomeoneReaps

  // ---- the main thread ----

  /** kill(): the next point. choice: a wait timed out. */
  function KillNext(s: State, choice: bool): MainPc {
    match s.main
    case KillEntry => if s.terminated || s.leader.NotStarted? then Return else KillCheck(false)
    case KillCheck(k) => if Lost(s) then LostMark else KillSend(k)
    case KillSend(k) => KillWait(k)
    case KillWait(k) =>
      if Lost(s) then LostMark
      else if s.leader.Zombie? then if k then CloseEntry(true, true) else KillCheck(true)
      else if choice then if k then SurvivedMark else KillCheck(true)
      else s.main
    case LostMark | SurvivedMark => CloseEntry(false, false)
    case _ => s.main
  }

  function KillStep(s: State, choice: bool): State {
    var marks := s.main.LostMark? || s.main.SurvivedMark?;
    s.(main := KillNext(s, choice),
       terminated := s.terminated || marks,
       exitKnown := s.exitKnown && !marks,
       log := if s.main.KillSend? then s.log + [Signalled(s.main.kill)] else s.log)
  }

  /** Where _close_mem_sampling returns to. */
  function AfterClose(reap: bool): MainPc {
    if reap then ReapWait else Return
  }

  /** _close_mem_sampling: the next point. choice: the lock wait timed out, or the read gave a value. */
  function CloseNext(s: State, choice: bool): MainPc {
    match s.main
    case CloseEntry(last, reap) =>
      if !s.lock.HeldBySampler? then CloseLocked(last, reap) else if choice then CloseTimedOut(reap) else s.main
    case CloseTimedOut(reap) => AfterClose(reap)
    case CloseLocked(last, reap) => if last && !s.memClosed then CloseProbe(reap) else CloseSet(reap)
    case CloseProbe(reap) => if Lost(s) then CloseSet(reap) else CloseRead(reap)
    case CloseRead(reap) => if choice then CloseFold(reap, |s.log|) else CloseSet(reap)
    case CloseFold(reap, i) => CloseSet(reap)
    case CloseSet(reap) => CloseRelease(reap)
    case CloseRelease(reap) => AfterClose(reap)
    case _ => s.main
  }

  /** The re-entrant lock, taken and released by the main thread. */
  function CloseLock(s: State): Lock {
    if s.main.CloseEntry? then
      match s.lock {
        case Free => HeldByMain(1)
        case HeldByMain(d) => HeldByMain(d + 1)
        case HeldBySampler => HeldBySampler
      }
    else if s.main.CloseRelease? then
      if s.lock.HeldByMain? && s.lock.depth > 1 then HeldByMain(s.lock.depth - 1) else Free
    else s.lock
  }

  /** The first value read, or the larger of two. */
  function Folded(peak: Option<nat>, i: nat, larger: bool): Option<nat> {
    if peak.None? || larger then Some(i) else peak
  }

  /** One step of _close_mem_sampling; at the fold, choice says that the value read is the larger one. */
  function CloseStep(s: State, choice: bool): State {
    s.(main := CloseNext(s, choice),
       lock := CloseLock(s),
       memUnavailable := s.memUnavailable || (s.main.CloseEntry? && s.lock.HeldBySampler? && choice),
       memClosed := s.memClosed || s.main.CloseTimedOut? || s.main.CloseSet?,
       peak := if s.main.CloseFold? && !s.memUnavailable then Folded(s.peak, s.main.read, choice) else s.peak,
       log := if s.main.CloseRead? && choice then s.log + [StatusRead] else s.log)
  }

  /** The waitpid of _reap finds the leader's status. */
  predicate Reaps(s: State) {
    s.main.ReapWait? && !s.returncodeKnown && s.leader.Zombie?
  }

  function ReapStep(s: State): State {
    s.(main :=
         match s.main {
           case ReapWait => if s.returncodeKnown then ReapMark else if s.leader.Zombie? then ReapStatus else Return
           case ReapStatus => ReapMark
           case ReapMark => Return
           case _ => s.main
         },
       leader := if Reaps(s) then Reaped(true) else s.leader,
       returncodeKnown := s.returncodeKnown || s.main.ReapStatus?,
       terminated := s.terminated || s.main.ReapMark?,
       exitKnown := s.exitKnown || s.main.ReapMark?,
       log := if Reaps(s) then s.log + [OwnReap] else s.log)
  }

  /** Leaving kill, _reap or _ownership_lost: on to the finally block, or, from the handler, the
      exit that unwinds the interrupted code and releases what it held. */
  function ReturnStep(s: State): State {
    s.(main :=
         match s.region {
           case InStart => Recording
           case InTry => FinallyCheck
           case InFinally => if s.inHandler then Recording else Joining
           case InRecord => Finished
         },
       region := if s.region.InTry? || (s.region.InFinally? && !s.inHandler) then InFinally else InRecord,
       inHandler := false,
       lock := if s.inHandler && s.lock.HeldByMain? then Free else s.lock)
  }

  /** run(): choice: the spawn succeeded, the session completed, or the wait timed out. */
  function SessionNext(s: State, choice: bool): MainPc {
    match s.main
    case Spawning => if choice then Threading else Recording
    case Threading => Session
    case Session => if choice then FinishWait else FinallyCheck
    case FinishWait =>
      if Lost(s) then LostMark
      else if s.leader.Zombie? then CloseEntry(true, true)
      else if choice then KillEntry
      else s.main
    case FinallyCheck => if s.terminated then Joining else KillEntry
    case Joining => Recording
    case Recording => Finished
    case _ => s.main
  }

  function SessionLog(s: State, choice: bool): seq<Event> {
    if s.main.Spawning? && choice then s.log + [Spawned]
    else if s.main.Recording? then s.log + [Reported(if s.memUnavailable then None else s.peak)]
    else s.log
  }

  function SessionStep(s: State, choice: bool): State {
    s.(main := SessionNext(s, choice),
       region :=
         match s.main {
           case Spawning => if choice then s.region else InRecord
           case Threading => InTry
           case Session => if choice then s.region else InFinally
           case Joining => InRecord
           case _ => s.region
         },
       leader := if s.main.Spawning? && choice then Running else s.leader,
       sampler := if s.main.Threading? then SIdle else s.sampler,
       log := SessionLog(s, choice))
  }

  function MainStep(s: State, choice: bool): State {
    match s.main
    case Spawning | Threading | Session | FinishWait | FinallyCheck | Joining | Recording
      | Finished => SessionStep(s, choice)
    case KillEntry | KillCheck(_) | KillSend(_) | KillWait(_) | LostMark | SurvivedMark => KillStep(s, choice)
    case ReapWait | ReapStatus | ReapMark => ReapStep(s)
    case Return => ReturnStep(s)
    case _ => CloseStep(s, choice)
  }

  // ---- the sampler, the handler, the OS ----

  /** The sampler's next point. choice: it is told to stop, or the read gave a value. */
  function SamplerNext(s: State, choice: bool): SamplerPc {
    match s.sampler
    case SOff => SOff
    case SIdle => if choice then SOff else if s.lock.Free? then SLocked else SIdle
    case SLocked => if s.memClosed then SRelease else SProbe
    case SProbe => if Lost(s) then SRelease else SReading
    case SReading => if choice then SGot(|s.log|) else SRelease
    case SGot(i) => if s.memUnavailable then SRelease else SFold(i)
    case SFold(i) => SRelease
    case SRelease => SIdle
  }

  /** One step of the sampler; at the fold, choice says that the value is the larger one. */
  function SamplerStep(s: State, choice: bool): State {
    s.(sampler := SamplerNext(s, choice),
       lock :=
         if s.sampler.SIdle? && !choice && s.lock.Free? then HeldBySampler
         else if s.sampler.SRelease? then Free
         else s.lock,
       peak := if s.sampler.SFold? then Folded(s.peak, s.sampler.read, choice) else s.peak,
       log := if s.sampler.SReading? && choice then s.log + [StatusRead] else s.log)
  }

  /** The leader is reaped and its status not yet recorded. */
  predicate Recovering(m: MainPc) {
    m.ReapStatus? || m.ReapMark?
  }

  /** A signal replaces whatever the main thread was doing by the handler's kill(). It is allowed
      everywhere, also where the driver blocks signals, because another thread may take delivery. */
  function SignalStep(s: State): State {
    if s.main.Finished? then s
    else s.(main := KillEntry, inHandler := true, cut := s.cut || Recovering(s.main),
            signalRaced := s.signalRaced && !InSignalWindow(s))
  }

  /** Between the check that the leader is ours and the group signal that relies on it. */
  predicate InSignalWindow(s: State) {
    s.main.KillSend?
  }

  /** Between the check that the leader is ours and the status read that relies on it. */
  predicate InReadWindow(s: State) {
    s.main.CloseRead? || s.sampler.SReading?
  }

  function Do(s: State, a: Action): State {
    match a
    case Main(choice) => MainStep(s, choice)
    case Sampler(choice) => SamplerStep(s, choice)
    case Signal => SignalStep(s)
    case LeaderExits => if s.leader.Running? then s.(leader := Zombie, log := s.log + [Exited]) else s
    case SomeoneReaps =>
      if s.leader.Zombie? then
        s.(leader := Reaped(false), log := s.log + [ForeignReap],
           signalRaced := s.signalRaced || InSignalWindow(s), readRaced := s.readRaced || InReadWindow(s))
      else s
  }

  /** The state after any interleaving of the threads, the handler and the OS. */
  function After(actions: seq<Action>): State {
    if actions == [] then INITIAL else Do(After(actions[..|actions| - 1]), actions[|actions| - 1])
  }

  /** The action moves the main thread: a step of its own, or the handler taking over. */
  predicate MovesMain(a: Action) {
    a.Main? || a.Signal?
  }

  /** Action i is a foreign reap inside a check-then-signal window. */
  predicate ReapsInWindow(actions: seq<Action>, i: nat) {
    && i < |actions| && actions[i] == SomeoneReaps
    && var s := After(actions[..i]); s.leader.Zombie? && InSignalWindow(s)
  }

  /** A foreign reap inside a check-then-signal window, and the main thread has not moved since. */
  ghost predicate RacePending(actions: seq<Action>) {
    exists i: nat :: ReapsInWindow(actions, i) && forall k :: i < k < |actions| ==> !MovesMain(actions[k])
  }

  /** A foreign reap inside a check-then-signal window after which the main thread's next move is its
      own step, so that it sends, and not the handler. */
  ghost predicate RaceRan(actions: seq<Action>) {
    exists i: nat, j: nat :: RanAt(actions, i, j)
  }

  ghost predicate RanAt(actions: seq<Action>, i: nat, j: nat) {
    && i < j < |actions| && ReapsInWindow(actions, i) && actions[j].Main?
    && forall k :: i < k < j ==> !MovesMain(actions[k])
  }

  // ---- what must hold ----

  predicate IsReap(e: Event) {
    e == OwnReap || e == ForeignReap
  }

  ghost predicate NoReapBefore(log: seq<Event>, i: nat) {
    forall k :: 0 <= k < i && k < |log| ==> !IsReap(log[k])
  }

  /** No group signal after a reap. */
  ghost predicate SignalsBeforeReap(log: seq<Event>) {
    forall i :: 0 <= i < |log| && log[i].Signalled? ==> NoReapBefore(log, i)
  }

  ghost predicate OneReap(log: seq<Event>) {
    forall i :: 0 <= i < |log| && IsReap(log[i]) ==> NoReapBefore(log, i)
  }

  /** Position i holds a status read made before any reap. */
  ghost predicate CleanRead(log: seq<Event>, i: nat) {
    i < |log| && log[i] == StatusRead && NoReapBefore(log, i)
  }

  /** A reported peak comes from a read made before any reap. */
  ghost predicate ReportsClean(log: seq<Event>) {
    forall i :: 0 <= i < |log| && log[i].Reported? && log[i].peak.Some? ==> CleanRead(log, log[i].peak.value)
  }

  // ---- the invariant ----

  predicate SamplerHolds(p: SamplerPc) {
    !p.SOff? && !p.SIdle?
  }

  /** Past the sampler's test of memClosed. */
  predicate SamplerInside(p: SamplerPc) {
    p.SProbe? || p.SReading? || p.SGot? || p.SFold?
  }

  predicate MainHolds(m: MainPc) {
    m.CloseLocked? || m.CloseProbe? || m.CloseRead? || m.CloseFold? || m.CloseSet? || m.CloseRelease?
  }

  ghost predicate LockInv(s: State) {
    && (s.lock.HeldBySampler? <==> SamplerHolds(s.sampler))
    && (s.lock.HeldByMain? ==> s.lock.depth >= 1)
    && (MainHolds(s.main) ==> s.lock.HeldByMain?)
    && (s.main.Spawning? || s.main.Threading? ==> s.sampler.SOff?)
  }

  /** The sampler is excluded before any reap by the driver, or the peak is given up. */
  ghost predicate CloseInv(s: State) {
    && (s.main.CloseRelease? || s.main.ReapWait? || s.main.ReapStatus? || s.main.ReapMark? ==> s.memClosed)
    && (s.leader == Reaped(true) ==> s.memClosed)
    && (s.main.CloseTimedOut? ==> s.memUnavailable)
    && (s.memClosed && !s.memUnavailable ==> !SamplerInside(s.sampler))
  }

  ghost predicate WindowInv(s: State) {
    && (s.main.KillSend? ==> (s.signalRaced <==> s.leader.Reaped?)) && (s.signalRaced ==> s.leader.Reaped?)
    && (!s.readRaced ==>
        && (s.main.CloseRead? ==> !s.leader.Reaped?)
        && (s.sampler.SReading? ==> !s.leader.Reaped? || s.memUnavailable))
  }

  /** The raced signal is still to come. */
  predicate Pending(s: State) {
    s.signalRaced && InSignalWindow(s)
  }

  /** The raced signal was sent. */
  predicate Sent(s: State) {
    s.signalRaced && !InSignalWindow(s)
  }

  ghost predicate LogInv(s: State) {
    && (NoReapBefore(s.log, |s.log|) <==> !s.leader.Reaped?)
    && OneReap(s.log) && (SignalsBeforeReap(s.log) <==> !Sent(s))
  }

  /** Read i was made before any reap, unless the peak is not going to be reported. */
  ghost predicate ReadOk(s: State, i: nat) {
    i < |s.log| && s.log[i] == StatusRead && (s.readRaced || s.memUnavailable || NoReapBefore(s.log, i))
  }

  ghost predicate PeakInv(s: State) {
    && (s.peak.Some? ==> ReadOk(s, s.peak.value))
    && (s.sampler.SGot? || s.sampler.SFold? ==> ReadOk(s, s.sampler.read))
    && (s.main.CloseFold? ==> ReadOk(s, s.main.read))
    && (!s.readRaced ==> ReportsClean(s.log))
  }

  /** Points reached only while the leader's fate is open. */
  predicate Undecided(m: MainPc) {
    || m.Spawning? || m.Threading? || m.Session? || m.FinishWait?
    || m.KillCheck? || m.KillSend? || m.KillWait? || m.LostMark? || m.SurvivedMark?
  }

  /** Points on the way to the driver's own waitpid. */
  predicate TowardsReap(m: MainPc) {
    || (m.CloseEntry? && m.reap) || (m.CloseTimedOut? && m.reap) || (m.CloseLocked? && m.reap)
      || (m.CloseProbe? && m.reap)
    || (m.CloseRead? && m.reap) || (m.CloseFold? && m.reap) || (m.CloseSet? && m.reap) || (m.CloseRelease? && m.reap)
    || m.ReapWait?
  }

  ghost predicate StatusInv(s: State) {
    && (s.returncodeKnown || s.exitKnown || s.main.ReapStatus? || s.main.ReapMark? ==> s.leader == Reaped(true))
    && (s.main.ReapMark? ==> s.returncodeKnown)
    && (Undecided(s.main) ==> !s.terminated)
    && (!s.cut && s.leader == Reaped(true) && !Recovering(s.main) ==> s.terminated && s.exitKnown)
    && (s.cut ==> s.leader == Reaped(true) && !s.exitKnown && !Recovering(s.main))
    && (TowardsReap(s.main) ==> s.leader != Reaped(true)) && (Recovering(s.main) ==> !s.exitKnown)
    && (s.main.Spawning? ==> s.leader.NotStarted?)
  }

  ghost predicate Inv(s: State) {
    LockInv(s) && CloseInv(s) && WindowInv(s) && LogInv(s) && PeakInv(s) && StatusInv(s)
  }

  // ---- log extension ----

  lemma {:induction false} Extend(log: seq<Event>, e: Event)
    ensures forall i: nat :: i <= |log| ==> (NoReapBefore(log + [e], i) <==> NoReapBefore(log, i))
    ensures NoReapBefore(log + [e], |log| + 1) <==> !IsReap(e) && NoReapBefore(log, |log|)
  {
    var more := log + [e];
    assert more[|log|] == e && forall k :: 0 <= k < |log| ==> more[k] == log[k];
  }

  /** What one more event keeps. */
  lemma {:induction false} ExtendKeeps(log: seq<Event>, e: Event)
    ensures OneReap(log) && (IsReap(e) ==> NoReapBefore(log, |log|)) ==> OneReap(log + [e])
    ensures SignalsBeforeReap(log + [e]) <==> SignalsBeforeReap(log) && (e.Signalled? ==> NoReapBefore(log, |log|))
    ensures ReportsClean(log) && (e.Reported? && e.peak.Some? ==> CleanRead(log, e.peak.value)) ==>
      ReportsClean(log + [e])
    ensures forall i: nat :: i < |log| ==>
      (log + [e])[i] == log[i]
      && (NoReapBefore(log + [e], i) <==> NoReapBefore(log, i))
  {
    Extend(log, e);
    var more := log + [e];
    assert more[|log|] == e && forall k :: 0 <= k < |log| ==> more[k] == log[k];
    hide NoReapBefore;
    assert forall i: nat :: CleanRead(log, i) ==> CleanRead(more, i);
  }

  lemma {:induction false} ReadsKeep(s: State, t: State, e: Event)
    requires t.log == s.log + [e] && (s.readRaced ==> t.readRaced) && (s.memUnavailable ==> t.memUnavailable)
    ensures forall i: nat :: ReadOk(s, i) ==> ReadOk(t, i)
  {
    ExtendKeeps(s.log, e);
  }

  // ---- every step keeps the invariant ----

  /** The part of the invariant that does not look into the log. */
  ghost predicate ControlInv(s: State) {
    LockInv(s) && CloseInv(s) && WindowInv(s) && StatusInv(s)
  }

  /** A read made now may be reported. */
  ghost predicate GoodRead(s: State, e: Event) {
    e == StatusRead && (s.readRaced || s.memUnavailable || !s.leader.Reaped?)
  }

  /** A step that logs nothing, keeps the leader, and takes over only good reads. */
  lemma {:induction false} QuietStep(s: State, t: State)
    requires LogInv(s) && PeakInv(s) && t.log == s.log && t.leader == s.leader
    requires Sent(t) == Sent(s) && t.readRaced == s.readRaced && (s.memUnavailable ==> t.memUnavailable)
    requires t.peak.Some? ==> t.peak == s.peak || ReadOk(s, t.peak.value)
    requires t.sampler.SGot? || t.sampler.SFold? ==> ReadOk(s, t.sampler.read)
    requires t.main.CloseFold? ==> ReadOk(s, t.main.read)
    ensures LogInv(t) && PeakInv(t)
  {
    hide NoReapBefore, OneReap, SignalsBeforeReap, ReportsClean;
  }

  /** A step that logs one event other than a reap. */
  lemma {:induction false} LoggedStep(s: State, t: State, e: Event)
    requires LogInv(s) && PeakInv(s) && t.log == s.log + [e] && !IsReap(e)
    requires (t.leader.Reaped? <==> s.leader.Reaped?) && t.readRaced == s.readRaced
    requires Sent(t) <==> Sent(s) || (e.Signalled? && s.leader.Reaped?)
    requires s.memUnavailable == t.memUnavailable && t.peak == s.peak
    requires e.Reported? && e.peak.Some? ==> !s.memUnavailable && e.peak == s.peak
    requires t.sampler.SGot? || t.sampler.SFold? ==>
      ReadOk(s, t.sampler.read) || (t.sampler.read == |s.log| && GoodRead(s, e))
    requires t.main.CloseFold? ==>
      ReadOk(s, t.main.read) || (t.main.read == |s.log| && GoodRead(s, e))
    ensures LogInv(t) && PeakInv(t)
  {
    hide NoReapBefore, OneReap, SignalsBeforeReap, ReportsClean;
    Extend(s.log, e);
    ExtendKeeps(s.log, e);
    ReadsKeep(s, t, e);
  }

  lemma {:induction false} ReapedStep(s: State, t: State, e: Event)
    requires LogInv(s) && PeakInv(s) && t.log == s.log + [e] && IsReap(e) && !s.leader.Reaped? && t.leader.Reaped?
    requires Sent(t) == Sent(s) && (s.readRaced ==> t.readRaced)
    requires s.memUnavailable == t.memUnavailable && t.peak == s.peak && t.sampler == s.sampler
    requires t.main.CloseFold? ==> t.main == s.main
    ensures LogInv(t) && PeakInv(t)
  {
    hide NoReapBefore, OneReap, SignalsBeforeReap, ReportsClean;
    Extend(s.log, e);
    ExtendKeeps(s.log, e);
    ReadsKeep(s, t, e);
  }

  lemma {:induction false} SessionKeeps(s: State, choice: bool)
    requires Inv(s)
    ensures Inv(SessionStep(s, choice))
  {
    var t := SessionStep(s, choice);
    assert ControlInv(t) by { hide LogInv, PeakInv; }
    hide LogInv, PeakInv, ReadOk;
    if s.main.Spawning? && choice {
      PeakParts(s);
      LoggedStep(s, t, Spawned);
    } else if s.main.Recording? {
      PeakParts(s);
      LoggedStep(s, t, Reported(if s.memUnavailable then None else s.peak));
    } else {
      PeakParts(s);
      QuietStep(s, t);
    }
  }

  lemma PeakParts(s: State)
    requires PeakInv(s)
    ensures s.peak.Some? ==> ReadOk(s, s.peak.value)
    ensures s.sampler.SGot? || s.sampler.SFold? ==> ReadOk(s, s.sampler.read)
    ensures s.main.CloseFold? ==> ReadOk(s, s.main.read)
  {
    hide ReadOk, ReportsClean;
  }

  lemma {:induction false} KillKeeps(s: State, choice: bool)
    requires Inv(s)
    ensures Inv(KillStep(s, choice))
  {
    var t := KillStep(s, choice);
    assert ControlInv(t) by { hide LogInv, PeakInv; }
    hide LogInv, PeakInv, ReadOk;
    PeakParts(s);
    if s.main.KillSend? {
      LoggedStep(s, t, Signalled(s.main.kill));
    } else {
      QuietStep(s, t);
    }
  }

  lemma {:induction false} CloseLockInv(s: State, choice: bool)
    requires LockInv(s)
    ensures LockInv(CloseStep(s, choice))
  {
  }

  lemma {:induction false} CloseExcludes(s: State, choice: bool)
    requires LockInv(s) && CloseInv(s)
    ensures CloseInv(CloseStep(s, choice))
  {
  }

  lemma {:induction false} CloseWindows(s: State, choice: bool)
    requires WindowInv(s) && StatusInv(s)
    ensures WindowInv(CloseStep(s, choice))
  {
  }

  lemma {:induction false} CloseStatus(s: State, choice: bool)
    requires StatusInv(s)
    ensures StatusInv(CloseStep(s, choice))
  {
  }

  lemma {:induction false} CloseControl(s: State, choice: bool)
    requires ControlInv(s)
    ensures ControlInv(CloseStep(s, choice))
  {
    hide LockInv, CloseInv, WindowInv, StatusInv, CloseStep;
    CloseLockInv(s, choice);
    CloseExcludes(s, choice);
    CloseWindows(s, choice);
    CloseStatus(s, choice);
  }

  lemma {:induction false} CloseKeeps(s: State, choice: bool)
    requires Inv(s)
    ensures Inv(CloseStep(s, choice))
  {
    var t := CloseStep(s, choice);
    CloseControl(s, choice);
    hide LogInv, PeakInv, ReadOk, LockInv, CloseInv, StatusInv;
    PeakParts(s);
    if s.main.CloseRead? && choice {
      LoggedStep(s, t, StatusRead);
    } else {
      QuietStep(s, t);
    }
  }

  lemma {:induction false} ReapKeeps(s: State)
    requires Inv(s)
    ensures Inv(ReapStep(s))
  {
    var t := ReapStep(s);
    assert ControlInv(t) by { hide LogInv, PeakInv; }
    hide LogInv, PeakInv, ReadOk;
    PeakParts(s);
    if Reaps(s) {
      ReapedStep(s, t, OwnReap);
    } else {
      QuietStep(s, t);
    }
  }

  lemma {:induction false} ReturnKeeps(s: State)
    requires Inv(s) && s.main.Return?
    ensures Inv(ReturnStep(s))
  {
    var t := ReturnStep(s);
    assert ControlInv(t) by { hide LogInv, PeakInv; }
    hide LogInv, PeakInv, ReadOk;
    PeakParts(s);
    QuietStep(s, t);
  }

  lemma {:induction false} SamplerKeeps(s: State, choice: bool)
    requires Inv(s)
    ensures Inv(SamplerStep(s, choice))
  {
    var t := SamplerStep(s, choice);
    assert ControlInv(t) by { hide LogInv, PeakInv; }
    hide LogInv, PeakInv, ReadOk;
    PeakParts(s);
    if s.sampler.SReading? && choice {
      LoggedStep(s, t, StatusRead);
    } else {
      QuietStep(s, t);
    }
  }

  lemma {:induction false} SignalKeeps(s: State)
    requires Inv(s)
    ensures Inv(SignalStep(s))
  {
    var t := SignalStep(s);
    assert ControlInv(t) by { hide LogInv, PeakInv; }
    hide LogInv, PeakInv, ReadOk;
    PeakParts(s);
    QuietStep(s, t);
  }

  lemma {:induction false} SystemKeeps(s: State, a: Action)
    requires Inv(s) && (a == LeaderExits || a == SomeoneReaps)
    ensures Inv(Do(s, a))
  {
    var t := Do(s, a);
    assert ControlInv(t) by { hide LogInv, PeakInv; }
    hide LogInv, PeakInv, ReadOk;
    PeakParts(s);
    if a == LeaderExits && s.leader.Running? {
      LoggedStep(s, t, Exited);
    } else if a == SomeoneReaps && s.leader.Zombie? {
      ReapedStep(s, t, ForeignReap);
    }
  }

  lemma {:induction false} StepKeeps(s: State, a: Action)
    requires Inv(s)
    ensures Inv(Do(s, a))
  {
    hide Inv, SessionStep, KillStep, CloseStep, ReapStep, ReturnStep, SamplerStep, SignalStep;
    match a
    case Main(choice) =>
      SessionKeeps(s, choice);
      KillKeeps(s, choice);
      CloseKeeps(s, choice);
      ReapKeeps(s);
      if s.main.Return? {
        ReturnKeeps(s);
      }
    case Sampler(choice) => SamplerKeeps(s, choice);
    case Signal => SignalKeeps(s);
    case LeaderExits => SystemKeeps(s, a);
    case SomeoneReaps => SystemKeeps(s, a);
  }

  lemma InitialHolds()
    ensures Inv(INITIAL)
  {
  }

  lemma {:induction false} AlwaysInv(actions: seq<Action>)
    ensures Inv(After(actions))
  {
    hide Inv, Do;
    if actions == [] {
      InitialHolds();
    } else {
      AlwaysInv(actions[..|actions| - 1]);
      StepKeeps(After(actions[..|actions| - 1]), actions[|actions| - 1]);
    }
  }

  // ---- the races of a schedule ----

  /** A main-thread step keeps the flag and leaves the window; it enters one only past a check. */
  lemma {:induction false} MainRace(s: State, choice: bool)
    ensures var t := MainStep(s, choice);
      t.signalRaced == s.signalRaced && (InSignalWindow(t) ==> !InSignalWindow(s) && !s.leader.Reaped?)
  {
    SessionRace(s, choice);
    KillRace(s, choice);
    CloseRace(s, choice);
    ReapRace(s);
    hide SessionStep, KillStep, CloseStep, ReapStep;
  }

  lemma SessionRace(s: State, choice: bool)
    ensures var t := SessionStep(s, choice);
      t.signalRaced == s.signalRaced && (t.main.KillSend? ==> t.main == s.main)
  {
    hide SessionLog;
  }

  lemma KillRace(s: State, choice: bool)
    ensures var t := KillStep(s, choice);
      t.signalRaced == s.signalRaced && (t.main.KillSend? ==> t.main == s.main || (s.main.KillCheck? && !Lost(s)))
      && (s.main.KillSend? ==> !t.main.KillSend?)
  {
  }

  lemma CloseRace(s: State, choice: bool)
    ensures var t := CloseStep(s, choice);
      t.signalRaced == s.signalRaced && (t.main.KillSend? ==> t.main == s.main)
  {
    hide CloseLock, Folded;
  }

  lemma ReapRace(s: State)
    ensures var t := ReapStep(s);
      t.signalRaced == s.signalRaced && (t.main.KillSend? ==> t.main == s.main)
  {
  }

  lemma {:induction false} RaceStep(s: State, a: Action)
    requires ControlInv(s)
    ensures Pending(Do(s, a)) <==>
      (a == SomeoneReaps && s.leader.Zombie? && InSignalWindow(s)) || (Pending(s) && !MovesMain(a))
    ensures Sent(Do(s, a)) <==> Sent(s) || (Pending(s) && a.Main?)
  {
    hide ControlInv, MainStep, SamplerNext, Folded;
    WindowFacts(s);
    if a.Main? {
      MainRace(s, a.choice);
    }
  }

  lemma WindowFacts(s: State)
    requires ControlInv(s)
    ensures (s.main.KillSend? ==> (s.signalRaced <==> s.leader.Reaped?)) && (s.signalRaced ==> s.leader.Reaped?)
  {
    hide LockInv, CloseInv, StatusInv;
  }

  lemma {:induction false} WindowPrefix(actions: seq<Action>, i: nat)
    requires actions != [] && i < |actions| - 1
    ensures ReapsInWindow(actions, i) <==> ReapsInWindow(actions[..|actions| - 1], i)
  {
    hide After;
    assert actions[..|actions| - 1][..i] == actions[..i];
  }

  lemma {:induction false} PendingStep(actions: seq<Action>)
    requires actions != []
    ensures var pre, n := actions[..|actions| - 1], |actions| - 1;
      RacePending(actions) <==> ReapsInWindow(actions, n) || (RacePending(pre) && !MovesMain(actions[n]))
  {
    hide ReapsInWindow, MovesMain;
    var pre, n := actions[..|actions| - 1], |actions| - 1;
    forall i: nat | i < n
      ensures ReapsInWindow(actions, i) <==> ReapsInWindow(pre, i)
    {
      WindowPrefix(actions, i);
    }
    if RacePending(actions) && !ReapsInWindow(actions, n) {
      var i: nat :| ReapsInWindow(actions, i) && forall k :: i < k < |actions| ==> !MovesMain(actions[k]);
      InRange(actions, i);
      assert forall k :: i < k < n ==> pre[k] == actions[k];
    }
    if RacePending(pre) && !MovesMain(actions[n]) {
      var i: nat :| ReapsInWindow(pre, i) && forall k :: i < k < |pre| ==> !MovesMain(pre[k]);
      InRange(pre, i);
      assert forall k :: i < k < n ==> pre[k] == actions[k];
    }
  }

  lemma InRange(actions: seq<Action>, i: nat)
    requires ReapsInWindow(actions, i)
    ensures i < |actions|
  {
    hide After;
  }

  lemma {:induction false} RanStep(actions: seq<Action>)
    requires actions != []
    ensures var pre, n := actions[..|actions| - 1], |actions| - 1;
      RaceRan(actions) <==> RaceRan(pre) || (RacePending(pre) && actions[n].Main?)
  {
    hide ReapsInWindow, MovesMain;
    var pre, n := actions[..|actions| - 1], |actions| - 1;
    assert forall k :: 0 <= k < n ==> pre[k] == actions[k];
    forall i: nat | i < n
      ensures ReapsInWindow(actions, i) <==> ReapsInWindow(pre, i)
    {
      WindowPrefix(actions, i);
    }
    if RaceRan(actions) {
      var i: nat, j: nat :| RanAt(actions, i, j);
      assert j < n ==> RanAt(pre, i, j);
    }
    if RaceRan(pre) {
      var i: nat, j: nat :| RanAt(pre, i, j);
      assert RanAt(actions, i, j);
    }
    if RacePending(pre) && actions[n].Main? {
      var i: nat :| ReapsInWindow(pre, i) && forall k :: i < k < |pre| ==> !MovesMain(pre[k]);
      InRange(pre, i);
      assert RanAt(actions, i, n);
    }
  }

  /** The flag of the state tells the races of the schedule apart. */
  lemma {:induction false} RacesOf(actions: seq<Action>)
    ensures Pending(After(actions)) <==> RacePending(actions)
    ensures Sent(After(actions)) <==> RaceRan(actions)
  {
    if actions == [] {
      assert !Pending(INITIAL) && !Sent(INITIAL);
      hide Do;
    } else {
      hide Do, Inv, RacePending, RaceRan, Pending, Sent, InSignalWindow;
      var pre, n := actions[..|actions| - 1], |actions| - 1;
      RacesOf(pre);
      PendingStep(actions);
      RanStep(actions);
      AlwaysInv(pre);
      ControlOf(After(pre));
      RaceStep(After(pre), actions[n]);
      assert actions[..n] == pre;
    }
  }

  lemma ControlOf(s: State)
    requires Inv(s)
    ensures ControlInv(s)
  {
  }

  // ---- closing the sampler ----

  /** The main thread is past its test that sampling is still open, with a read still to make or to take over. */
  predicate LastRead(m: MainPc) {
    m.CloseProbe? || m.CloseRead? || m.CloseFold?
  }

  /** The last read is made before closing, and outside the handler the main thread holds the lock only while it
      closes, once. */
  ghost predicate ClosingInv(s: State) {
    && (LastRead(s.main) ==> !s.memClosed)
    && (s.lock.HeldByMain? && !s.inHandler ==> MainHolds(s.main) && s.lock.depth == 1)
    && (InRun(s.main) ==> !s.inHandler)
  }

  /** The points of run() itself. */
  predicate InRun(m: MainPc) {
    || m.Spawning? || m.Threading? || m.Session? || m.FinishWait?
    || m.FinallyCheck? || m.Joining? || m.Recording? || m.Finished?
  }

  lemma {:induction false} ClosingSession(s: State, choice: bool)
    requires ClosingInv(s)
    ensures ClosingInv(SessionStep(s, choice))
  {
    hide SessionLog;
  }

  lemma {:induction false} ClosingKill(s: State, choice: bool)
    requires ClosingInv(s)
    ensures ClosingInv(KillStep(s, choice))
  {
  }

  lemma {:induction false} ClosingReap(s: State)
    requires ClosingInv(s)
    ensures ClosingInv(ReapStep(s))
  {
  }

  lemma {:induction false} ClosingReturn(s: State)
    requires ClosingInv(s) && s.main.Return?
    ensures ClosingInv(ReturnStep(s))
  {
  }

  lemma {:induction false} ClosingRead(s: State, choice: bool)
    requires ClosingInv(s)
    ensures var t := CloseStep(s, choice);
      (LastRead(t.main) ==> !t.memClosed) && (InRun(t.main) ==> !t.inHandler)
  {
    hide Folded, CloseLock;
  }

  lemma {:induction false} ClosingLock(s: State, choice: bool)
    requires ClosingInv(s) && LockInv(s)
    ensures var t := CloseStep(s, choice);
      t.lock.HeldByMain? && !t.inHandler ==> MainHolds(t.main) && t.lock.depth == 1
  {
    hide Folded;
  }

  lemma {:induction false} ClosingMain(s: State, choice: bool)
    requires ClosingInv(s) && LockInv(s)
    ensures ClosingInv(MainStep(s, choice))
  {
    hide SessionStep, KillStep, CloseStep, ReapStep, ReturnStep, LockInv;
    assert ClosingInv(CloseStep(s, choice)) by {
      ClosingRead(s, choice);
      ClosingLock(s, choice);
    }
    hide ClosingInv;
    ClosingSession(s, choice);
    ClosingKill(s, choice);
    ClosingReap(s);
    if s.main.Return? {
      ClosingReturn(s);
    }
  }

  lemma {:induction false} ClosingSampler(s: State, choice: bool)
    requires ClosingInv(s) && LockInv(s)
    ensures ClosingInv(SamplerStep(s, choice))
  {
    hide Folded;
  }

  lemma {:induction false} ClosingStep(s: State, a: Action)
    requires ClosingInv(s) && LockInv(s)
    ensures ClosingInv(Do(s, a))
  {
    hide MainStep, SamplerStep, LockInv;
    match a
    case Main(choice) =>
      hide ClosingInv;
      ClosingMain(s, choice);
    case Sampler(choice) =>
      hide ClosingInv;
      ClosingSampler(s, choice);
    case _ =>
  }

  lemma {:induction false} AlwaysClosing(actions: seq<Action>)
    ensures ClosingInv(After(actions))
  {
    hide Do, Inv, ClosingInv;
    if actions == [] {
      assert ClosingInv(INITIAL) by { NothingHeld(); }
    } else {
      AlwaysClosing(actions[..|actions| - 1]);
      AlwaysInv(actions[..|actions| - 1]);
      assert LockInv(After(actions[..|actions| - 1])) by { LockOf(After(actions[..|actions| - 1])); }
      ClosingStep(After(actions[..|actions| - 1]), actions[|actions| - 1]);
    }
  }

  lemma NothingHeld()
    ensures ClosingInv(INITIAL)
  {
  }

  lemma LockOf(s: State)
    requires Inv(s)
    ensures LockInv(s) && CloseInv(s)
  {
    hide WindowInv, LogInv, PeakInv, StatusInv;
  }

  /** t follows s without a status read and with the same peak. */
  ghost predicate Unread(s: State, t: State) {
    && (s.memClosed ==> t.memClosed) && t.peak == s.peak && |s.log| <= |t.log| <= |s.log| + 1
    && forall i :: |s.log| <= i < |t.log| ==> t.log[i] != StatusRead
  }

  lemma {:induction false} SessionUnread(s: State, choice: bool)
    ensures Unread(s, SessionStep(s, choice))
  {
  }

  lemma {:induction false} KillUnread(s: State, choice: bool)
    ensures Unread(s, KillStep(s, choice))
  {
  }

  lemma {:induction false} CloseUnread(s: State, choice: bool)
    requires !LastRead(s.main)
    ensures Unread(s, CloseStep(s, choice))
  {
    hide Folded, CloseLock;
  }

  lemma {:induction false} ReapUnread(s: State)
    ensures Unread(s, ReapStep(s)) && Unread(s, ReturnStep(s))
  {
  }

  lemma {:induction false} SamplerUnread(s: State, choice: bool)
    requires !SamplerInside(s.sampler)
    ensures Unread(s, SamplerStep(s, choice))
  {
    hide Folded;
  }

  lemma {:induction false} SystemUnread(s: State, a: Action)
    requires !a.Main? && !a.Sampler?
    ensures Unread(s, Do(s, a))
  {
    hide MainStep, SamplerStep, SignalStep, Unread;
    match a
    case Signal => SignalUnread(s);
    case LeaderExits =>
      OneMoreUnread(s, s.(leader := Zombie, log := s.log + [Exited]), Exited);
      SameUnread(s, s);
    case SomeoneReaps =>
      OneMoreUnread(s, Do(s, a), ForeignReap);
      SameUnread(s, s);
  }

  lemma SignalUnread(s: State)
    ensures Unread(s, SignalStep(s))
  {
  }

  lemma SameUnread(s: State, t: State)
    ensures s.memClosed == t.memClosed && t.peak == s.peak && t.log == s.log ==> Unread(s, t)
  {
  }

  lemma OneMoreUnread(s: State, t: State, e: Event)
    requires e != StatusRead
    ensures s.memClosed == t.memClosed && t.peak == s.peak && t.log == s.log + [e] ==> Unread(s, t)
  {
  }

  lemma {:induction false} ClosedStep(s: State, a: Action)
    requires ClosingInv(s) && CloseInv(s) && s.memClosed && !s.memUnavailable
    ensures Unread(s, Do(s, a))
  {
    assert !LastRead(s.main) && !SamplerInside(s.sampler);
    hide *;
    match a
    case Main(choice) => MainUnread(s, choice);
    case Sampler(choice) =>
      SamplerUnread(s, choice);
      SamplerDoes(s, choice);
    case _ => SystemUnread(s, a);
  }

  lemma SamplerDoes(s: State, choice: bool)
    ensures Do(s, Sampler(choice)) == SamplerStep(s, choice) && Do(s, Main(choice)) == MainStep(s, choice)
  {
    hide SamplerStep, MainStep;
  }

  lemma {:induction false} MainUnread(s: State, choice: bool)
    requires !LastRead(s.main)
    ensures Unread(s, Do(s, Main(choice)))
  {
    SamplerDoes(s, choice);
    hide SessionStep, KillStep, CloseStep, ReapStep, ReturnStep, Unread, LastRead, Do;
    SessionUnread(s, choice);
    KillUnread(s, choice);
    CloseUnread(s, choice);
    ReapUnread(s);
  }

  /** Once sampling is closed and the sampler was excluded in time, no status is read and the peak stays. */
  lemma {:induction false} ClosedForGood(actions: seq<Action>, a: Action)
    requires After(actions).memClosed && !After(actions).memUnavailable
    ensures var s, t := After(actions), After(actions + [a]);
      && t.memClosed && t.peak == s.peak && |s.log| <= |t.log| <= |s.log| + 1
      && forall i :: |s.log| <= i < |t.log| ==> t.log[i] != StatusRead
  {
    assert (actions + [a])[..|actions|] == actions;
    AlwaysClosing(actions);
    AlwaysInv(actions);
    LockOf(After(actions));
    hide Inv, ClosingInv, LockInv, CloseInv, Do;
    ClosedStep(After(actions), a);
  }

  /** t follows s, given up, with no new peak. */
  ghost predicate Discarded(s: State, t: State) {
    && t.memUnavailable && t.peak == s.peak
    && forall i :: |s.log| <= i < |t.log| && t.log[i].Reported? ==> t.log[i].peak == None
  }

  lemma {:induction false} MainDiscards(s: State, choice: bool)
    requires s.memUnavailable
    ensures Discarded(s, SessionStep(s, choice)) && Discarded(s, KillStep(s, choice))
    ensures Discarded(s, ReapStep(s)) && Discarded(s, ReturnStep(s))
  {
    hide SessionNext, KillNext;
  }

  lemma {:induction false} CloseDiscards(s: State, choice: bool)
    requires s.memUnavailable
    ensures Discarded(s, CloseStep(s, choice))
  {
    hide CloseNext, CloseLock, Folded;
  }

  lemma {:induction false} SamplerDiscards(s: State, choice: bool)
    requires s.memUnavailable && !s.sampler.SFold?
    ensures Discarded(s, SamplerStep(s, choice)) && !SamplerStep(s, choice).sampler.SFold?
  {
    hide Folded;
  }

  /** Once the sampler could not be excluded, no value is folded into the peak any more, unless the sampler had
      already tested for that, and what is reported is that there is none. */
  lemma {:induction false} GivenUp(s: State, a: Action)
    requires s.memUnavailable && !s.sampler.SFold?
    ensures var t := Do(s, a);
      && t.memUnavailable && t.peak == s.peak
      && forall i :: |s.log| <= i < |t.log| && t.log[i].Reported? ==> t.log[i].peak == None
  {
    hide Do;
    DoDiscards(s, a);
  }

  lemma {:induction false} DoDiscards(s: State, a: Action)
    requires s.memUnavailable && !s.sampler.SFold?
    ensures Discarded(s, Do(s, a))
  {
    hide MainStep, SamplerStep, SignalStep, Discarded;
    match a
    case Main(choice) => StepDiscards(s, choice);
    case Sampler(choice) => SamplerDiscards(s, choice);
    case Signal => SignalDiscards(s);
    case _ => EventDiscards(s, Do(s, a));
  }

  lemma SignalDiscards(s: State)
    requires s.memUnavailable
    ensures Discarded(s, SignalStep(s))
  {
  }

  lemma EventDiscards(s: State, t: State)
    requires s.memUnavailable && t.memUnavailable && t.peak == s.peak
    requires t.log == s.log || t.log == s.log + [Exited] || t.log == s.log + [ForeignReap]
    ensures Discarded(s, t)
  {
  }

  lemma {:induction false} StepDiscards(s: State, choice: bool)
    requires s.memUnavailable
    ensures Discarded(s, MainStep(s, choice))
  {
    hide SessionStep, KillStep, CloseStep, ReapStep, ReturnStep, Discarded;
    MainDiscards(s, choice);
    CloseDiscards(s, choice);
  }

  /** Leaving the close gives the lock back as it was when entering it, at any depth. */
  lemma {:induction false} LockBalanced(s: State, last: bool, reap: bool, choice: bool)
    requires s.main == CloseEntry(last, reap) && !s.lock.HeldBySampler? && (s.lock.HeldByMain? ==> s.lock.depth >= 1)
    ensures var t := CloseStep(s, choice);
      && t.main == CloseLocked(last, reap) && t.lock.HeldByMain?
      && t.lock.depth == (if s.lock.HeldByMain? then s.lock.depth + 1 else 1)
      && CloseStep(t.(main := CloseRelease(reap)), choice).lock == s.lock
  {
  }

  /** A finished run has let go of the lock and left the handler. */
  lemma {:induction false} LockReleased(actions: seq<Action>)
    requires After(actions).main.Finished?
    ensures !After(actions).lock.HeldByMain? && !After(actions).inHandler
  {
    hide After;
    AlwaysClosing(actions);
  }

  // ---- the theorems ----

  /** Over every interleaving, with signals handled anywhere: the leader is reaped at most once; a group
      signal follows a reap exactly if someone else reaped inside a check-then-signal window and the main
      thread went on to send; and a reported peak comes from a read made before the reap unless someone
      else reaped inside a check-then-read window. */
  lemma {:induction false} OwnershipSafe(actions: seq<Action>)
    ensures var s := After(actions);
      && OneReap(s.log)
      && (SignalsBeforeReap(s.log) <==> !RaceRan(actions))
      && (!s.readRaced ==> ReportsClean(s.log))
  {
    hide After, RaceRan, Sent, OneReap, SignalsBeforeReap, ReportsClean;
    AlwaysInv(actions);
    RacesOf(actions);
  }

  /** An exit status is recorded only for a leader the driver reaped itself; and a finished driver
      that reaped it has recorded the status exactly if no signal was handled between the waitpid
      and the recording. */
  lemma {:induction false} StatusIsReal(actions: seq<Action>)
    ensures var s := After(actions);
      && (s.exitKnown ==> s.leader == Reaped(true))
      && (s.main.Finished? && s.leader == Reaped(true) ==> (s.exitKnown <==> !s.cut))
  {
    hide After;
    AlwaysInv(actions);
  }

  // ---- why the conditions matter: runs that fail without them ----

  ghost predicate Reached(s: State) {
    exists actions :: After(actions) == s
  }

  lemma {:induction false} ReachMore(s: State, a: Action)
    requires Reached(s)
    ensures Reached(Do(s, a))
  {
    hide Do;
    var actions :| After(actions) == s;
    assert (actions + [a])[..|actions|] == actions;
    assert After(actions + [a]) == Do(s, a);
  }

  lemma {:induction false} MainMove(s: State, choice: bool, t: State)
    requires Reached(s) && MainStep(s, choice) == t
    ensures Reached(t)
  {
    hide MainStep, Reached;
    ReachMore(s, Main(choice));
  }

  /** A step of kill. */
  lemma {:induction false} KillMove(s: State, choice: bool, t: State)
    requires Reached(s) && KillStep(s, choice) == t && (s.main.KillEntry? || s.main.KillCheck?)
    ensures Reached(t)
  {
    hide CloseStep, Reached, SessionStep, KillStep, ReapStep, ReturnStep;
    MainMove(s, choice, t);
  }

  /** A step of _close_mem_sampling. */
  lemma {:induction false} CloseMove(s: State, choice: bool, t: State)
    requires Reached(s) && CloseStep(s, choice) == t
    requires s.main.CloseEntry? || s.main.CloseTimedOut? || MainHolds(s.main)
    ensures Reached(t)
  {
    hide CloseStep, Reached, SessionStep, KillStep, ReapStep, ReturnStep;
    MainMove(s, choice, t);
  }

  lemma {:induction false} SamplerMove(s: State, choice: bool, t: State)
    requires Reached(s) && SamplerStep(s, choice) == t
    ensures Reached(t)
  {
    hide SamplerStep, Reached, MainStep;
    ReachMore(s, Sampler(choice));
  }

  /** The leader exits, and perhaps someone else reaps it. */
  lemma {:induction false} SystemMove(s: State, reap: bool, t: State)
    requires Reached(s) && s.leader.Running?
    requires
      var a := s.(leader := Zombie, log := s.log + [Exited]);
      t == if reap then a.(leader := Reaped(false), log := a.log + [ForeignReap],
                           signalRaced := a.signalRaced || InSignalWindow(a),
                           readRaced := a.readRaced || InReadWindow(a)) else a
    ensures Reached(t)
  {
    hide Reached, MainStep, SamplerStep, SignalStep;
    var a := s.(leader := Zombie, log := s.log + [Exited]);
    ReachMore(s, LeaderExits);
    if reap {
      ReachMore(a, SomeoneReaps);
    }
  }

  /** The daemon runs and the session has begun. */
  const BEGUN: State := INITIAL.(main := Session, region := InTry, leader := Running, sampler := SIdle,
    log := [Spawned])

  lemma {:induction false} ReachBegun()
    ensures Reached(BEGUN)
  {
    assert After([]) == INITIAL;
    hide After;
    var a := INITIAL.(main := Threading, leader := Running, log := [Spawned]);
    MainMove(INITIAL, true, a);
    hide Reached;
    MainMove(a, true, BEGUN);
  }

  /** The session fails. */
  lemma {:induction false} ReachKillEntry(s: State) returns (t: State)
    requires Reached(s) && s.main == Session && !s.terminated
    ensures t == s.(main := KillEntry, region := InFinally) && Reached(t)
  {
    hide Reached, KillStep, ReapStep, ReturnStep, CloseStep;
    var a := s.(main := FinallyCheck, region := InFinally);
    t := a.(main := KillEntry);
    MainMove(s, false, a);
    MainMove(a, true, t);
  }

  /** kill() looks at the leader. */
  lemma {:induction false} ReachKillCheck(s: State) returns (t: State)
    requires Reached(s) && s.main == KillEntry && !s.terminated && !s.leader.NotStarted?
    ensures t == s.(main := if Lost(s) then LostMark else KillSend(false)) && Reached(t)
  {
    hide Reached, MainStep;
    var a := s.(main := KillCheck(false));
    t := a.(main := if Lost(s) then LostMark else KillSend(false));
    KillMove(s, true, a);
    KillMove(a, true, t);
  }

  /** kill() finds that the leader is gone, gives up its status, and closes the sampling. */
  lemma {:induction false} ReachLost(s: State) returns (t: State)
    requires Reached(s) && s.main == KillEntry && !s.terminated && s.leader.Reaped? && s.lock.Free?
    ensures t == s.(main := Return, terminated := true, exitKnown := false, memClosed := true) && Reached(t)
  {
    hide Reached, SessionStep, ReapStep, ReturnStep, CloseStep;
    var a := ReachKillCheck(s);
    var b := s.(main := CloseEntry(false, false), terminated := true, exitKnown := false);
    MainMove(a, true, b);
    t := ReachClosed(b);
  }

  lemma {:induction false} ReachClosed(s: State) returns (t: State)
    requires Reached(s) && s.main == CloseEntry(false, false) && s.lock.Free?
    ensures t == s.(main := Return, memClosed := true) && Reached(t)
  {
    hide Reached, MainStep, CloseStep;
    var b := ReachSet(s);
    t := ReachReleased(b);
  }

  lemma {:induction false} ReachSet(s: State) returns (t: State)
    requires Reached(s) && s.main == CloseEntry(false, false) && s.lock.Free?
    ensures t == s.(main := CloseSet(false), lock := HeldByMain(1)) && Reached(t)
  {
    hide Reached, MainStep;
    var a := s.(main := CloseLocked(false, false), lock := HeldByMain(1));
    CloseMove(s, true, a);
    t := a.(main := CloseSet(false));
    CloseMove(a, true, t);
  }

  lemma {:induction false} ReachReleased(s: State) returns (t: State)
    requires Reached(s) && s.main.CloseSet? && s.lock == HeldByMain(1)
    ensures t == s.(main := AfterClose(s.main.reap), lock := Free, memClosed := true) && Reached(t)
  {
    hide Reached, MainStep;
    var a := s.(main := CloseRelease(s.main.reap), memClosed := true);
    CloseMove(s, true, a);
    t := s.(main := AfterClose(s.main.reap), lock := Free, memClosed := true);
    CloseMove(a, true, t);
  }

  /** The end of the finally block: the record is written. */
  lemma {:induction false} ReachEnd(s: State) returns (t: State)
    requires Reached(s) && s.main == Joining && !s.memUnavailable
    ensures t == s.(main := Finished, region := InRecord, log := s.log + [Reported(s.peak)]) && Reached(t)
  {
    hide Reached, KillStep, ReapStep, ReturnStep, CloseStep;
    var a := s.(main := Recording, region := InRecord);
    t := a.(main := Finished, log := s.log + [Reported(s.peak)]);
    MainMove(s, true, a);
    MainMove(a, true, t);
  }

  lemma {:induction false} ReachedBy(s: State) returns (actions: seq<Action>)
    requires Reached(s)
    ensures After(actions) == s
  {
    actions :| After(actions) == s;
  }

  /** The leader exits and is reaped by someone else between the driver's check and its signal, and
      the signal follows the reap. */
  lemma {:induction false} RaceBreaks()
    ensures exists actions :: var s := After(actions);
      RaceRan(actions) && !s.readRaced && !SignalsBeforeReap(s.log)
  {
    hide Reached, After, RaceRan, SessionStep, ReapStep, ReturnStep, CloseStep;
    ReachBegun();
    var a := ReachKillEntry(BEGUN);
    var b := ReachKillCheck(a);
    var c := b.(leader := Reaped(false), log := b.log + [Exited] + [ForeignReap], signalRaced := true);
    SystemMove(b, true, c);
    var d := c.(main := KillWait(false), log := c.log + [Signalled(false)]);
    MainMove(c, true, d);
    assert d.log[2] == ForeignReap && d.log[3].Signalled?;
    assert !NoReapBefore(d.log, 3);
    var actions := ReachedBy(d);
    OwnershipSafe(actions);
  }

  /** The sampler is about to read the leader's status. */
  lemma {:induction false} ReachReading() returns (t: State)
    ensures t == BEGUN.(sampler := SReading, lock := HeldBySampler) && Reached(t)
  {
    hide Reached;
    ReachBegun();
    var a := BEGUN.(sampler := SLocked, lock := HeldBySampler);
    t := a.(sampler := SReading);
    SamplerMove(BEGUN, false, a);
    SamplerMove(a, false, a.(sampler := SProbe));
    SamplerMove(a.(sampler := SProbe), false, t);
  }

  /** A read takes place and becomes the peak. */
  lemma {:induction false} ReachPeak(s: State) returns (t: State)
    requires Reached(s) && s.sampler == SReading && !s.memUnavailable && s.peak == None
    ensures t == s.(sampler := SIdle, lock := Free, peak := Some(|s.log|), log := s.log + [StatusRead]) && Reached(t)
  {
    hide Reached;
    var a := s.(sampler := SGot(|s.log|), log := s.log + [StatusRead]);
    SamplerMove(s, true, a);
    var b := a.(sampler := SFold(|s.log|));
    SamplerMove(a, true, b);
    hide SamplerStep;
    t := ReachFolded(b);
  }

  lemma {:induction false} ReachFolded(s: State) returns (t: State)
    requires Reached(s) && s.sampler.SFold? && s.peak == None
    ensures t == s.(sampler := SIdle, lock := Free, peak := Some(s.sampler.read)) && Reached(t)
  {
    hide Reached;
    var a := s.(sampler := SRelease, peak := Some(s.sampler.read));
    SamplerMove(s, true, a);
    t := a.(sampler := SIdle, lock := Free);
    SamplerMove(a, true, t);
  }

  /** A foreign reap inside the sampler's read: the value read afterwards is reported as the peak. */
  lemma {:induction false} ReadRaceBreaks()
    ensures exists actions :: var s := After(actions);
      s.readRaced && !s.signalRaced && !ReportsClean(s.log)
  {
    hide Reached, After, SessionStep, ReapStep, KillStep, CloseStep;
    var a := ReachReading();
    var b := a.(leader := Reaped(false), log := a.log + [Exited] + [ForeignReap], readRaced := true);
    SystemMove(a, true, b);
    var c := ReachPeak(b);
    var d := ReachKillEntry(c);
    var e := ReachLost(d);
    MainMove(e, true, e.(main := Joining));
    var g := ReachEnd(e.(main := Joining));
    assert g.log[2] == ForeignReap && g.log[4] == Reported(Some(3));
    assert !NoReapBefore(g.log, 3);
    var actions := ReachedBy(g);
  }

  /** The last read before a reap gives nothing. */
  lemma {:induction false} ReachUnread(s: State) returns (t: State)
    requires Reached(s) && s.main == CloseProbe(true) && !Lost(s)
    ensures t == s.(main := CloseSet(true)) && Reached(t)
  {
    hide Reached, MainStep;
    var a := s.(main := CloseRead(true));
    CloseMove(s, true, a);
    t := s.(main := CloseSet(true));
    CloseMove(a, false, t);
  }

  /** The leader has exited by itself and the driver closes the sampling on its way to the waitpid. */
  lemma {:induction false} ReachReapWait(s: State) returns (t: State)
    requires Reached(s) && s.main == CloseEntry(true, true) && s.lock.Free? && !s.memClosed && !Lost(s)
    ensures t == s.(main := ReapWait, memClosed := true) && Reached(t)
  {
    hide Reached, MainStep;
    var a := s.(main := CloseLocked(true, true), lock := HeldByMain(1));
    CloseMove(s, true, a);
    var b := a.(main := CloseProbe(true));
    CloseMove(a, true, b);
    hide CloseStep;
    var c := ReachUnread(b);
    t := ReachReleased(c);
  }

  /** The leader exits after the session, and the driver reaps it. */
  lemma {:induction false} ReachOwnReap() returns (t: State)
    ensures t == BEGUN.(main := ReapStatus, leader := Reaped(true), memClosed := true,
      log := [Spawned] + [Exited] + [OwnReap])
    ensures Reached(t)
  {
    hide Reached, KillStep, ReturnStep, CloseStep;
    ReachBegun();
    var a := BEGUN.(leader := Zombie, log := BEGUN.log + [Exited]);
    SystemMove(BEGUN, false, a);
    MainMove(a, true, a.(main := FinishWait));
    var b := a.(main := CloseEntry(true, true));
    MainMove(a.(main := FinishWait), true, b);
    var c := ReachReapWait(b);
    t := c.(main := ReapStatus, leader := Reaped(true), log := c.log + [OwnReap]);
    MainMove(c, true, t);
  }

  /** A signal handled right after the waitpid: the driver reaped the leader and finishes without
      its status. */
  lemma {:induction false} StatusCanBeLost()
    ensures exists actions :: var s := After(actions);
      s.main.Finished? && s.leader == Reaped(true) && s.cut && !s.exitKnown
  {
    hide Reached, After, SamplerStep, ReapStep, KillStep, CloseStep;
    var a := ReachOwnReap();
    var b := a.(main := KillEntry, inHandler := true, cut := true);
    ReachMore(a, Signal);
    var c := ReachLost(b);
    var d := c.(main := FinallyCheck, region := InFinally, inHandler := false);
    MainMove(c, true, d);
    MainMove(d, true, d.(main := Joining));
    var e := ReachEnd(d.(main := Joining));
    var actions := ReachedBy(e);
  }
}
