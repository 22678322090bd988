/** The life of SPDK runtimes in a process.  Any number of threads start runtimes, take and return
    leases, stop and destroy them, while each runtime's own thread runs and ends.  Every mutex section
    is one step, and so are thread creation, joining and the sends in between. */
module RuntimeLifecycle {
  import opened Collections

  datatype RunState = Starting | Ready | Stopping | Stopped | Failed

  /** Where the start call that made the runtime is. */
  datatype Starter =
    | Claimed                // has taken the process slot, no thread yet
    | Waiting                // the thread exists
    | Joining                // the runtime failed to start
    | Freeing                // the thread has been joined
    | Started                // returned the runtime
    | Abandoned              // returned an error

  /** Where the runtime's thread is. */
  datatype AppThread =
    | NotCreated
    | Launching              // before the start callback
    | InApp                  // after it
    | Ending                 // has published the end, on its way out
    | Exited

  /** Where a stop call is. */
  datatype Stop =
    | Sending                // has set Stopping, about to send to the owner thread
    | JoiningThread
    | Publishing             // has joined
    | ReleasingSlot          // has published Stopped

  datatype Runtime = Runtime(
    state: RunState,
    leases: nat,
    hasOwner: bool,
    starter: Starter,
    thread: AppThread,
    stops: map<nat, Stop>,   // the stop calls under way, by caller
    joins: nat,
    shutdowns: nat,          // times the owner thread was told to stop the owners
    taken: nat,              // times the slot was taken and released for it
    released: nat,
    freed: bool
  )

  datatype State = State(active: bool, runtimes: map<nat, Runtime>)

  datatype Step =
    | Claim(r: nat)
    | Abandon(r: nat)                  // out of memory, or the thread cannot be created
    | Spawn(r: nat)
    | StartCallback(r: nat, hasOwner: bool, ok: bool)
    | AppEnds(r: nat)
    | ThreadExits(r: nat)
    | StarterLooks(r: nat)
    | StarterJoins(r: nat)
    | StarterFrees(r: nat)
    | Acquire(r: nat)
    | Release(r: nat)
    | BeginStop(r: nat, caller: nat)
    | SendStop(r: nat, caller: nat, ok: bool)
    | JoinStop(r: nat, caller: nat)
    | PublishStop(r: nat, caller: nat)
    | EndStop(r: nat, caller: nat)
    | Destroy(r: nat)

  predicate Init(s: State) {
    !s.active && s.runtimes == map[]
  }

  /** The caller has the runtime and has not destroyed it. */
  predicate Usable(q: Runtime) {
    q.starter.Started? && !q.freed
  }

  predicate StopAt(q: Runtime, caller: nat, stop: Stop) {
    caller in q.stops && q.stops[caller] == stop
  }

  /** Whether the runtime lets the step happen. */
  predicate Can(q: Runtime, step: Step) {
    match step
    case Claim(_) => false
    case Abandon(_) => q.starter.Claimed?
    case Spawn(_) => q.starter.Claimed?
    case StartCallback(_, hasOwner, ok) => q.thread.Launching? && (ok ==> hasOwner)
    case AppEnds(_) => q.thread.Launching? || q.thread.InApp?
    case ThreadExits(_) => q.thread.Ending?
    case StarterLooks(_) => q.starter.Waiting? && !q.state.Starting?
    case StarterJoins(_) => q.starter.Joining? && q.thread.Exited?
    case StarterFrees(_) => q.starter.Freeing?
    case Acquire(_) => Usable(q)
    case Release(_) => Usable(q) && q.leases > 0
    case BeginStop(_, caller) => Usable(q) && caller !in q.stops
    case SendStop(_, caller, _) => StopAt(q, caller, Sending)
    case JoinStop(_, caller) => StopAt(q, caller, JoiningThread) && q.thread.Exited?
    case PublishStop(_, caller) => StopAt(q, caller, Publishing)
    case EndStop(_, caller) => StopAt(q, caller, ReleasingSlot)
    case Destroy(_) => Usable(q)
  }

  predicate Enabled(s: State, step: Step) {
    if step.Claim? then step.r !in s.runtimes && !s.active
    else step.r in s.runtimes && Can(s.runtimes[step.r], step)
  }

  /** What a step does to its runtime. */
  function Changed(q: Runtime, step: Step): Runtime {
    match step
    case Claim(_) => q
    case Abandon(_) => q.(starter := Abandoned, freed := true, released := q.released + 1)
    case Spawn(_) => q.(starter := Waiting, thread := Launching)
    case StartCallback(_, hasOwner, ok) =>
      q.(thread := InApp, hasOwner := hasOwner, state := if ok then Ready else q.state,
         shutdowns := if hasOwner && !ok then q.shutdowns + 1 else q.shutdowns)
    case AppEnds(_) =>
      q.(thread := Ending, hasOwner := false, state := if q.state.Stopping? then Stopping else Failed)
    case ThreadExits(_) => q.(thread := Exited)
    case StarterLooks(_) => q.(starter := if q.state.Ready? then Started else Joining)
    case StarterJoins(_) => q.(starter := Freeing, joins := q.joins + 1)
    case StarterFrees(_) => q.(starter := Abandoned, freed := true, released := q.released + 1)
    case Acquire(_) => if q.state.Ready? then q.(leases := q.leases + 1) else q
    case Release(_) => if q.leases > 0 then q.(leases := q.leases - 1) else q
    case BeginStop(_, caller) =>
      if (q.state.Failed? || q.state.Ready?) && q.leases == 0
      then q.(state := Stopping, stops := q.stops[caller := if q.state.Ready? && q.hasOwner then Sending else JoiningThread])
      else q
    case SendStop(_, caller, ok) =>
      if ok then q.(stops := q.stops[caller := JoiningThread], shutdowns := q.shutdowns + 1)
      else q.(state := Ready, stops := q.stops - {caller})
    case JoinStop(_, caller) => q.(joins := q.joins + 1, stops := q.stops[caller := Publishing])
    case PublishStop(_, caller) => q.(state := Stopped, stops := q.stops[caller := ReleasingSlot])
    case EndStop(_, caller) => q.(stops := q.stops - {caller}, released := q.released + 1)
    case Destroy(_) => if q.state.Stopped? then q.(freed := true) else q
  }

  const NEW := Runtime(Starting, 0, false, Claimed, NotCreated, map[], 0, 0, 1, 0, false)

  predicate ReleasesSlot(step: Step) {
    step.Abandon? || step.StarterFrees? || step.EndStop?
  }

  function Apply(s: State, step: Step): State
    requires Enabled(s, step)
  {
    if step.Claim? then State(true, s.runtimes[step.r := NEW])
    else State(if ReleasesSlot(step) then false else s.active, s.runtimes[step.r := Changed(s.runtimes[step.r], step)])
  }

  ghost predicate Moves(s: State, step: Step, t: State) {
    Enabled(s, step) && t == Apply(s, step)
  }

  ghost predicate IsRun(run: seq<State>, schedule: seq<Step>) {
    && |run| == |schedule| + 1
    && Init(run[0])
    && forall i | 0 <= i < |schedule| :: Moves(run[i], schedule[i], run[i + 1])
  }

  // ---------------------------------------------------------------------------------------------
  // One runtime
  // ---------------------------------------------------------------------------------------------

  predicate Alone(q: Runtime) {
    forall a, b | a in q.stops && b in q.stops :: a == b
  }

  /** The stop call under way, if there is one. */
  ghost predicate Stopper(q: Runtime, stop: Stop) {
    exists caller :: caller in q.stops && q.stops[caller] == stop
  }

  /** The state and the calls under way determine each other. */
  ghost predicate Phases(q: Runtime) {
    && Alone(q)
    && (q.starter.Claimed? ==> q.thread.NotCreated? && q.state.Starting? && q.stops == map[])
    && (q.thread.NotCreated? ==> q.starter.Claimed? || q.starter.Abandoned?)
    && (q.starter.Waiting? || q.starter.Joining? || q.starter.Freeing? ==> q.stops == map[])
    && (q.starter.Waiting? ==> !q.state.Stopping? && !q.state.Stopped?)
    && (q.starter.Joining? || q.starter.Freeing? ==> q.state.Failed?)
    && (q.starter.Freeing? ==> q.thread.Exited?)
    && (q.starter.Abandoned? ==> q.stops == map[] && (q.thread.NotCreated? || q.thread.Exited?))
    && (q.starter.Started? ==> !q.state.Starting?)
    && (q.state.Stopping? <==> Stopper(q, Sending) || Stopper(q, JoiningThread) || Stopper(q, Publishing))
    && (Stopper(q, ReleasingSlot) ==> q.state.Stopped?)
    && (Stopper(q, Publishing) || Stopper(q, ReleasingSlot) || q.state.Stopped? ==> q.thread.Exited?)
    && (q.state.Starting? ==> !q.thread.Ending? && !q.thread.Exited?)
    && (q.thread.Launching? ==> q.state.Starting?)
    && (q.state.Failed? ==> q.thread.Ending? || q.thread.Exited?)
    && (q.thread.Ending? || q.thread.Exited? ==> !q.hasOwner)
  }

  ghost predicate Tallies(q: Runtime) {
    && (q.leases > 0 ==> q.starter.Started? && (q.state.Ready? || q.state.Failed?))
    && q.joins == (if q.starter.Freeing? || (q.starter.Abandoned? && q.thread.Exited?) || q.state.Stopped? || Stopper(q, Publishing) then 1 else 0)
    && q.taken == 1
    && q.released == (if q.starter.Abandoned? || (q.state.Stopped? && !Stopper(q, ReleasingSlot)) then 1 else 0)
    && (q.freed <==> q.starter.Abandoned? || (q.freed && q.state.Stopped?))
    && (q.starter.Abandoned? ==> !q.state.Stopped?)
  }

  /** The owner thread is told to stop the owners at most once: by a failed start, or by a stop. */
  ghost predicate Shut(q: Runtime) {
    && q.shutdowns <= 1
    && (q.shutdowns == 1 ==>
          || (!q.starter.Started? && !q.state.Ready? && !q.thread.Launching? && !q.thread.NotCreated?)
          || Stopper(q, JoiningThread) || Stopper(q, Publishing) || q.state.Stopped?)
  }

  ghost predicate Healthy(q: Runtime) {
    Phases(q) && Tallies(q) && Shut(q)
  }

  lemma OneStopper(q: Runtime, caller: nat, stop: Stop)
    requires Alone(q) && caller in q.stops && q.stops[caller] == stop
    ensures forall other :: Stopper(q, other) <==> other == stop
  {
    assert Stopper(q, stop);
  }

  lemma NoStopper(q: Runtime)
    requires q.stops == map[]
    ensures forall other :: !Stopper(q, other)
  {
  }

  /** The stop calls after a step of one of them. */
  lemma StopperMoves(q: Runtime, t: Runtime, caller: nat, next: Stop)
    requires Alone(q) && (caller in q.stops || q.stops == map[]) && t.stops == q.stops[caller := next]
    ensures Alone(t) && forall other :: Stopper(t, other) <==> other == next
  {
    assert t.stops[caller] == next;
    assert Stopper(t, next);
  }

  lemma StopperLeaves(q: Runtime, t: Runtime, caller: nat)
    requires Alone(q) && caller in q.stops && t.stops == q.stops - {caller}
    ensures t.stops == map[] && Alone(t) && forall other :: !Stopper(t, other)
  {
    assert t.stops.Keys == {};
  }

  predicate OfStop(step: Step) {
    step.BeginStop? || step.SendStop? || step.JoinStop? || step.PublishStop? || step.EndStop?
  }

  lemma StopStepHealthy(q: Runtime, step: Step)
    requires Healthy(q) && Can(q, step) && OfStop(step)
    ensures Healthy(Changed(q, step))
  {
    var t := Changed(q, step);
    match step {
      case BeginStop(_, caller) =>
        if (q.state.Failed? || q.state.Ready?) && q.leases == 0 {
          NoneUnderWay(q);
          NoStopper(q);
          StopperMoves(q, t, caller, t.stops[caller]);
        }
      case SendStop(_, caller, ok) =>
        OneStopper(q, caller, Sending);
        if ok {
          StopperMoves(q, t, caller, JoiningThread);
        } else {
          StopperLeaves(q, t, caller);
        }
      case JoinStop(_, caller) =>
        OneStopper(q, caller, JoiningThread);
        StopperMoves(q, t, caller, Publishing);
      case PublishStop(_, caller) =>
        OneStopper(q, caller, Publishing);
        StopperMoves(q, t, caller, ReleasingSlot);
      case EndStop(_, caller) =>
        OneStopper(q, caller, ReleasingSlot);
        StopperLeaves(q, t, caller);
    }
  }

  /** A runtime that is ready or failed is not being stopped. */
  lemma NoneUnderWay(q: Runtime)
    requires Phases(q) && (q.state.Ready? || q.state.Failed?)
    ensures q.stops == map[]
  {
    assert forall caller | caller in q.stops :: Stopper(q, q.stops[caller]);
    assert q.stops.Keys == {};
  }

  lemma OtherStepHealthy(q: Runtime, step: Step)
    requires Healthy(q) && Can(q, step) && !OfStop(step)
    ensures Healthy(Changed(q, step))
  {
    var t := Changed(q, step);
    assert t.stops == q.stops;
    assert forall other :: Stopper(t, other) <==> Stopper(q, other);
  }

  lemma NewHealthy()
    ensures Healthy(NEW)
  {
    NoStopper(NEW);
  }

  // ---------------------------------------------------------------------------------------------
  // The process
  // ---------------------------------------------------------------------------------------------

  /** The slot is taken for the runtime and not released. */
  predicate Holds(q: Runtime) {
    q.taken > q.released
  }

  ghost predicate HeldBy(s: State, r: nat) {
    r in s.runtimes && Holds(s.runtimes[r])
  }

  ghost predicate Inv(s: State) {
    && (forall r | r in s.runtimes :: Healthy(s.runtimes[r]))
    && (s.active <==> exists r :: HeldBy(s, r))
    && (forall a, b | HeldBy(s, a) && HeldBy(s, b) :: a == b)
  }

  /** A step that releases the slot finds it taken, for its own runtime; no other step changes that. */
  lemma ReleaseHolds(q: Runtime, step: Step)
    requires Healthy(q) && Can(q, step)
    ensures Changed(q, step).taken == q.taken == 1
    ensures ReleasesSlot(step) ==> q.released == 0 && Changed(q, step).released == 1
    ensures !ReleasesSlot(step) ==> Changed(q, step).released == q.released
  {
    if step.EndStop? {
      OneStopper(q, step.caller, ReleasingSlot);
    }
  }

  lemma NextInv(s: State, step: Step)
    requires Inv(s) && Enabled(s, step)
    ensures Inv(Apply(s, step))
  {
    hide Healthy, Changed, Can;
    var t := Apply(s, step);
    if step.Claim? {
      NewHealthy();
      assert HeldBy(t, step.r);
      assert forall r | r != step.r :: HeldBy(t, r) <==> HeldBy(s, r);
    } else {
      var q := s.runtimes[step.r];
      if OfStop(step) {
        StopStepHealthy(q, step);
      } else {
        OtherStepHealthy(q, step);
      }
      ReleaseHolds(q, step);
      assert forall r | r != step.r :: HeldBy(t, r) <==> HeldBy(s, r);
      if ReleasesSlot(step) {
        assert HeldBy(s, step.r) && !HeldBy(t, step.r);
      } else {
        assert HeldBy(t, step.r) <==> HeldBy(s, step.r);
      }
    }
  }

  lemma {:induction false} RunInv(run: seq<State>, schedule: seq<Step>, i: nat)
    requires IsRun(run, schedule) && i < |run|
    ensures Inv(run[i])
  {
    hide Inv, Apply, Enabled;
    if i == 0 {
      InitInv(run[0]);
    } else {
      RunInv(run, schedule, i - 1);
      assert Moves(run[i - 1], schedule[i - 1], run[i - 1 + 1]);
      NextInv(run[i - 1], schedule[i - 1]);
    }
  }

  lemma InitInv(s: State)
    requires Init(s)
    ensures Inv(s)
  {
  }

  // ---------------------------------------------------------------------------------------------
  // What every run satisfies
  // ---------------------------------------------------------------------------------------------

  /** Leases are held only while the runtime is ready or has failed. */
  lemma LeasesOnlyWhileUp(run: seq<State>, schedule: seq<Step>, i: nat, r: nat)
    requires IsRun(run, schedule) && i < |run| && r in run[i].runtimes && run[i].runtimes[r].leases > 0
    ensures run[i].runtimes[r].state.Ready? || run[i].runtimes[r].state.Failed?
    ensures !run[i].runtimes[r].freed
  {
    RunInv(run, schedule, i);
    assert Healthy(run[i].runtimes[r]);
  }

  /** The slot is taken exactly while one runtime holds it.  Each runtime takes it once and releases it
      at most once: when its start fails, or when its stop ends. */
  lemma SlotTakenOnce(run: seq<State>, schedule: seq<Step>, i: nat)
    requires IsRun(run, schedule) && i < |run|
    ensures run[i].active <==> exists r :: HeldBy(run[i], r)
    ensures forall a, b | HeldBy(run[i], a) && HeldBy(run[i], b) :: a == b
    ensures forall r | r in run[i].runtimes :: run[i].runtimes[r].taken == 1 && run[i].runtimes[r].released <= 1
    ensures forall r | r in run[i].runtimes && run[i].runtimes[r].released == 1 ::
              run[i].runtimes[r].starter.Abandoned? || run[i].runtimes[r].state.Stopped?
  {
    RunInv(run, schedule, i);
    forall r | r in run[i].runtimes
      ensures run[i].runtimes[r].taken == 1 && run[i].runtimes[r].released <= 1
      ensures run[i].runtimes[r].released == 1 ==> run[i].runtimes[r].starter.Abandoned? || run[i].runtimes[r].state.Stopped?
    {
      assert Healthy(run[i].runtimes[r]);
    }
  }

  /** A runtime's thread is joined at most once, and once if the runtime was stopped or its thread
      failed to start it; a freed runtime has no thread left that could use it. */
  lemma ThreadJoinedOnce(run: seq<State>, schedule: seq<Step>, i: nat, r: nat)
    requires IsRun(run, schedule) && i < |run| && r in run[i].runtimes
    ensures var q := run[i].runtimes[r];
            && q.joins <= 1
            && (q.state.Stopped? ==> q.joins == 1)
            && (q.joins == 1 ==> q.thread.Exited?)
            && (q.freed ==> (q.thread.NotCreated? && q.joins == 0) || (q.thread.Exited? && q.joins == 1))
            && (q.freed ==> forall caller | caller in q.stops :: q.stops[caller].ReleasingSlot?)
  {
    RunInv(run, schedule, i);
    var q := run[i].runtimes[r];
    assert Healthy(q);
    forall caller | caller in q.stops && q.freed ensures q.stops[caller].ReleasingSlot? {
      OneStopper(q, caller, q.stops[caller]);
    }
  }

  /** At most one stop call of a runtime is under way at a time, and at most once is the owner thread
      told to stop the dispatcher owners. */
  lemma OneShutdown(run: seq<State>, schedule: seq<Step>, i: nat, r: nat)
    requires IsRun(run, schedule) && i < |run| && r in run[i].runtimes
    ensures run[i].runtimes[r].shutdowns <= 1
    ensures forall a, b | a in run[i].runtimes[r].stops && b in run[i].runtimes[r].stops :: a == b
  {
    RunInv(run, schedule, i);
    assert Healthy(run[i].runtimes[r]);
  }

  /** What the code asserts holds: the start callback finds the runtime starting, the end of the
      application finds it starting, ready or stopping, a stop that has joined finds it stopping, and
      whoever releases the slot finds it taken. */
  lemma AssertionsHold(run: seq<State>, schedule: seq<Step>, i: nat)
    requires IsRun(run, schedule) && i < |schedule| && schedule[i].r in run[i].runtimes
    ensures var q := run[i].runtimes[schedule[i].r];
            && (schedule[i].StartCallback? ==> q.state.Starting?)
            && (schedule[i].AppEnds? ==> q.state.Starting? || q.state.Ready? || q.state.Stopping?)
            && (schedule[i].PublishStop? ==> q.state.Stopping?)
            && (ReleasesSlot(schedule[i]) ==> run[i].active)
  {
    RunInv(run, schedule, i);
    assert Moves(run[i], schedule[i], run[i + 1]);
    var q, step := run[i].runtimes[schedule[i].r], schedule[i];
    assert Healthy(q);
    if step.PublishStop? {
      OneStopper(q, step.caller, Publishing);
    }
    ReleaseHolds(q, step);
    if ReleasesSlot(step) {
      assert HeldBy(run[i], step.r);
    }
  }

  // ---------------------------------------------------------------------------------------------
  // Tallies from the schedule alone
  // ---------------------------------------------------------------------------------------------

  /** A lease of `r` is taken at this step. */
  predicate TakesLease(s: State, step: Step, r: nat) {
    step == Acquire(r) && r in s.runtimes && s.runtimes[r].state.Ready?
  }

  /** The owner thread of `r` is told to stop the owners: by a start that failed after finding the owner, or
      by a stop whose message went out. */
  predicate TellsOwner(step: Step, r: nat) {
    step.r == r && ((step.StartCallback? && step.hasOwner && !step.ok) || (step.SendStop? && step.ok))
  }

  ghost function LeasesTaken(run: seq<State>, schedule: seq<Step>, i: nat, r: nat): nat
    requires i <= |schedule| < |run|
  {
    if i == 0 then 0
    else LeasesTaken(run, schedule, i - 1, r) + if TakesLease(run[i - 1], schedule[i - 1], r) then 1 else 0
  }

  ghost function LeasesGiven(schedule: seq<Step>, i: nat, r: nat): nat
    requires i <= |schedule|
  {
    if i == 0 then 0 else LeasesGiven(schedule, i - 1, r) + if schedule[i - 1] == Release(r) then 1 else 0
  }

  ghost function TimesTold(schedule: seq<Step>, i: nat, r: nat): nat
    requires i <= |schedule|
  {
    if i == 0 then 0 else TimesTold(schedule, i - 1, r) + if TellsOwner(schedule[i - 1], r) then 1 else 0
  }

  ghost predicate Destroys(run: seq<State>, schedule: seq<Step>, k: nat, r: nat)
    requires k < |schedule| < |run|
  {
    schedule[k] == Destroy(r) && r in run[k].runtimes && run[k].runtimes[r].state.Stopped?
  }

  /** The leases of a runtime are those taken less those given back, and its owner thread has been told to
      stop as often as a failed start or a stop has told it. */
  lemma {:induction false} TalliesAre(run: seq<State>, schedule: seq<Step>, i: nat, r: nat)
    requires IsRun(run, schedule) && i < |run|
    ensures r in run[i].runtimes ==>
              && run[i].runtimes[r].leases + LeasesGiven(schedule, i, r) == LeasesTaken(run, schedule, i, r)
              && run[i].runtimes[r].shutdowns == TimesTold(schedule, i, r)
    ensures r !in run[i].runtimes ==> LeasesGiven(schedule, i, r) == LeasesTaken(run, schedule, i, r) == TimesTold(schedule, i, r) == 0
  {
    if i > 0 {
      TalliesAre(run, schedule, i - 1, r);
      assert Moves(run[i - 1], schedule[i - 1], run[i - 1 + 1]);
    }
  }

  ghost predicate Destroyed(run: seq<State>, schedule: seq<Step>, i: nat, r: nat)
    requires i <= |schedule| < |run|
  {
    exists k :: 0 <= k < i && Destroys(run, schedule, k, r)
  }

  lemma NotFreedBefore(q: Runtime, step: Step)
    requires Healthy(q) && Can(q, step) && !q.starter.Started? && Changed(q, step).starter.Started?
    ensures !Changed(q, step).freed
  {
  }

  /** A runtime that was started is freed exactly once it has been destroyed after its stop, and stays so. */
  lemma {:induction false} FreedByDestroy(run: seq<State>, schedule: seq<Step>, i: nat, r: nat)
    requires IsRun(run, schedule) && i < |run| && r in run[i].runtimes && run[i].runtimes[r].starter.Started?
    ensures run[i].runtimes[r].freed <==> Destroyed(run, schedule, i, r)
  {
    hide Healthy;
    if i > 0 {
      RunInv(run, schedule, i - 1);
      var s, step := run[i - 1], schedule[i - 1];
      assert Moves(s, step, run[i - 1 + 1]);
      if r in s.runtimes && s.runtimes[r].starter.Started? {
        FreedByDestroy(run, schedule, i - 1, r);
        assert Destroyed(run, schedule, i, r) <==> Destroyed(run, schedule, i - 1, r) || Destroys(run, schedule, i - 1, r);
      } else {
        NotStarted(run, schedule, i - 1, r);
        if r in s.runtimes {
          NotFreedBefore(s.runtimes[r], step);
        }
      }
    }
  }

  /** Nothing is destroyed before it is started. */
  lemma {:induction false} NotStarted(run: seq<State>, schedule: seq<Step>, i: nat, r: nat)
    requires IsRun(run, schedule) && i < |run| && (r !in run[i].runtimes || !run[i].runtimes[r].starter.Started?)
    ensures forall k | 0 <= k < i :: !Destroys(run, schedule, k, r)
  {
    if i > 0 {
      var s, step := run[i - 1], schedule[i - 1];
      assert Moves(s, step, run[i - 1 + 1]);
      NotStarted(run, schedule, i - 1, r);
    }
  }

  // ---------------------------------------------------------------------------------------------
  // Every start and every stop returns
  // ---------------------------------------------------------------------------------------------

  // Every step that is not the beginning of a call brings the calls under way nearer to their end, and if
  // none is possible there is no call under way.  The end of an application is such a step.

  predicate Progress(step: Step) {
    match step
    case Claim(_) => false
    case Acquire(_) => false
    case Release(_) => false
    case BeginStop(_, _) => false
    case Destroy(_) => false
    case _ => true
  }

  function StarterRank(starter: Starter): nat {
    match starter
    case Claimed => 10
    case Waiting => 5
    case Joining => 4
    case Freeing => 2
    case _ => 0
  }

  function ThreadRank(thread: AppThread): nat {
    match thread
    case Launching => 3
    case InApp => 2
    case Ending => 1
    case _ => 0
  }

  ghost function StopsRank(q: Runtime): nat {
    if Stopper(q, Sending) then 4
    else if Stopper(q, JoiningThread) then 3
    else if Stopper(q, Publishing) then 2
    else if Stopper(q, ReleasingSlot) then 1
    else 0
  }

  ghost function Todo(s: State, r: nat): nat {
    if r in s.runtimes then
      StarterRank(s.runtimes[r].starter) + ThreadRank(s.runtimes[r].thread) + StopsRank(s.runtimes[r])
    else 0
  }

  ghost function Todos(s: State): nat -> nat {
    (r: nat) => Todo(s, r)
  }

  ghost predicate Below(s: State, n: nat) {
    forall r | r in s.runtimes :: r < n
  }

  lemma StepWorks(q: Runtime, step: Step)
    requires Healthy(q) && Can(q, step) && Progress(step)
    ensures var t := Changed(q, step);
            StarterRank(t.starter) + ThreadRank(t.thread) + StopsRank(t) < StarterRank(q.starter) + ThreadRank(q.thread) + StopsRank(q)
  {
    var t := Changed(q, step);
    if OfStop(step) {
      OneStopper(q, step.caller, q.stops[step.caller]);
      if step.EndStop? || (step.SendStop? && !step.ok) {
        StopperLeaves(q, t, step.caller);
      } else {
        StopperMoves(q, t, step.caller, t.stops[step.caller]);
      }
    } else {
      assert t.stops == q.stops;
      assert forall other :: Stopper(t, other) <==> Stopper(q, other);
    }
  }

  lemma StepDecreases(s: State, step: Step, n: nat)
    requires Inv(s) && Enabled(s, step) && Progress(step) && Below(s, n)
    ensures Below(Apply(s, step), n) && Total(Todos(Apply(s, step)), n) < Total(Todos(s), n)
  {
    hide Healthy, Changed, Can, StopsRank;
    var t := Apply(s, step);
    assert Healthy(s.runtimes[step.r]);
    StepWorks(s.runtimes[step.r], step);
    TotalOne(Todos(s), Todos(t), n, step.r);
  }

  /** Without new calls a run is at an end after as many steps as the sum says. */
  lemma {:induction false} FinishesWithin(run: seq<State>, schedule: seq<Step>, i: nat, j: nat, n: nat)
    requires IsRun(run, schedule) && i <= j < |run| && Below(run[i], n)
    requires forall k | i <= k < j :: Progress(schedule[k])
    ensures Below(run[j], n) && Total(Todos(run[j]), n) + (j - i) <= Total(Todos(run[i]), n)
    decreases j
  {
    hide Inv, Below, Todos, Total, Apply, Enabled, Progress;
    if i < j {
      FinishesWithin(run, schedule, i, j - 1, n);
      RunInv(run, schedule, j - 1);
      assert Moves(run[j - 1], schedule[j - 1], run[j - 1 + 1]);
      StepDecreases(run[j - 1], schedule[j - 1], n);
    }
  }

  /** And it cannot stop before: if no such step is possible, every start has returned, every stop has
      returned, and no thread is left; a stop has then left its runtime stopped or, if its message could not
      be sent, ready. */
  lemma StuckOnlyWhenDone(run: seq<State>, schedule: seq<Step>, i: nat, r: nat)
    requires IsRun(run, schedule) && i < |run| && r in run[i].runtimes
    requires forall step | Progress(step) :: !Enabled(run[i], step)
    ensures var q := run[i].runtimes[r];
            && (q.starter.Started? || q.starter.Abandoned?) && q.stops == map[]
            && (q.thread.NotCreated? || q.thread.Exited?) && !q.state.Stopping?
  {
    RunInv(run, schedule, i);
    var q := run[i].runtimes[r];
    assert Healthy(q);
    if (!q.thread.NotCreated? && !q.thread.Exited?) || (!q.starter.Started? && !q.starter.Abandoned?) {
      var step := StartCanStep(q, r);
      assert Enabled(run[i], step);
    } else if caller :| caller in q.stops {
      var step := StopCanStep(q, r, caller);
      assert Enabled(run[i], step);
    } else {
      NoStopper(q);
    }
  }

  lemma StartCanStep(q: Runtime, r: nat) returns (step: Step)
    requires Phases(q) && ((!q.thread.NotCreated? && !q.thread.Exited?) || (!q.starter.Started? && !q.starter.Abandoned?))
    ensures step.r == r && !step.Claim? && Progress(step) && Can(q, step)
  {
    if q.thread.Launching? || q.thread.InApp? {
      step := AppEnds(r);
    } else if q.thread.Ending? {
      step := ThreadExits(r);
    } else {
      step := match q.starter
        case Claimed => Abandon(r)
        case Waiting => StarterLooks(r)
        case Joining => StarterJoins(r)
        case _ => StarterFrees(r);
    }
  }

  lemma StopCanStep(q: Runtime, r: nat, caller: nat) returns (step: Step)
    requires Phases(q) && caller in q.stops && (q.thread.NotCreated? || q.thread.Exited?)
    ensures step.r == r && !step.Claim? && Progress(step) && Can(q, step)
  {
    OneStopper(q, caller, q.stops[caller]);
    step := match q.stops[caller]
      case Sending => SendStop(r, caller, true)
      case JoiningThread => JoinStop(r, caller)
      case Publishing => PublishStop(r, caller)
      case ReleasingSlot => EndStop(r, caller);
  }

  // ---------------------------------------------------------------------------------------------
  // A ready runtime without an owner thread
  // ---------------------------------------------------------------------------------------------

  predicate Ended(q: Runtime) {
    q.thread.Ending? || q.thread.Exited?
  }

  /** In every state of every run a ready runtime has its owner exactly while its application runs. */
  lemma ReadyOwnerIffRunning(run: seq<State>, schedule: seq<Step>, i: nat, r: nat)
    requires IsRun(run, schedule) && i < |run| && r in run[i].runtimes && run[i].runtimes[r].state.Ready?
    ensures run[i].runtimes[r].hasOwner <==> run[i].runtimes[r].thread.InApp?
    ensures !run[i].runtimes[r].hasOwner <==> Ended(run[i].runtimes[r])
  {
    ReadyRunInv(run, schedule, i);
    RunInv(run, schedule, i);
    assert Healthy(run[i].runtimes[r]) && ReadyOwned(run[i].runtimes[r]);
  }

  /** A stop is taken on exactly if the runtime is ready or failed and has no lease, and then sends its
      message exactly if the application still runs; otherwise it only waits for the thread. */
  lemma StopDecides(run: seq<State>, schedule: seq<Step>, i: nat, r: nat, caller: nat)
    requires IsRun(run, schedule) && i < |schedule| && schedule[i] == BeginStop(r, caller)
    ensures r in run[i].runtimes && r in run[i + 1].runtimes
    ensures var q, t := run[i].runtimes[r], run[i + 1].runtimes[r];
            if (q.state.Ready? || q.state.Failed?) && q.leases == 0 then
              t.state.Stopping? && caller in t.stops && t.stops[caller] == if q.thread.InApp? then Sending else JoiningThread
            else t == q
  {
    assert Moves(run[i], schedule[i], run[i + 1]);
    RunInv(run, schedule, i);
    ReadyRunInv(run, schedule, i);
    assert Healthy(run[i].runtimes[r]) && ReadyOwned(run[i].runtimes[r]);
  }

  /** Beside the invariant: a runtime ready, or being stopped, whose application runs has its owner. */
  predicate ReadyOwned(q: Runtime) {
    && (q.thread.InApp? && (q.state.Ready? || q.state.Stopping?) ==> q.hasOwner)
    && (q.state.Ready? || q.state.Stopping? ==> q.thread.InApp? || Ended(q))
  }

  lemma ReadyOwnedKept(q: Runtime, step: Step)
    requires Healthy(q) && ReadyOwned(q) && Can(q, step)
    ensures ReadyOwned(Changed(q, step))
  {
    if step.SendStop? {
      OneStopper(q, step.caller, Sending);
    }
  }

  lemma {:induction false} ReadyRunInv(run: seq<State>, schedule: seq<Step>, i: nat)
    requires IsRun(run, schedule) && i < |run|
    ensures forall r | r in run[i].runtimes :: ReadyOwned(run[i].runtimes[r])
  {
    hide Healthy, Changed, Can, ReadyOwned;
    if i > 0 {
      ReadyRunInv(run, schedule, i - 1);
      RunInv(run, schedule, i - 1);
      var s, step := run[i - 1], schedule[i - 1];
      assert Moves(s, step, run[i - 1 + 1]);
      if step.Claim? {
        NewReadyOwned();
      } else {
        assert Healthy(s.runtimes[step.r]);
        ReadyOwnedKept(s.runtimes[step.r], step);
      }
    }
  }

  lemma NewReadyOwned()
    ensures ReadyOwned(NEW)
  {
  }

  /** Step `j` is a stop call of `r` that could not send its message when the application had ended
      already, and the runtime has been ready ever since, up to state `i`. */
  ghost predicate PutBackAt(run: seq<State>, schedule: seq<Step>, i: nat, r: nat, j: nat)
    requires |run| == |schedule| + 1 && i < |run|
  {
    && j < i && schedule[j].SendStop? && schedule[j].r == r && !schedule[j].ok
    && r in run[j].runtimes && Ended(run[j].runtimes[r])
    && forall k | j < k <= i :: r in run[k].runtimes && run[k].runtimes[r].state.Ready?
  }

  /** A ready runtime has no owner if and only if its last change of state was a stop call putting it
      back to ready, its message unsent, when the application had ended. */
  lemma OwnerlessExactlyIfPutBack(run: seq<State>, schedule: seq<Step>, i: nat, r: nat)
    requires IsRun(run, schedule) && i < |run| && r in run[i].runtimes && run[i].runtimes[r].state.Ready?
    ensures !run[i].runtimes[r].hasOwner <==> exists j :: PutBackAt(run, schedule, i, r, j)
  {
    ReadyOwnerIffRunning(run, schedule, i, r);
    if !run[i].runtimes[r].hasOwner {
      var j := FindPutBack(run, schedule, i, r);
    }
    if j :| PutBackAt(run, schedule, i, r, j) {
      EndedStays(run, schedule, j, i, r);
    }
  }

  lemma {:induction false} FindPutBack(run: seq<State>, schedule: seq<Step>, i: nat, r: nat) returns (j: nat)
    requires IsRun(run, schedule) && i < |run| && r in run[i].runtimes && run[i].runtimes[r].state.Ready?
    requires !run[i].runtimes[r].hasOwner
    ensures PutBackAt(run, schedule, i, r, j)
    decreases i
  {
    ReadyOwnerIffRunning(run, schedule, i, r);
    assert i > 0;
    var s, step := run[i - 1], schedule[i - 1];
    assert Moves(s, step, run[i - 1 + 1]);
    assert r in s.runtimes;
    if step.r == r && step.SendStop? && !step.ok {
      j := i - 1;
    } else {
      RunInv(run, schedule, i - 1);
      ReadyBefore(s, step, r);
      j := FindPutBack(run, schedule, i - 1, r);
    }
  }

  /** No other step makes a runtime ready without an owner. */
  lemma ReadyBefore(s: State, step: Step, r: nat)
    requires Enabled(s, step) && r in s.runtimes && r in Apply(s, step).runtimes && Healthy(s.runtimes[r])
    requires Apply(s, step).runtimes[r].state.Ready? && !Apply(s, step).runtimes[r].hasOwner
    requires !(step.r == r && step.SendStop? && !step.ok)
    ensures s.runtimes[r].state.Ready? && !s.runtimes[r].hasOwner
  {
  }

  lemma {:induction false} EndedStays(run: seq<State>, schedule: seq<Step>, j: nat, i: nat, r: nat)
    requires IsRun(run, schedule) && j <= i < |run| && r in run[j].runtimes && Ended(run[j].runtimes[r])
    ensures r in run[i].runtimes && Ended(run[i].runtimes[r])
    decreases i
  {
    if j < i {
      EndedStays(run, schedule, j, i - 1, r);
      RunInv(run, schedule, i - 1);
      var s, step := run[i - 1], schedule[i - 1];
      assert Moves(s, step, run[i - 1 + 1]);
      if step.r == r {
        assert Healthy(s.runtimes[r]);
        EndedKept(s.runtimes[r], step);
      }
    }
  }

  lemma EndedKept(q: Runtime, step: Step)
    requires Healthy(q) && Ended(q) && Can(q, step)
    ensures Ended(Changed(q, step))
  {
  }

  /** The process with one runtime, which holds the slot. */
  function Only(q: Runtime): State {
    State(true, map[0 := q])
  }

  /** One more step of a run with one runtime. */
  lemma Longer(run: seq<State>, schedule: seq<Step>, q: Runtime, step: Step) returns (longer: seq<State>, steps: seq<Step>)
    requires IsRun(run, schedule) && run[|run| - 1] == Only(q)
    requires step.r == 0 && !step.Claim? && !ReleasesSlot(step) && Can(q, step)
    ensures IsRun(longer, steps) && longer[|longer| - 1] == Only(Changed(q, step))
  {
    hide Changed, Can;
    assert map[0 := q][0 := Changed(q, step)] == map[0 := Changed(q, step)];
    longer, steps := run + [Only(Changed(q, step))], schedule + [step];
    forall i | 0 <= i < |steps| ensures Moves(longer[i], steps[i], longer[i + 1]) {
      assert i < |schedule| ==> Moves(run[i], schedule[i], run[i + 1]);
    }
  }

  const STARTED := NEW.(starter := Started, thread := InApp, hasOwner := true, state := Ready)

  const ENDED := STARTED.(state := Stopping, stops := map[1 := Sending], thread := Exited, hasOwner := false)

  lemma StartedRun() returns (run: seq<State>, schedule: seq<Step>)
    ensures IsRun(run, schedule) && run[|run| - 1] == Only(STARTED)
  {
    hide IsRun;
    run, schedule := FirstClaim();
    run, schedule := Longer(run, schedule, NEW, Spawn(0));
    var launching := NEW.(starter := Waiting, thread := Launching);
    run, schedule := Longer(run, schedule, launching, StartCallback(0, true, true));
    run, schedule := Longer(run, schedule, launching.(thread := InApp, hasOwner := true, state := Ready), StarterLooks(0));
  }

  lemma EndedRun() returns (run: seq<State>, schedule: seq<Step>)
    ensures IsRun(run, schedule) && run[|run| - 1] == Only(ENDED)
  {
    hide IsRun;
    run, schedule := StartedRun();
    run, schedule := Longer(run, schedule, STARTED, BeginStop(0, 1));
    var stopping := STARTED.(state := Stopping, stops := map[1 := Sending]);
    run, schedule := Longer(run, schedule, stopping, AppEnds(0));
    run, schedule := Longer(run, schedule, stopping.(thread := Ending, hasOwner := false), ThreadExits(0));
  }

  /** Such a run: the application ends while a stop call is about to send, the send fails, and a lease
      is then taken on a runtime that has no owner thread. */
  lemma LeaseWithoutOwner() returns (run: seq<State>, schedule: seq<Step>)
    ensures IsRun(run, schedule)
    ensures var last := run[|run| - 1];
            && 0 in last.runtimes && Usable(last.runtimes[0]) && last.runtimes[0].state.Ready?
            && last.runtimes[0].leases == 1 && !last.runtimes[0].hasOwner && last.runtimes[0].thread.Exited?
  {
    hide IsRun;
    run, schedule := EndedRun();
    run, schedule := Longer(run, schedule, ENDED, SendStop(0, 1, false));
    run, schedule := Longer(run, schedule, ENDED.(state := Ready, stops := ENDED.stops - {1}), Acquire(0));
    NonEmptyRun(run, schedule);
  }

  lemma FirstClaim() returns (run: seq<State>, schedule: seq<Step>)
    ensures IsRun(run, schedule) && run[|run| - 1] == Only(NEW)
  {
    run, schedule := [State(false, map[]), Only(NEW)], [Claim(0)];
    assert Moves(run[0], schedule[0], run[1]);
  }

  lemma NonEmptyRun(run: seq<State>, schedule: seq<Step>)
    requires IsRun(run, schedule)
    ensures run != []
  {
  }
}
