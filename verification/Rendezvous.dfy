/** The rendezvous of a dispatcher command.  The command lives on its caller's stack; the owner thread
    runs it, and its completion may come before or after the owner is done with it.  Whichever comes
    last wakes the caller.  Every mutex section, every condition call and every return from an unlock
    is a step of its own; wake-ups may be spurious. */
module Rendezvous {
  import opened Wrappers

  datatype Actor = Completer | Owner

  function Other(a: Actor): Actor {
    if a == Completer then Owner else Completer
  }

  /** Where one of the two is in its critical section. */
  datatype Phase =
    | Outside
    | Entered  // holds the mutex
    | Updated  // has set its flag
    | Notified // has signalled if it came last
    | Released // has let the mutex go, inside the unlock
    | Finished // has returned from the unlock

  function Rank(p: Phase): nat {
    match p
    case Outside => 0
    case Entered => 1
    case Updated => 2
    case Notified => 3
    case Released => 4
    case Finished => 5
  }

  datatype Caller =
    | Arriving              // has sent the command, about to lock
    | Testing               // holds the mutex, about to test the flags
    | Waiting               // in the condition wait
    | Waking                // awake, about to take the mutex back
    | Reading               // holds the mutex, both flags seen
    | Leaving(result: int)  // holds the mutex, has read the status
    | Returned(result: int) // the command is gone

  datatype Holder = HeldBy(actor: Actor) | HeldByCaller

  datatype State = State(
    mutex: Option<Holder>,
    completed: bool,
    ownerActive: bool,
    status: int,
    completer: Phase,
    owner: Phase,
    caller: Caller,
    given: int, // the status the operation completes with
    first: Option<Actor>,
    signals: nat,
    signaller: Option<Actor>
  )

  predicate IsInit(s: State) {
    && s.mutex.None? && !s.completed && s.ownerActive && s.status == 0
    && s.completer.Outside? && s.owner.Outside? && s.caller.Arriving?
    && s.first.None? && s.signals == 0 && s.signaller.None?
  }

  datatype Step =
    | Work               // the owner uses the command
    | Enter(actor: Actor)
    | Update(actor: Actor)
    | Notify(actor: Actor)
    | Release(actor: Actor)
    | Return(actor: Actor)
    | Lock               // the caller's steps
    | Test
    | Spurious
    | Retake
    | ReadStatus
    | Leave

  function PhaseOf(s: State, a: Actor): Phase {
    if a == Completer then s.completer else s.owner
  }

  function WithPhase(s: State, a: Actor, p: Phase): State {
    if a == Completer then s.(completer := p) else s.(owner := p)
  }

  predicate Both(s: State) {
    s.completed && !s.ownerActive
  }

  predicate Enabled(s: State, step: Step) {
    match step
    case Work => s.owner.Outside?
    case Enter(a) => PhaseOf(s, a).Outside? && s.mutex.None?
    case Update(a) => PhaseOf(s, a).Entered?
    case Notify(a) => PhaseOf(s, a).Updated?
    case Release(a) => PhaseOf(s, a).Notified?
    case Return(a) => PhaseOf(s, a).Released?
    case Lock => s.caller.Arriving? && s.mutex.None?
    case Test => s.caller.Testing?
    case Spurious => s.caller.Waiting?
    case Retake => s.caller.Waking? && s.mutex.None?
    case ReadStatus => s.caller.Reading?
    case Leave => s.caller.Leaving?
  }

  function Apply(s: State, step: Step): State
    requires Enabled(s, step)
  {
    match step
    case Work => s
    case Enter(a) => WithPhase(s, a, Entered).(mutex := Some(HeldBy(a)))
    case Update(a) =>
      var t := WithPhase(s, a, Updated).(first := if s.first.None? then Some(a) else s.first);
      if a == Completer then t.(status := s.given, completed := true) else t.(ownerActive := false)
    case Notify(a) =>
      var t := WithPhase(s, a, Notified);
      if (if a == Completer then !s.ownerActive else s.completed)
      then t.(signals := s.signals + 1, signaller := Some(a), caller := if s.caller.Waiting? then Waking else s.caller)
      else t
    case Release(a) => WithPhase(s, a, Released).(mutex := None)
    case Return(a) => WithPhase(s, a, Finished)
    case Lock => s.(caller := Testing, mutex := Some(HeldByCaller))
    case Test => if Both(s) then s.(caller := Reading) else s.(caller := Waiting, mutex := None)
    case Spurious => s.(caller := Waking)
    case Retake => s.(caller := Testing, mutex := Some(HeldByCaller))
    case ReadStatus => s.(caller := Leaving(s.status))
    case Leave => s.(caller := Returned(s.caller.result), mutex := None)
  }

  ghost predicate Moves(s: State, step: Step, t: State) {
    Enabled(s, step) && t == Apply(s, step)
  }

  ghost predicate IsRun(run: seq<State>, schedule: seq<Step>) {
    && |run| == |schedule| + 1
    && IsInit(run[0])
    && forall i | 0 <= i < |schedule| :: Moves(run[i], schedule[i], run[i + 1])
  }

  // ---------------------------------------------------------------------------------------------
  // The invariant
  // ---------------------------------------------------------------------------------------------

  predicate Inside(p: Phase) {
    1 <= Rank(p) <= 3
  }

  predicate HoldsMutex(c: Caller) {
    c.Testing? || c.Reading? || c.Leaving?
  }

  predicate Exclusive(s: State) {
    && (s.mutex == Some(HeldBy(Completer)) <==> Inside(s.completer))
    && (s.mutex == Some(HeldBy(Owner)) <==> Inside(s.owner))
    && (s.mutex == Some(HeldByCaller) <==> HoldsMutex(s.caller))
  }

  predicate Flags(s: State) {
    && (s.completed <==> Rank(s.completer) >= 2)
    && (s.ownerActive <==> Rank(s.owner) < 2)
    && (s.completed ==> s.status == s.given)
  }

  /** Whoever updated first has left before the other comes to notify. */
  predicate Order(s: State) {
    && (s.first.None? <==> !s.completed && s.ownerActive)
    && (s.first.Some? ==> Rank(PhaseOf(s, s.first.value)) >= 2)
    && (Both(s) ==> Rank(PhaseOf(s, s.first.value)) >= 4)
    && (s.signaller.Some? <==> Both(s) && Rank(PhaseOf(s, Other(s.first.value))) >= 3)
    && (s.signaller.Some? ==> s.signaller.value == Other(s.first.value))
    && s.signals == if s.signaller.Some? then 1 else 0
  }

  predicate CallerAt(s: State) {
    && (s.caller.Waiting? ==> s.signaller.None?)
    && (s.caller.Reading? || s.caller.Leaving? || s.caller.Returned? ==>
          Both(s) && Rank(s.completer) >= 4 && Rank(s.owner) >= 4)
    && (s.caller.Leaving? || s.caller.Returned? ==> s.caller.result == s.given)
  }

  predicate Inv(s: State) {
    Exclusive(s) && Flags(s) && Order(s) && CallerAt(s)
  }

  lemma InitInv(s: State)
    requires IsInit(s)
    ensures Inv(s)
  {
  }

  lemma NextInv(s: State, step: Step)
    requires Inv(s) && Enabled(s, step)
    ensures Inv(Apply(s, step)) && Apply(s, step).given == s.given
  {
    hide Exclusive, Order, CallerAt;
    ExclusiveKept(s, step);
    OrderKept(s, step);
    CallerKept(s, step);
  }

  lemma ExclusiveKept(s: State, step: Step)
    requires Inv(s) && Enabled(s, step)
    ensures Exclusive(Apply(s, step))
  {
    hide Order, Flags, CallerAt;
  }

  lemma OrderKept(s: State, step: Step)
    requires Inv(s) && Enabled(s, step)
    ensures Order(Apply(s, step))
  {
    hide CallerAt;
    var byCaller := step.Lock? || step.Test? || step.Spurious? || step.Retake? || step.ReadStatus? || step.Leave? || step.Work?;
    if !byCaller {
      ActorOrder(s, step);
    }
  }

  lemma ActorOrder(s: State, step: Step)
    requires Inv(s) && Enabled(s, step) && (step.Enter? || step.Update? || step.Notify? || step.Release? || step.Return?)
    ensures Order(Apply(s, step))
  {
    hide CallerAt;
    if step.actor == Completer {
    } else {
    }
  }

  lemma CallerKept(s: State, step: Step)
    requires Inv(s) && Enabled(s, step)
    ensures CallerAt(Apply(s, step))
  {
  }

  lemma {:induction false} RunInv(run: seq<State>, schedule: seq<Step>, i: nat)
    requires IsRun(run, schedule) && i < |run|
    ensures Inv(run[i]) && run[i].given == run[0].given
  {
    hide Inv, Enabled, Apply;
    if i == 0 {
      InitInv(run[0]);
    } else {
      RunInv(run, schedule, i - 1);
      assert Moves(run[i - 1], schedule[i - 1], run[i - 1 + 1]);
      NextInv(run[i - 1], schedule[i - 1]);
    }
  }

  // ---------------------------------------------------------------------------------------------
  // What every run satisfies
  // ---------------------------------------------------------------------------------------------

  /** At most one signal is sent; once both are past their sections exactly one has been, and the one
      that updated last sent it. */
  lemma OneSignalByTheLast(run: seq<State>, schedule: seq<Step>, i: nat)
    requires IsRun(run, schedule) && i < |run|
    ensures run[i].signals <= 1
    ensures run[i].signals == 1 ==> run[i].first.Some? && run[i].signaller == Some(Other(run[i].first.value))
    ensures Rank(run[i].completer) >= 4 && Rank(run[i].owner) >= 4 ==> run[i].signals == 1
  {
    RunInv(run, schedule, i);
  }

  /** The caller returns only after the completion and the owner's exit, with the status completed. */
  lemma ReturnsAfterBoth(run: seq<State>, schedule: seq<Step>, i: nat)
    requires IsRun(run, schedule) && i < |run| && run[i].caller.Returned?
    ensures run[i].completed && !run[i].ownerActive && run[i].caller.result == run[0].given
  {
    RunInv(run, schedule, i);
  }

  /** Once the caller has returned, nothing but the end of an unlock already under way remains. */
  lemma NoAccessAfterReturn(run: seq<State>, schedule: seq<Step>, i: nat)
    requires IsRun(run, schedule) && i < |schedule| && run[i].caller.Returned?
    ensures schedule[i].Return? && run[i + 1].caller.Returned?
  {
    RunInv(run, schedule, i);
    assert Moves(run[i], schedule[i], run[i + 1]);
  }

  /** The caller does not sleep through the end: when both have let the mutex go it is not waiting,
      and unless it has returned it, or the thread it waits for, can go on. */
  lemma CallerIsWoken(run: seq<State>, schedule: seq<Step>, i: nat)
    requires IsRun(run, schedule) && i < |run| && Rank(run[i].completer) >= 4 && Rank(run[i].owner) >= 4
    ensures !run[i].caller.Waiting?
    ensures !run[i].caller.Returned? ==> exists step :: Enabled(run[i], step) && !step.Return? && !step.Spurious?
  {
    RunInv(run, schedule, i);
    var s := run[i];
    var holder := if s.mutex.Some? then s.mutex.value else HeldByCaller;
    assert holder.HeldBy? ==> holder == HeldBy(Completer) || holder == HeldBy(Owner);
    assert s.mutex.None? || s.mutex == Some(HeldByCaller);
    match s.caller {
      case Arriving => assert Enabled(s, Lock);
      case Testing => assert Enabled(s, Test);
      case Waking => assert Enabled(s, Retake);
      case Reading => assert Enabled(s, ReadStatus);
      case Leaving(_) => assert Enabled(s, Leave);
      case _ =>
    }
  }

  // Every step but a use of the command by its owner and a spurious wake-up makes the measure smaller, and
  // where no other step is possible, everything is over.

  predicate Progress(step: Step) {
    !step.Work? && !step.Spurious?
  }

  function CallerRank(caller: Caller): nat {
    match caller
    case Arriving => 7
    case Testing => 5
    case Waiting => 1
    case Waking => 6
    case Reading => 3
    case Leaving(_) => 2
    case Returned(_) => 0
  }

  function Measure(s: State): nat {
    10 * (6 - Rank(s.completer)) + 10 * (6 - Rank(s.owner)) + CallerRank(s.caller)
  }

  lemma StepDecreases(s: State, step: Step)
    requires Enabled(s, step) && Progress(step)
    ensures Measure(Apply(s, step)) < Measure(s)
  {
  }

  /** Without spurious wake-ups a rendezvous is at an end after as many steps as the measure says, however
      the threads are scheduled. */
  lemma {:induction false} FinishesWithin(run: seq<State>, schedule: seq<Step>, i: nat, j: nat)
    requires IsRun(run, schedule) && i <= j < |run|
    requires forall k | i <= k < j :: Progress(schedule[k])
    ensures Measure(run[j]) + (j - i) <= Measure(run[i])
    decreases j
  {
    hide Measure, Apply, Enabled, Progress;
    if i < j {
      FinishesWithin(run, schedule, i, j - 1);
      assert Moves(run[j - 1], schedule[j - 1], run[j - 1 + 1]);
      StepDecreases(run[j - 1], schedule[j - 1]);
    }
  }

  /** And it cannot stop before: if no such step is possible, both sides have finished and the caller has
      returned with the status the operation completed with. */
  lemma StuckOnlyWhenDone(run: seq<State>, schedule: seq<Step>, i: nat)
    requires IsRun(run, schedule) && i < |run|
    requires forall step | Progress(step) :: !Enabled(run[i], step)
    ensures run[i].completer.Finished? && run[i].owner.Finished?
    ensures run[i].caller == Returned(run[0].given)
  {
    RunInv(run, schedule, i);
    var s := run[i];
    if s.mutex.Some? {
      AllHolders(s.mutex.value);
    }
    assert !Enabled(s, Test) && !Enabled(s, ReadStatus) && !Enabled(s, Leave);
    ActorStuck(s, Completer);
    ActorStuck(s, Owner);
    assert !Enabled(s, Lock) && !Enabled(s, Retake);
    assert !Enabled(s, Enter(Completer)) && !Enabled(s, Enter(Owner));
  }

  lemma AllHolders(holder: Holder)
    ensures holder in {HeldBy(Completer), HeldBy(Owner), HeldByCaller}
  {
    assert holder.HeldBy? ==> holder.actor.Completer? || holder.actor.Owner?;
  }

  lemma ActorStuck(s: State, actor: Actor)
    requires forall step | Progress(step) :: !Enabled(s, step)
    ensures PhaseOf(s, actor).Outside? || PhaseOf(s, actor).Finished?
  {
    assert !Enabled(s, Update(actor)) && !Enabled(s, Notify(actor)) && !Enabled(s, Release(actor)) && !Enabled(s, Return(actor));
  }

  lemma Then(run: seq<State>, schedule: seq<Step>, step: Step) returns (longer: seq<State>, more: seq<Step>)
    requires IsRun(run, schedule) && Enabled(run[|run| - 1], step)
    ensures IsRun(longer, more) && longer[|longer| - 1] == Apply(run[|run| - 1], step)
  {
    hide Apply, Enabled, IsInit;
    longer, more := run + [Apply(run[|run| - 1], step)], schedule + [step];
    forall i | 0 <= i < |more| ensures Moves(longer[i], more[i], longer[i + 1]) {
      assert i < |schedule| ==> Moves(run[i], schedule[i], run[i + 1]);
    }
  }

  /** Either side may come first, and the caller returns with any status. */
  lemma ReturningRun(first: Actor, given: int) returns (run: seq<State>, schedule: seq<Step>)
    ensures IsRun(run, schedule) && run[|run| - 1].caller == Returned(given) && run[|run| - 1].first == Some(first)
  {
    run, schedule := [State(None, false, true, 0, Outside, Outside, Arriving, given, None, 0, None)], [];
    run, schedule := Passes(run, schedule, first);
    run, schedule := Passes(run, schedule, Other(first));
    hide IsRun;
    run, schedule := Then(run, schedule, Lock);
    run, schedule := Then(run, schedule, Test);
    run, schedule := Then(run, schedule, ReadStatus);
    run, schedule := Then(run, schedule, Leave);
  }

  lemma Passes(run: seq<State>, schedule: seq<Step>, actor: Actor) returns (longer: seq<State>, more: seq<Step>)
    requires IsRun(run, schedule)
    requires var s := run[|run| - 1]; s.mutex.None? && PhaseOf(s, actor).Outside? && s.caller.Arriving?
    ensures IsRun(longer, more)
    ensures var s, t := run[|run| - 1], longer[|longer| - 1];
            && t.mutex.None? && t.caller == s.caller && PhaseOf(t, Other(actor)) == PhaseOf(s, Other(actor))
            && t.first == (if s.first.None? then Some(actor) else s.first) && t.given == s.given
            && (if actor == Completer then t.completed && t.status == s.given && t.ownerActive == s.ownerActive
                else !t.ownerActive && t.completed == s.completed && t.status == s.status)
  {
    hide IsRun;
    longer, more := Then(run, schedule, Enter(actor));
    longer, more := Then(longer, more, Update(actor));
    longer, more := Then(longer, more, Notify(actor));
    longer, more := Then(longer, more, Release(actor));
    longer, more := Then(longer, more, Return(actor));
  }
}
