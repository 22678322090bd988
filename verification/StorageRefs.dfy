/** The reference count of the SPDK storage context: submits take two references at once, one for
    the call and one for its completion; `close` sets the closing bit and tears the context down
    when the count has drained.  The task pool recycles the tasks that submits fill and completions
    return.  Every atomic access and every section under the pool's lock is one step; calls are
    named by numbers that are never reused. */
module StorageRefs {
  import opened Wrappers
  import opened Collections

  const COUNT_MASK: nat := 0x7fff_ffff_ffff_ffff
  const POOL_CAPACITY: nat := 1024

  /** `async_state`: the closing bit and the count below it. */
  datatype Word = Word(closing: bool, count: nat)

  datatype Ref = Frame(call: nat) | Completion(call: nat)

  /** Where a thread is inside `releaseAsync`. */
  datatype Stage =
    | Load
    | Loop(seen: Word)
    | MustSet       // saw the last reference: about to set the drain event
    | MustStore     // about to store the bare closing bit

  /** Where a call is inside `submitReadManyAt`. */
  datatype Call =
    | Entered
    | Acquiring(seen: Word)
    | Holding                                        // both references, no task yet
    | Filling(task: nat)                             // owns a task
    | Handed                                         // the dispatcher owns the task
    | Releasing(ref: Ref, both: bool, stage: Stage)  // `both`: the completion reference is next
    | Returned

  /** Where a completion is inside `asyncReadComplete`. */
  datatype Completing =
    | InFlight(task: nat)
    | Notifying                  // task back in the pool: about to call back
    | Dropping(stage: Stage)

  datatype Closer = Open | Waiting | Spinning | TearingDown | Closed

  /** `active` is the count `close` saw, `sets` counts the sets of the drain event, `setter` is the
      reference whose release has set it and not yet stored, `refs` are the references held. */
  datatype State = State(
    word: Word,
    calls: map<nat, Call>,
    completions: map<nat, Completing>,
    pool: seq<nat>,
    live: set<nat>,
    nextTask: nat,
    closer: Closer,
    active: nat,
    sets: nat,
    setter: Option<Ref>,
    refs: set<Ref>)

  datatype Step =
    | Enter(p: nat)
    | AcquireLoad(p: nat)
    | AcquireSwap(p: nat, spurious: bool)
    | Reject(p: nat)                     // a read is out of bounds, or no task could be allocated
    | TakeTask(p: nat)                   // from the pool, or a new one
    | HandOver(p: nat)                   // the dispatcher accepts the batch
    | Abandon(p: nat)                    // the dispatcher refuses it, or there is nothing to read
    | Return(p: nat)
    | Finish(p: nat)                     // a completion arrives: the task goes back
    | Notify(p: nat)                     // the caller's callback
    | CallRelease(p: nat, spurious: bool)
    | CompletionRelease(p: nat, spurious: bool)
    | SetClosing
    | SeeDrained
    | SeeZero
    | TearDown

  ghost predicate Init(s: State) {
    s == State(Word(false, 0), map[], map[], [], {}, 0, Open, 0, 0, None, {})
  }

  predicate Enabled(s: State, step: Step) {
    match step
    case Enter(p) => p !in s.calls && !s.closer.TearingDown? && !s.closer.Closed?
    case AcquireLoad(p) => p in s.calls && s.calls[p].Entered?
    case AcquireSwap(p, _) => p in s.calls && s.calls[p].Acquiring?
    case Reject(p) => p in s.calls && s.calls[p].Holding?
    case TakeTask(p) => p in s.calls && s.calls[p].Holding?
    case HandOver(p) => p in s.calls && s.calls[p].Filling? && p !in s.completions
    case Abandon(p) => p in s.calls && s.calls[p].Filling?
    case Return(p) => p in s.calls && s.calls[p].Handed?
    case Finish(p) => p in s.completions && s.completions[p].InFlight?
    case Notify(p) => p in s.completions && s.completions[p].Notifying?
    case CallRelease(p, _) => p in s.calls && s.calls[p].Releasing?
    case CompletionRelease(p, _) => p in s.completions && s.completions[p].Dropping?
    case SetClosing => s.closer.Open?
    case SeeDrained => s.closer.Waiting? && s.sets > 0
    case SeeZero => s.closer.Spinning? && s.word.count == 0
    case TearDown => s.closer.TearingDown?
  }

  /** A release at one stage: the new word, and the stage reached; done when there is none. */
  datatype Released = Released(word: Word, next: Option<Stage>, signals: bool)

  function Release(word: Word, stage: Stage, spurious: bool): Released {
    match stage
    case Load => Released(word, Some(Loop(word)), false)
    case Loop(seen) =>
      if seen == Word(true, 1) then Released(word, Some(MustSet), false)
      else if word == seen && seen.count > 0 && !spurious then Released(Word(word.closing, word.count - 1), None, false)
      else Released(word, Some(Loop(word)), false)
    case MustSet => Released(word, Some(MustStore), true)
    case MustStore => Released(Word(true, 0), None, false)
  }

  /** The shared part of a release step by the holder of `ref`. */
  function AfterRelease(s: State, ref: Ref, stage: Stage, spurious: bool): State {
    var r := Release(s.word, stage, spurious);
    s.(word := r.word,
       sets := if r.signals then s.sets + 1 else s.sets,
       setter := if r.signals then Some(ref) else if r.next.None? && stage.MustStore? then None else s.setter,
       refs := if r.next.None? then s.refs - {ref} else s.refs)
  }

  function Freed(s: State, task: nat): State {
    if |s.pool| < POOL_CAPACITY then s.(pool := s.pool + [task]) else s.(live := s.live - {task})
  }

  function Apply(s: State, step: Step): State
    requires Enabled(s, step)
  {
    match step
    case Enter(p) => s.(calls := s.calls[p := Entered])
    case AcquireLoad(p) => s.(calls := s.calls[p := Acquiring(s.word)])
    case AcquireSwap(p, spurious) =>
      var seen := s.calls[p].seen;
      if seen.closing || seen.count > COUNT_MASK - 2 then s.(calls := s.calls[p := Returned])
      else if s.word == seen && !spurious then
        s.(word := Word(false, seen.count + 2), calls := s.calls[p := Holding], refs := s.refs + {Frame(p), Completion(p)})
      else s.(calls := s.calls[p := Acquiring(s.word)])
    case Reject(p) => s.(calls := s.calls[p := Releasing(Frame(p), true, Load)])
    case TakeTask(p) =>
      if |s.pool| > 0 then
        var n := |s.pool| - 1;
        s.(calls := s.calls[p := Filling(s.pool[n])], pool := s.pool[..n])
      else
        s.(calls := s.calls[p := Filling(s.nextTask)], live := s.live + {s.nextTask}, nextTask := s.nextTask + 1)
    case HandOver(p) =>
      s.(completions := s.completions[p := InFlight(s.calls[p].task)], calls := s.calls[p := Handed])
    case Abandon(p) => Freed(s, s.calls[p].task).(calls := s.calls[p := Releasing(Frame(p), true, Load)])
    case Return(p) => s.(calls := s.calls[p := Releasing(Frame(p), false, Load)])
    case Finish(p) => Freed(s, s.completions[p].task).(completions := s.completions[p := Notifying])
    case Notify(p) => s.(completions := s.completions[p := Dropping(Load)])
    case CallRelease(p, spurious) =>
      var Releasing(ref, both, stage) := s.calls[p];
      var r := Release(s.word, stage, spurious);
      AfterRelease(s, ref, stage, spurious)
      .(calls := s.calls[p := if r.next.Some? then Releasing(ref, both, r.next.value)
                              else if both then Releasing(Completion(p), false, Load)
                              else Returned])
    case CompletionRelease(p, spurious) =>
      var stage := s.completions[p].stage;
      var r := Release(s.word, stage, spurious);
      AfterRelease(s, Completion(p), stage, spurious)
      .(completions := if r.next.Some? then s.completions[p := Dropping(r.next.value)] else s.completions - {p})
    case SetClosing =>
      s.(word := Word(true, s.word.count), active := s.word.count, closer := if s.word.count == 0 then TearingDown else Waiting)
    case SeeDrained => s.(closer := Spinning)
    case SeeZero => s.(closer := TearingDown)
    case TearDown => s.(closer := Closed, live := s.live - (set t | t in s.pool), pool := [])
  }

  ghost predicate Moves(s: State, step: Step, t: State) {
    Enabled(s, step) && t == Apply(s, step)
  }

  ghost predicate IsRun(run: seq<State>, schedule: seq<Step>) {
    && |run| == |schedule| + 1
    && Init(run[0])
    && forall i | 0 <= i < |schedule| :: Moves(run[i], schedule[i], run[i + 1])
  }

  // ---------------------------------------------------------------------------------------------
  // The invariant
  // ---------------------------------------------------------------------------------------------

  /** The references a call holds at its place in `submitReadManyAt`. */
  function CallRefs(p: nat, call: Call): set<Ref> {
    match call
    case Holding => {Frame(p), Completion(p)}
    case Filling(_) => {Frame(p), Completion(p)}
    case Handed => {Frame(p)}
    case Releasing(ref, both, _) => if both then {Frame(p), Completion(p)} else {ref}
    case _ => {}
  }

  predicate Started(call: Call) {
    call.Handed? || call.Releasing? || call.Returned?
  }

  /** A reference of call `p` is held exactly when the call or its completion is at a place that
      holds it; the completion reference belongs to one of the two at a time. */
  ghost predicate RefAt(s: State, p: nat) {
    if p in s.calls then
      var call := s.calls[p];
      && (call.Releasing? ==> call.ref == Frame(p) || (call.ref == Completion(p) && !call.both))
      && (Frame(p) in s.refs <==> Frame(p) in CallRefs(p, call))
      && (Completion(p) in s.refs <==> Completion(p) in CallRefs(p, call) || p in s.completions)
      && (p in s.completions ==> Started(call) && Completion(p) !in CallRefs(p, call))
    else
      p !in s.completions && Frame(p) !in s.refs && Completion(p) !in s.refs
  }

  ghost predicate RefsInv(s: State) {
    && |s.refs| == s.word.count <= COUNT_MASK
    && forall p: nat :: RefAt(s, p)
  }

  /** The stage of the release of a reference, if one is under way. */
  function StageOf(s: State, ref: Ref): Option<Stage> {
    var p := ref.call;
    if p in s.calls && s.calls[p].Releasing? && s.calls[p].ref == ref then Some(s.calls[p].stage)
    else if ref.Completion? && p in s.completions && s.completions[p].Dropping? then Some(s.completions[p].stage)
    else None
  }

  predicate SeesLast(stage: Stage) {
    stage.MustSet? || stage.MustStore? || stage == Loop(Word(true, 1))
  }

  /** A release that saw the last reference holds the only one, under the closing bit; and no
      release ever sees a count of zero. */
  ghost predicate StageAt(s: State, ref: Ref) {
    var stage := StageOf(s, ref);
    && (stage.Some? && SeesLast(stage.value) ==> s.word == Word(true, 1) && s.refs == {ref})
    && (stage == Some(MustStore) <==> s.setter == Some(ref))
    && (stage.Some? && stage.value.Loop? ==> stage.value.seen.count > 0)
  }

  ghost predicate StagesInv(s: State) {
    forall ref :: StageAt(s, ref)
  }

  ghost predicate CloserInv(s: State) {
    && (s.word.closing <==> !s.closer.Open?)
    && (s.word.closing ==> s.word.count <= s.active)
    && s.sets == (if s.word.closing && s.active > 0 && (s.word.count == 0 || s.setter.Some?) then 1 else 0)
    && (s.setter.Some? ==> s.active > 0)
    && (s.closer.Waiting? || s.closer.Spinning? ==> s.active > 0)
    && (s.closer.Spinning? ==> s.sets == 1)
    && (s.closer.TearingDown? || s.closer.Closed? ==> s.word.count == 0)
  }

  /** Who owns a task outside the pool. */
  datatype Owner = CallOwner(p: nat) | DispatcherOwner(p: nat)

  predicate Owns(s: State, owner: Owner, task: nat) {
    match owner
    case CallOwner(p) => p in s.calls && s.calls[p] == Filling(task)
    case DispatcherOwner(p) => p in s.completions && s.completions[p] == InFlight(task)
  }

  ghost predicate Owned(s: State, task: nat) {
    exists owner :: Owns(s, owner, task)
  }

  /** Every live task is in the pool, once, or has one owner, and not both. */
  ghost predicate TasksInv(s: State) {
    && (forall i, j | 0 <= i < j < |s.pool| :: s.pool[i] != s.pool[j])
    && (forall t | t in s.live :: t < s.nextTask)
    && (forall t | t in s.pool :: t in s.live)
    && (forall owner, t | Owns(s, owner, t) :: t in s.live && t !in s.pool)
    && (forall a, b, t | Owns(s, a, t) && Owns(s, b, t) :: a == b)
    && (forall t | t in s.live :: t in s.pool || Owned(s, t))
  }

  ghost predicate Inv(s: State) {
    RefsInv(s) && StagesInv(s) && CloserInv(s) && TasksInv(s)
  }

  lemma InitInv(s: State)
    requires Init(s)
    ensures Inv(s)
  {
  }

  // ---------------------------------------------------------------------------------------------
  // Every step keeps the references
  // ---------------------------------------------------------------------------------------------

  /** The call a step is about. */
  function Actor(step: Step): Option<nat> {
    match step
    case SetClosing => None
    case SeeDrained => None
    case SeeZero => None
    case TearDown => None
    case _ => Some(step.p)
  }

  ghost predicate SameAt(s: State, t: State, q: nat) {
    && (q in s.calls <==> q in t.calls) && (q in s.calls ==> t.calls[q] == s.calls[q])
    && (q in s.completions <==> q in t.completions) && (q in s.completions ==> t.completions[q] == s.completions[q])
    && (Frame(q) in s.refs <==> Frame(q) in t.refs)
    && (Completion(q) in s.refs <==> Completion(q) in t.refs)
  }

  lemma OthersSame(s: State, step: Step, q: nat)
    requires RefsInv(s) && Enabled(s, step) && Actor(step) != Some(q)
    ensures SameAt(s, Apply(s, step), q)
  {
    if Actor(step).Some? {
      assert RefAt(s, step.p);
    }
  }

  /** The reference of a release under way is held. */
  lemma ReleasedIsHeld(s: State, ref: Ref)
    requires RefsInv(s) && StageOf(s, ref).Some?
    ensures ref in s.refs && s.word.count > 0
  {
    assert RefAt(s, ref.call);
    assert s.refs != {};
  }

  lemma ActorKept(s: State, step: Step)
    requires RefsInv(s) && Enabled(s, step) && Actor(step).Some?
    ensures RefAt(Apply(s, step), step.p)
  {
    assert RefAt(s, step.p);
  }

  lemma CountKept(s: State, step: Step)
    requires RefsInv(s) && StagesInv(s) && Enabled(s, step)
    ensures |Apply(s, step).refs| == Apply(s, step).word.count <= COUNT_MASK
  {
    if step.AcquireSwap? {
      AcquireCount(s, step.p);
    } else if step.CallRelease? || step.CompletionRelease? {
      hide RefAt, StageAt, Release;
      var mine := if step.CallRelease? then s.calls[step.p].ref else Completion(step.p);
      StageMoves(s, step, mine);
      ReleaseCount(s, mine, step.spurious);
    }
  }

  lemma AcquireCount(s: State, p: nat)
    requires RefsInv(s) && p in s.calls && s.calls[p].Acquiring?
    ensures |s.refs + {Frame(p), Completion(p)}| == |s.refs| + 2
  {
    assert RefAt(s, p);
    assert s.refs + {Frame(p), Completion(p)} == (s.refs + {Frame(p)}) + {Completion(p)};
  }

  lemma ReleaseCount(s: State, ref: Ref, spurious: bool)
    requires RefsInv(s) && StagesInv(s) && StageOf(s, ref).Some?
    ensures var t := AfterRelease(s, ref, StageOf(s, ref).value, spurious);
            |t.refs| == t.word.count <= COUNT_MASK
  {
    ReleasedIsHeld(s, ref);
    assert StageAt(s, ref);
    assert |s.refs - {ref}| == |s.refs| - 1;
  }

  lemma RefsKept(s: State, step: Step)
    requires RefsInv(s) && StagesInv(s) && Enabled(s, step)
    ensures RefsInv(Apply(s, step))
  {
    hide Apply, Enabled, RefAt;
    CountKept(s, step);
    forall p: nat ensures RefAt(Apply(s, step), p) {
      if Actor(step) == Some(p) {
        ActorKept(s, step);
      } else {
        OthersSame(s, step, p);
        RefAtSame(s, Apply(s, step), p);
      }
    }
  }

  lemma RefAtSame(s: State, t: State, p: nat)
    requires RefAt(s, p) && SameAt(s, t, p)
    ensures RefAt(t, p)
  {
  }

  // ---------------------------------------------------------------------------------------------
  // Every step keeps the stages of releases
  // ---------------------------------------------------------------------------------------------

  /** Steps that are not releases change no stage but to start one at its load. */
  lemma QuietStageOf(s: State, step: Step, ref: Ref)
    requires RefsInv(s) && Enabled(s, step) && !step.CallRelease? && !step.CompletionRelease?
    ensures || StageOf(Apply(s, step), ref) == StageOf(s, ref)
            || (StageOf(s, ref).None? && StageOf(Apply(s, step), ref) == Some(Load))
    ensures Apply(s, step).setter == s.setter
    ensures step.SetClosing? || step.AcquireSwap? || (Apply(s, step).word == s.word && Apply(s, step).refs == s.refs)
  {
    assert RefAt(s, ref.call);
  }

  lemma QuietStages(s: State, step: Step, ref: Ref)
    requires RefsInv(s) && StagesInv(s) && (s.word.closing <==> !s.closer.Open?) && Enabled(s, step)
    requires !step.CallRelease? && !step.CompletionRelease?
    ensures StageAt(Apply(s, step), ref)
  {
    hide RefsInv, StageOf;
    QuietStageOf(s, step, ref);
    assert StageAt(s, ref);
  }

  /** A release step, whoever takes it: its own stage moves on, the others' stay. */
  lemma ReleaseStages(s: State, t: State, mine: Ref, spurious: bool, ref: Ref)
    requires RefsInv(s) && StagesInv(s) && StageOf(s, mine).Some?
    requires var u := AfterRelease(s, mine, StageOf(s, mine).value, spurious);
             t.word == u.word && t.refs == u.refs && t.setter == u.setter
    requires ref == mine ==> StageOf(t, ref) == Release(s.word, StageOf(s, mine).value, spurious).next
    requires ref != mine ==> StageOf(t, ref) == StageOf(s, ref) || (StageOf(s, ref).None? && StageOf(t, ref) == Some(Load))
    ensures StageAt(t, ref)
  {
    assert StageAt(s, ref) && StageAt(s, mine);
    ReleasedIsHeld(s, mine);
    if ref == mine && s.word == Word(true, 1) {
      assert s.refs == {mine} by {
        Singleton(s.refs, mine);
      }
    }
  }

  lemma Singleton(refs: set<Ref>, ref: Ref)
    requires |refs| == 1 && ref in refs
    ensures refs == {ref}
  {
    assert |refs - {ref}| == 0;
  }

  lemma StagesKept(s: State, step: Step)
    requires RefsInv(s) && StagesInv(s) && (s.word.closing <==> !s.closer.Open?) && Enabled(s, step)
    ensures StagesInv(Apply(s, step))
  {
    hide StageAt;
    forall ref ensures StageAt(Apply(s, step), ref) {
      if step.CallRelease? {
        StageMoves(s, step, ref);
        ReleaseStages(s, Apply(s, step), s.calls[step.p].ref, step.spurious, ref);
      } else if step.CompletionRelease? {
        StageMoves(s, step, ref);
        ReleaseStages(s, Apply(s, step), Completion(step.p), step.spurious, ref);
      } else {
        QuietStages(s, step, ref);
      }
    }
  }

  lemma StageMoves(s: State, step: Step, ref: Ref)
    requires RefsInv(s) && Enabled(s, step) && (step.CallRelease? || step.CompletionRelease?)
    ensures var mine := if step.CallRelease? then s.calls[step.p].ref else Completion(step.p);
            && StageOf(s, mine).Some?
            && StageOf(s, mine).value == (if step.CallRelease? then s.calls[step.p].stage else s.completions[step.p].stage)
            && (ref == mine ==> StageOf(Apply(s, step), ref) == Release(s.word, StageOf(s, mine).value, step.spurious).next)
            && (ref != mine ==>
                  || StageOf(Apply(s, step), ref) == StageOf(s, ref)
                  || (StageOf(s, ref).None? && StageOf(Apply(s, step), ref) == Some(Load)))
  {
    assert RefAt(s, step.p);
  }

  lemma CloserKept(s: State, step: Step)
    requires RefsInv(s) && StagesInv(s) && CloserInv(s) && Enabled(s, step)
    ensures CloserInv(Apply(s, step))
  {
    assert s.setter.Some? ==> StageAt(s, s.setter.value);
    if step.CallRelease? || step.CompletionRelease? {
      var mine := if step.CallRelease? then s.calls[step.p].ref else Completion(step.p);
      StageMoves(s, step, mine);
      assert StageAt(s, mine);
      ReleasedIsHeld(s, mine);
      SetterAlone(s, mine);
    }
  }

  /** While a release has set the event and not stored, no other reference is held. */
  lemma SetterAlone(s: State, mine: Ref)
    requires StagesInv(s) && mine in s.refs
    ensures s.setter.Some? ==> s.setter == Some(mine) && s.word == Word(true, 1)
  {
    if s.setter.Some? {
      assert StageAt(s, s.setter.value);
    }
  }

  // ---------------------------------------------------------------------------------------------
  // Every step keeps the tasks apart
  // ---------------------------------------------------------------------------------------------

  /** Steps that move no task. */
  lemma QuietTasks(s: State, step: Step)
    requires TasksInv(s) && Enabled(s, step)
    requires !(step.TakeTask? || step.HandOver? || step.Abandon? || step.Finish? || step.TearDown?)
    ensures TasksInv(Apply(s, step))
  {
    hide TasksInv;
    var t := Apply(s, step);
    forall owner, task ensures Owns(t, owner, task) <==> Owns(s, owner, task) {
    }
    OwnsSame(s, t);
  }

  lemma OwnsSame(s: State, t: State)
    requires TasksInv(s) && t.pool == s.pool && t.live == s.live && t.nextTask == s.nextTask
    requires forall owner, task :: Owns(t, owner, task) <==> Owns(s, owner, task)
    ensures TasksInv(t)
  {
    forall task | task in t.live ensures task in t.pool || Owned(t, task) {
      if task !in s.pool {
        var owner :| Owns(s, owner, task);
        assert Owns(t, owner, task);
      }
    }
  }

  lemma TakeTaskTasks(s: State, p: nat)
    requires TasksInv(s) && Enabled(s, TakeTask(p))
    ensures TasksInv(Apply(s, TakeTask(p)))
  {
    var t := Apply(s, TakeTask(p));
    var mine := t.calls[p].task;
    forall owner, task ensures Owns(t, owner, task) <==> Owns(s, owner, task) || (owner == CallOwner(p) && task == mine) {
    }
    forall task | task in t.live ensures task in t.pool || Owned(t, task) {
      if task == mine {
        assert Owns(t, CallOwner(p), task);
      } else if task !in s.pool {
        var owner :| Owns(s, owner, task);
        assert Owns(t, owner, task);
      }
    }
  }

  lemma HandOverTasks(s: State, p: nat)
    requires TasksInv(s) && Enabled(s, HandOver(p))
    ensures TasksInv(Apply(s, HandOver(p)))
  {
    var t := Apply(s, HandOver(p));
    var mine := s.calls[p].task;
    assert Owns(s, CallOwner(p), mine);
    forall owner, task ensures Owns(t, owner, task) <==>
        (Owns(s, owner, task) && owner != CallOwner(p)) || (owner == DispatcherOwner(p) && task == mine) {
    }
    forall task | task in t.live ensures task in t.pool || Owned(t, task) {
      if task !in s.pool {
        var owner :| Owns(s, owner, task);
        assert Owns(t, if owner == CallOwner(p) then DispatcherOwner(p) else owner, task);
      }
    }
  }

  /** A task given back by its owner goes to the pool or, when that is full, away. */
  lemma FreedTasks(s: State, t: State, mine: Owner, task: nat)
    requires TasksInv(s) && Owns(s, mine, task)
    requires t.pool == Freed(s, task).pool && t.live == Freed(s, task).live && t.nextTask == s.nextTask
    requires forall owner, x :: Owns(t, owner, x) <==> Owns(s, owner, x) && owner != mine
    ensures TasksInv(t)
  {
    forall x | x in t.live ensures x in t.pool || Owned(t, x) {
      if x == task {
        assert t.pool[|s.pool|] == task;
      } else if x in s.pool {
        var i :| 0 <= i < |s.pool| && s.pool[i] == x;
        assert t.pool[i] == x;
      } else {
        var owner :| Owns(s, owner, x);
        assert Owns(t, owner, x);
      }
    }
  }

  lemma TasksKept(s: State, step: Step)
    requires TasksInv(s) && Enabled(s, step)
    ensures TasksInv(Apply(s, step))
  {
    hide TasksInv;
    match step
    case TakeTask(p) => TakeTaskTasks(s, p);
    case HandOver(p) => HandOverTasks(s, p);
    case Abandon(p) => FreedTasks(s, Apply(s, step), CallOwner(p), s.calls[p].task);
    case Finish(p) => FreedTasks(s, Apply(s, step), DispatcherOwner(p), s.completions[p].task);
    case TearDown => TearDownTasks(s);
    case _ => QuietTasks(s, step);
  }

  lemma TearDownTasks(s: State)
    requires TasksInv(s) && Enabled(s, TearDown)
    ensures TasksInv(Apply(s, TearDown))
  {
    var t := Apply(s, TearDown);
    forall owner, task ensures Owns(t, owner, task) <==> Owns(s, owner, task) {
    }
    forall task | task in t.live ensures Owned(t, task) {
      var owner :| Owns(s, owner, task);
      assert Owns(t, owner, task);
    }
  }

  lemma NextInv(s: State, step: Step)
    requires Inv(s) && Enabled(s, step)
    ensures Inv(Apply(s, step))
  {
    hide RefsInv, StagesInv, TasksInv, Apply, Enabled;
    RefsKept(s, step);
    StagesKept(s, step);
    CloserKept(s, step);
    TasksKept(s, step);
  }

  // ---------------------------------------------------------------------------------------------
  // What every run keeps
  // ---------------------------------------------------------------------------------------------

  lemma {:induction false} RunInv(run: seq<State>, schedule: seq<Step>, i: nat)
    requires IsRun(run, schedule) && i < |run|
    ensures Inv(run[i])
  {
    hide Inv, Enabled, Apply;
    if i == 0 {
      InitInv(run[0]);
    } else {
      RunInv(run, schedule, i - 1);
      assert Moves(run[i - 1], schedule[i - 1], run[i - 1 + 1]);
      NextInv(run[i - 1], schedule[i - 1]);
    }
  }

  /** The context is torn down only when no call and no completion holds a reference: every call has
      returned or has not acquired one, and no completion is under way. */
  lemma TornDownUnreferenced(run: seq<State>, schedule: seq<Step>, i: nat)
    requires IsRun(run, schedule) && i < |run| && (run[i].closer.TearingDown? || run[i].closer.Closed?)
    ensures run[i].refs == {} && run[i].completions == map[]
    ensures forall p | p in run[i].calls :: run[i].calls[p].Entered? || run[i].calls[p].Acquiring? || run[i].calls[p].Returned?
  {
    RunInv(run, schedule, i);
    var s := run[i];
    assert s.refs == {};
    forall p | p in s.calls ensures s.calls[p].Entered? || s.calls[p].Acquiring? || s.calls[p].Returned? {
      assert RefAt(s, p);
    }
    forall p ensures p !in s.completions {
      assert RefAt(s, p);
    }
  }

  /** Once the closing bit is set it stays set, and no reference is ever gained. */
  lemma {:induction false} NoneGainedAfterClosing(run: seq<State>, schedule: seq<Step>, i: nat, j: nat)
    requires IsRun(run, schedule) && i <= j < |run| && run[i].word.closing
    ensures run[j].word.closing && run[j].refs <= run[i].refs && run[j].active == run[i].active
    decreases j
  {
    if i < j {
      NoneGainedAfterClosing(run, schedule, i, j - 1);
      RunInv(run, schedule, j - 1);
      assert Moves(run[j - 1], schedule[j - 1], run[j - 1 + 1]);
      ClosingStays(run[j - 1], schedule[j - 1]);
    }
  }

  lemma ClosingStays(s: State, step: Step)
    requires Inv(s) && Enabled(s, step) && s.word.closing
    ensures Apply(s, step).word.closing && Apply(s, step).refs <= s.refs && Apply(s, step).active == s.active
  {
    hide RefsInv, TasksInv, StagesInv;
  }

  /** The drain event is set at most once, and by the end of `close` exactly once if `close` saw
      references outstanding and never otherwise. */
  lemma DrainSetOnce(run: seq<State>, schedule: seq<Step>, i: nat)
    requires IsRun(run, schedule) && i < |run|
    ensures run[i].sets <= 1
    ensures run[i].sets == 1 ==> run[i].word.closing && run[i].active > 0
    ensures run[i].closer.TearingDown? || run[i].closer.Closed? ==> (run[i].sets == 1 <==> run[i].active > 0)
  {
    RunInv(run, schedule, i);
    var s := run[i];
    assert s.setter.Some? ==> StageAt(s, s.setter.value);
  }

  /** The count is always the number of references held, and a release never sees zero. */
  lemma CountIsReferences(run: seq<State>, schedule: seq<Step>, i: nat)
    requires IsRun(run, schedule) && i < |run|
    ensures run[i].word.count == |run[i].refs|
    ensures forall ref :: StageOf(run[i], ref).Some? ==> ref in run[i].refs
    ensures forall ref :: StageOf(run[i], ref).Some? && StageOf(run[i], ref).value.Loop? ==> StageOf(run[i], ref).value.seen.count > 0
  {
    RunInv(run, schedule, i);
    forall ref | StageOf(run[i], ref).Some?
      ensures ref in run[i].refs && (StageOf(run[i], ref).value.Loop? ==> StageOf(run[i], ref).value.seen.count > 0)
    {
      ReleasedIsHeld(run[i], ref);
      assert StageAt(run[i], ref);
    }
  }

  /** No task is in the pool and with an owner at once, or with two owners; and `close` leaves none
      behind. */
  lemma TasksApart(run: seq<State>, schedule: seq<Step>, i: nat)
    requires IsRun(run, schedule) && i < |run|
    ensures forall owner, t | Owns(run[i], owner, t) :: t in run[i].live && t !in run[i].pool
    ensures forall a, b, t | Owns(run[i], a, t) && Owns(run[i], b, t) :: a == b
    ensures run[i].closer.Closed? ==> run[i].live == {}
  {
    RunInv(run, schedule, i);
    if run[i].closer.Closed? {
      TornDownUnreferenced(run, schedule, i);
      PoolEmptyAfterClose(run, schedule, i);
      assert forall owner, t :: !Owns(run[i], owner, t);
      assert forall t :: t !in run[i].live;
    }
  }

  lemma {:induction false} PoolEmptyAfterClose(run: seq<State>, schedule: seq<Step>, i: nat)
    requires IsRun(run, schedule) && i < |run| && run[i].closer.Closed?
    ensures run[i].pool == []
  {
    if i > 0 {
      var s, step := run[i - 1], schedule[i - 1];
      assert Moves(s, step, run[i - 1 + 1]);
      if s.closer.Closed? {
        PoolEmptyAfterClose(run, schedule, i - 1);
        TornDownUnreferenced(run, schedule, i - 1);
      }
    }
  }

  /** A call is turned away exactly if the word it acts on has the closing bit or a count that two more
      references would overflow; it gets its two references exactly if that word is still there. */
  lemma AcquireDecides(run: seq<State>, schedule: seq<Step>, i: nat, p: nat)
    requires IsRun(run, schedule) && i < |schedule| && schedule[i] == AcquireSwap(p, false)
    ensures p in run[i].calls && run[i].calls[p].Acquiring? && p in run[i + 1].calls
    ensures var seen := run[i].calls[p].seen;
            && (run[i + 1].calls[p].Returned? <==> seen.closing || seen.count + 2 > 0x7fff_ffff_ffff_ffff)
            && (run[i + 1].calls[p].Holding? <==> run[i].word == seen && !seen.closing && seen.count + 2 <= 0x7fff_ffff_ffff_ffff)
            && (run[i + 1].calls[p].Holding? ==> run[i + 1].word == Word(false, run[i].word.count + 2))
  {
    assert Moves(run[i], schedule[i], run[i + 1]);
  }

  /** The pool never keeps more than 1024 tasks. */
  lemma {:induction false} PoolBounded(run: seq<State>, schedule: seq<Step>, i: nat)
    requires IsRun(run, schedule) && i < |run|
    ensures |run[i].pool| <= 1024
  {
    if i > 0 {
      PoolBounded(run, schedule, i - 1);
      assert Moves(run[i - 1], schedule[i - 1], run[i - 1 + 1]);
    }
  }

  lemma Then(run: seq<State>, schedule: seq<Step>, step: Step) returns (longer: seq<State>, more: seq<Step>)
    requires IsRun(run, schedule) && Enabled(run[|run| - 1], step)
    ensures IsRun(longer, more) && longer[|longer| - 1] == Apply(run[|run| - 1], step)
  {
    hide Apply, Enabled;
    longer, more := run + [Apply(run[|run| - 1], step)], schedule + [step];
    forall i | 0 <= i < |more| ensures Moves(longer[i], more[i], longer[i + 1]) {
      assert i < |schedule| ==> Moves(run[i], schedule[i], run[i + 1]);
    }
  }

  /** Calls 0 to `n - 1` have handed over a batch each, and hold two references each. */
  ghost predicate HandedOver(s: State, n: nat) {
    && s.closer.Open? && s.word == Word(false, 2 * n) && s.pool == []
    && (forall p: nat :: p in s.calls <==> p < n) && (forall p: nat :: p in s.completions <==> p < n)
    && (forall p: nat | p < n :: s.calls[p].Handed? && s.completions[p].InFlight?)
  }

  /** As many reads can be in flight as the count has room for. */
  lemma {:induction false} HandedOverRun(n: nat) returns (run: seq<State>, schedule: seq<Step>)
    requires 2 * n <= 0x7fff_ffff_ffff_ffff
    ensures IsRun(run, schedule) && HandedOver(run[|run| - 1], n)
    decreases n
  {
    if n == 0 {
      run, schedule := [State(Word(false, 0), map[], map[], [], {}, 0, Open, 0, 0, None, {})], [];
    } else {
      run, schedule := HandedOverRun(n - 1);
      hide IsRun;
      run, schedule := Then(run, schedule, Enter(n - 1));
      run, schedule := Then(run, schedule, AcquireLoad(n - 1));
      run, schedule := Then(run, schedule, AcquireSwap(n - 1, false));
      run, schedule := Then(run, schedule, TakeTask(n - 1));
      run, schedule := Then(run, schedule, HandOver(n - 1));
    }
  }

  // ---------------------------------------------------------------------------------------------
  // Every run comes to an end
  // ---------------------------------------------------------------------------------------------

  // No step but a new call, the start of `close` and a compare-and-swap that fails for no reason leaves
  // the measure below as large as it was; and where no other step is possible, everything is over.

  predicate Progress(step: Step) {
    match step
    case Enter(_) => false
    case SetClosing => false
    case AcquireSwap(_, spurious) => !spurious
    case CallRelease(_, spurious) => !spurious
    case CompletionRelease(_, spurious) => !spurious
    case _ => true
  }

  function StageRank(stage: Stage): (n: nat)
    ensures n <= 5
  {
    match stage
    case Load => 5
    case Loop(_) => 4
    case MustSet => 2
    case MustStore => 1
  }

  function CallRank(call: Call): nat {
    match call
    case Entered => 43
    case Acquiring(_) => 42
    case Holding => 41
    case Filling(_) => 40
    case Handed => 20
    case Releasing(_, both, stage) => StageRank(stage) + if both then 10 else 0
    case Returned => 0
  }

  function CompletionRank(completing: Completing): nat {
    match completing
    case InFlight(_) => 8
    case Notifying => 7
    case Dropping(stage) => StageRank(stage) + 1
  }

  function CloserRank(closer: Closer): nat {
    match closer
    case Waiting => 3
    case Spinning => 2
    case TearingDown => 1
    case _ => 0
  }

  /** How much call `q` and its completion have still to do. */
  function Todo(s: State, q: nat): nat {
    (if q in s.calls then CallRank(s.calls[q]) else 0) + (if q in s.completions then CompletionRank(s.completions[q]) else 0)
  }

  predicate IsStale(stage: Stage, word: Word) {
    stage.Loop? && stage.seen != word
  }

  /** How many of the two have seen a word that is no longer there. */
  function Stale(s: State, q: nat): (n: nat)
    ensures n <= 2
  {
    (if q in s.calls && ((s.calls[q].Acquiring? && s.calls[q].seen != s.word)
                         || (s.calls[q].Releasing? && IsStale(s.calls[q].stage, s.word))) then 1 else 0)
    + (if q in s.completions && s.completions[q].Dropping? && IsStale(s.completions[q].stage, s.word) then 1 else 0)
  }

  ghost function Todos(s: State): nat -> nat {
    (q: nat) => Todo(s, q)
  }

  ghost function Stales(s: State): nat -> nat {
    (q: nat) => Stale(s, q)
  }

  ghost function Work(s: State, n: nat): nat {
    Total(Todos(s), n) + CloserRank(s.closer)
  }

  ghost function StaleCount(s: State, n: nat): nat {
    Total(Stales(s), n)
  }

  ghost function Measure(s: State, n: nat): nat {
    Pair(Work(s, n), StaleCount(s, n), 2 * n + 1)
  }

  /** All calls have names below the bound. */
  ghost predicate Below(s: State, n: nat) {
    forall p | p in s.calls :: p < n
  }

  /** A step does some work, or one thread learns the present word. */
  lemma StepWorks(s: State, step: Step)
    requires RefsInv(s) && StagesInv(s) && Enabled(s, step) && Progress(step) && Actor(step).Some?
    ensures var t, p := Apply(s, step), step.p;
            && t.closer == s.closer && (p in s.calls || p in s.completions)
            && (Todo(t, p) < Todo(s, p) || (Todo(t, p) == Todo(s, p) && t.word == s.word && Stale(t, p) < Stale(s, p)))
  {
    assert RefAt(s, step.p);
    if step.CallRelease? || step.CompletionRelease? {
      var mine := if step.CallRelease? then s.calls[step.p].ref else Completion(step.p);
      StageMoves(s, step, mine);
      assert StageAt(s, mine);
    }
  }

  lemma CloserWorks(s: State, step: Step)
    requires Enabled(s, step) && Progress(step) && Actor(step).None?
    ensures var t := Apply(s, step);
            && CloserRank(t.closer) < CloserRank(s.closer) && t.calls == s.calls && t.completions == s.completions && t.word == s.word
  {
  }

  lemma CompletionsBelow(s: State, n: nat)
    requires RefsInv(s) && Below(s, n)
    ensures forall p | p in s.completions :: p < n
  {
    forall p | p in s.completions ensures p < n {
      assert RefAt(s, p);
    }
  }

  /** Every such step makes the measure smaller. */
  lemma StepDecreases(s: State, step: Step, n: nat)
    requires Inv(s) && Enabled(s, step) && Progress(step) && Below(s, n)
    ensures Below(Apply(s, step), n) && Measure(Apply(s, step), n) < Measure(s, n)
  {
    hide StagesInv, RefsInv, TasksInv, CloserInv, Todo, Stale, Pair, Total;
    var t := Apply(s, step);
    TotalAtMost(Stales(t), n, 2);
    if Actor(step).Some? {
      var p := step.p;
      StepWorks(s, step);
      CompletionsBelow(s, n);
      assert p < n;
      forall q: nat | q != p ensures Todo(t, q) == Todo(s, q) && (t.word == s.word ==> Stale(t, q) == Stale(s, q)) {
        OthersSame(s, step, q);
        SameTodo(s, t, q);
      }
      TotalOne(Todos(s), Todos(t), n, p);
      if Todo(t, p) == Todo(s, p) {
        TotalOne(Stales(s), Stales(t), n, p);
      }
    } else {
      CloserWorks(s, step);
      forall q: nat ensures Todo(t, q) == Todo(s, q) {
        TodoOf(s, t, q);
      }
      TotalOne(Todos(s), Todos(t), n, n);
    }
    PairSmaller(Work(t, n), Work(s, n), StaleCount(t, n), StaleCount(s, n), 2 * n + 1);
  }

  lemma SameTodo(s: State, t: State, q: nat)
    requires SameAt(s, t, q)
    ensures Todo(t, q) == Todo(s, q) && (t.word == s.word ==> Stale(t, q) == Stale(s, q))
  {
  }

  lemma TodoOf(s: State, t: State, q: nat)
    requires t.calls == s.calls && t.completions == s.completions
    ensures Todo(t, q) == Todo(s, q)
  {
  }

  /** Without new calls, the start of `close` and spurious failures, a run is at an end after as many steps
      as the measure says, however the threads are scheduled. */
  lemma {:induction false} FinishesWithin(run: seq<State>, schedule: seq<Step>, i: nat, j: nat, n: nat)
    requires IsRun(run, schedule) && i <= j < |run| && Below(run[i], n)
    requires forall k | i <= k < j :: Progress(schedule[k])
    ensures Below(run[j], n) && Measure(run[j], n) + (j - i) <= Measure(run[i], n)
    decreases j
  {
    hide Inv, Below, Measure, Apply, Enabled, Progress;
    if i < j {
      FinishesWithin(run, schedule, i, j - 1, n);
      RunInv(run, schedule, j - 1);
      assert Moves(run[j - 1], schedule[j - 1], run[j - 1 + 1]);
      StepDecreases(run[j - 1], schedule[j - 1], n);
    }
  }

  /** And it cannot stop before: if no such step is possible, every call has returned, every completion is
      over, and `close`, if it was called, has torn the context down. */
  lemma StuckOnlyWhenDone(run: seq<State>, schedule: seq<Step>, i: nat)
    requires IsRun(run, schedule) && i < |run|
    requires forall step | Progress(step) :: !Enabled(run[i], step)
    ensures forall p | p in run[i].calls :: run[i].calls[p].Returned?
    ensures run[i].completions == map[]
    ensures run[i].closer.Open? || run[i].closer.Closed?
  {
    RunInv(run, schedule, i);
    var s := run[i];
    forall p | p in s.calls ensures s.calls[p].Returned? {
      assert !Enabled(s, AcquireLoad(p)) && !Enabled(s, AcquireSwap(p, false)) && !Enabled(s, Reject(p));
      assert !Enabled(s, Abandon(p)) && !Enabled(s, Return(p)) && !Enabled(s, CallRelease(p, false));
    }
    forall p ensures p !in s.completions {
      assert !Enabled(s, Finish(p)) && !Enabled(s, Notify(p)) && !Enabled(s, CompletionRelease(p, false));
    }
    assert s.refs == {} by {
      forall ref ensures ref !in s.refs {
        assert RefAt(s, ref.call);
      }
    }
    assert !Enabled(s, SeeDrained) && !Enabled(s, SeeZero) && !Enabled(s, TearDown);
  }
}
