/** The dispatcher owners of a runtime: how they are handed out in turn, and how the runtime's owner
    thread stops the others before it stops the application. */
module DispatcherOwners {
  import opened Wrappers
  import opened Collections

  // ---------------------------------------------------------------------------------------------
  // Handing out
  // ---------------------------------------------------------------------------------------------

  const ESHUTDOWN: int := -108

  class Owners {
    const threads: seq<nat>
    var ready: bool
    var next: nat
    var leases: nat

    ghost predicate Valid()
      reads this
    {
      threads != [] && next < |threads|
    }

    constructor (threads: seq<nat>)
      requires threads != []
      ensures Valid() && ready && next == 0 && leases == 0 && this.threads == threads
    {
      this.threads, ready, next, leases := threads, true, 0, 0;
    }

    /** Hands out the next owner with a lease, unless the runtime is not ready. */
    method AcquireDispatcher() returns (r: Result<nat, int>)
      requires Valid()
      modifies this`next, this`leases
      ensures Valid()
      ensures ready ==> r == Ok(threads[old(next)]) && next == Pick(old(next), |threads|, 1) && leases == old(leases) + 1
      ensures !ready ==> r == Err(-108) && next == old(next) && leases == old(leases)
    {
      if !ready {
        return Err(ESHUTDOWN);
      }
      r := Ok(threads[next]);
      if next + 1 < |threads| {
        Small(next + 1, |threads|);
      }
      next := (next + 1) % |threads|;
      leases := leases + 1;
    }

    /** Acquires in a row, wherever the turn stands.  In any number of whole rounds each owner is handed
        out once per round. */
    method AcquireMany(count: nat) returns (handed: seq<nat>)
      requires Valid() && ready
      modifies this`next, this`leases
      ensures Valid() && handed == Handed(threads, old(next), count) && leases == old(leases) + count
      ensures Distinct(threads) && count % |threads| == 0 ==>
                forall owner | 0 <= owner < |threads| :: multiset(handed)[threads[owner]] == count / |threads|
    {
      hide Pick, Handed, Distinct;
      handed := [];
      HandedNone(threads, old(next));
      while |handed| < count
        invariant Valid() && |handed| <= count && leases == old(leases) + |handed|
        invariant next == Pick(old(next), |threads|, |handed|)
        invariant handed == Handed(threads, old(next), |handed|)
      {
        var owner := AcquireDispatcher();
        PickNext(old(next), |threads|, |handed|);
        HandedNext(threads, old(next), |handed|);
        handed := handed + [owner.value];
      }
      if Distinct(threads) && count % |threads| == 0 {
        WholeRounds(threads, old(next), count);
      }
    }
  }

  ghost predicate Distinct(threads: seq<nat>) {
    forall a, b | 0 <= a < b < |threads| :: threads[a] != threads[b]
  }

  /** The owners handed out by so many acquires in a row. */
  function Handed(threads: seq<nat>, start: nat, count: nat): (r: seq<nat>)
    requires start < |threads|
    ensures |r| == count
  {
    seq(count, i requires 0 <= i < count => threads[Pick(start, |threads|, i)])
  }

  /** An owner is handed out as often as it has its turn. */
  lemma {:induction false} HandedTurns(threads: seq<nat>, start: nat, count: nat, owner: nat)
    requires Distinct(threads) && start < |threads| && owner < |threads|
    ensures multiset(Handed(threads, start, count))[threads[owner]] == Turns(start, |threads|, count, owner)
    decreases count
  {
    hide Pick, Handed;
    if count == 0 {
      HandedNone(threads, start);
    } else {
      HandedTurns(threads, start, count - 1, owner);
      var before, last := Handed(threads, start, count - 1), threads[Pick(start, |threads|, count - 1)];
      HandedNext(threads, start, count - 1);
      assert multiset(before + [last]) == multiset(before) + multiset{last};
    }
  }

  /** Any `k` times `n` acquires in a row over `n` owners hand out each owner exactly `k` times. */
  lemma HandedEqually(threads: seq<nat>, start: nat, k: nat, owner: nat)
    requires Distinct(threads) && start < |threads| && owner < |threads|
    ensures multiset(Handed(threads, start, k * |threads|))[threads[owner]] == k
  {
    hide Turns, Handed;
    HandedTurns(threads, start, k * |threads|, owner);
    EveryOwnerEqually(start, |threads|, k, owner);
  }

  lemma WholeRounds(threads: seq<nat>, start: nat, count: nat)
    requires Distinct(threads) && start < |threads| && count % |threads| == 0
    ensures forall owner | 0 <= owner < |threads| :: multiset(Handed(threads, start, count))[threads[owner]] == count / |threads|
  {
    hide Handed, Distinct;
    var k := count / |threads|;
    assert count == k * |threads|;
    forall owner | 0 <= owner < |threads| ensures multiset(Handed(threads, start, count))[threads[owner]] == k {
      HandedEqually(threads, start, k, owner);
    }
  }

  lemma HandedNone(threads: seq<nat>, start: nat)
    requires start < |threads|
    ensures Handed(threads, start, 0) == [] && Pick(start, |threads|, 0) == start
  {
  }

  lemma HandedNext(threads: seq<nat>, start: nat, m: nat)
    requires start < |threads|
    ensures Handed(threads, start, m + 1) == Handed(threads, start, m) + [threads[Pick(start, |threads|, m)]]
  {
    hide Pick;
  }

  lemma Small(a: nat, n: nat)
    requires a < n
    ensures a % n == a
  {
  }

  /** The owner that comes `i` turns after `start`. */
  function Pick(start: nat, n: nat, i: nat): (r: nat)
    requires start < n
    ensures r < n
  {
    if i == 0 then start
    else
      var last := Pick(start, n, i - 1);
      if last + 1 == n then 0 else last + 1
  }

  lemma PickNext(start: nat, n: nat, i: nat)
    requires start < n
    ensures Pick(start, n, i + 1) == Pick(Pick(start, n, i), n, 1)
  {
    assert Pick(Pick(start, n, i), n, 0) == Pick(start, n, i);
  }

  /** How often an owner comes up in the first `m` turns. */
  function Turns(start: nat, n: nat, m: nat, owner: nat): nat
    requires start < n
  {
    if m == 0 then 0 else Turns(start, n, m - 1, owner) + if Pick(start, n, m - 1) == owner then 1 else 0
  }

  lemma {:induction false} PickWithin(start: nat, n: nat, i: nat)
    requires start < n && i <= n
    ensures Pick(start, n, i) == if start + i < n then start + i else start + i - n
    decreases i
  {
    if i > 0 {
      PickWithin(start, n, i - 1);
    }
  }

  /** A round of `n` turns begins again where it began. */
  lemma {:induction false} PickAgain(start: nat, n: nat, i: nat)
    requires start < n
    ensures Pick(start, n, n + i) == Pick(start, n, i)
    decreases i
  {
    if i == 0 {
      PickWithin(start, n, n);
    } else {
      PickAgain(start, n, i - 1);
    }
  }

  /** Within a round an owner has come up at most once, and by turn `m` exactly if its turn was before. */
  lemma {:induction false} TurnsWithin(start: nat, n: nat, m: nat, owner: nat)
    requires start < n && m <= n && owner < n
    ensures Turns(start, n, m, owner) == if (if owner >= start then owner - start else owner + n - start) < m then 1 else 0
    decreases m
  {
    if m > 0 {
      TurnsWithin(start, n, m - 1, owner);
      PickWithin(start, n, m - 1);
    }
  }

  lemma {:induction false} TurnsRound(start: nat, n: nat, m: nat, owner: nat)
    requires start < n && owner < n
    ensures Turns(start, n, n + m, owner) == 1 + Turns(start, n, m, owner)
    decreases m
  {
    if m == 0 {
      TurnsWithin(start, n, n, owner);
    } else {
      TurnsRound(start, n, m - 1, owner);
      PickAgain(start, n, m - 1);
    }
  }

  /** Any `k` rounds in a row, wherever they begin, give every owner exactly `k` turns. */
  lemma {:induction false} EveryOwnerEqually(start: nat, n: nat, k: nat, owner: nat)
    requires start < n && owner < n
    ensures Turns(start, n, k * n, owner) == k
    decreases k
  {
    if k > 0 {
      EveryOwnerEqually(start, n, k - 1, owner);
      assert k * n == n + (k - 1) * n;
      TurnsRound(start, n, (k - 1) * n, owner);
    }
  }

  // ---------------------------------------------------------------------------------------------
  // Stopping
  // ---------------------------------------------------------------------------------------------

  /** The owner thread is number 0; the others run concurrently with it.  Messages are delivered in
      any order; a send may fail. */
  datatype State = State(
    count: nat,              // of dispatcher owners, the runtime's own among them
    begun: bool,
    next: nat,               // the owner the loop sends to next
    inbox: set<nat>,         // owners asked to stop that have not yet run the message
    exited: set<nat>,
    replies: set<nat>,       // owners whose reply waits at the owner thread
    answered: set<nat>,      // owners whose reply has been taken
    stopping: nat,           // the counter the owner thread keeps
    appStops: nat,
    failed: bool             // a send has failed
  )

  datatype Step =
    | Begin
    | Send(ok: bool)
    | Exit(owner: nat, ok: bool)
    | TakeReply(owner: nat)

  predicate Init(s: State) {
    && !s.begun && s.next == 0 && s.inbox == {} && s.exited == {} && s.replies == {} && s.answered == {}
    && s.stopping == 0 && s.appStops == 0 && !s.failed
  }

  predicate Sending(s: State) {
    s.begun && 0 < s.next < s.count
  }

  predicate Enabled(s: State, step: Step) {
    match step
    case Begin => !s.begun
    case Send(_) => Sending(s)
    case Exit(owner, _) => owner in s.inbox
    case TakeReply(owner) => owner in s.replies && !Sending(s)
  }

  function Apply(s: State, step: Step): State
    requires Enabled(s, step)
  {
    match step
    case Begin =>
      if s.count < 2 then s.(begun := true, appStops := s.appStops + 1)
      else s.(begun := true, stopping := s.count - 1, next := 1)
    case Send(ok) =>
      if ok then s.(inbox := s.inbox + {s.next}, next := s.next + 1)
      else s.(appStops := s.appStops + 1, failed := true, next := s.count)
    case Exit(owner, ok) =>
      var t := s.(inbox := s.inbox - {owner}, exited := s.exited + {owner});
      if ok then t.(replies := t.replies + {owner}) else t.(appStops := t.appStops + 1, failed := true)
    case TakeReply(owner) =>
      var t := s.(replies := s.replies - {owner}, answered := s.answered + {owner}, stopping := if s.stopping > 0 then s.stopping - 1 else 0);
      if t.stopping == 0 then t.(appStops := t.appStops + 1) else t
  }

  ghost predicate Moves(s: State, step: Step, t: State) {
    Enabled(s, step) && t == Apply(s, step)
  }

  ghost predicate IsRun(run: seq<State>, schedule: seq<Step>) {
    && |run| == |schedule| + 1
    && Init(run[0])
    && forall i | 0 <= i < |schedule| :: Moves(run[i], schedule[i], run[i + 1])
  }

  /** The owners besides the runtime's own, up to a number. */
  function Extras(n: nat): (r: set<nat>)
    ensures forall i :: i in r <==> 1 <= i < n
    ensures |r| == if n == 0 then 0 else n - 1
  {
    if n < 2 then {} else Extras(n - 1) + {n - 1}
  }

  ghost predicate Places(s: State) {
    && (forall i | i in s.inbox :: 1 <= i < s.next && i !in s.exited)
    && (forall i | i in s.exited :: 1 <= i < s.next)
    && (forall i | i in s.replies :: i in s.exited && i !in s.answered)
    && (forall i | i in s.answered :: i in s.exited)
    && (s.begun && s.count >= 2 ==> 1 <= s.next <= s.count)
    && (!s.begun || s.count < 2 ==> s.next == 0)
  }

  /** While no send has failed, every owner sent to has the message or has exited, and every owner
      that has exited has its reply waiting or taken. */
  ghost predicate Complete(s: State) {
    !s.failed ==>
      && (forall i | 1 <= i < s.next :: i in s.inbox || i in s.exited)
      && (forall i | i in s.exited :: i in s.replies || i in s.answered)
  }

  ghost predicate Counts(s: State) {
    && (s.begun && s.count >= 2 ==> s.stopping + |s.answered| == s.count - 1)
    && (!s.begun ==> s.answered == {} && s.appStops == 0 && !s.failed)
    && (s.failed ==> s.appStops > 0)
    && (!s.failed && s.begun ==> s.appStops == if s.count < 2 || |s.answered| == s.count - 1 then 1 else 0)
  }

  ghost predicate Inv(s: State) {
    Places(s) && Complete(s) && Counts(s)
  }

  lemma InitInv(s: State)
    requires Init(s)
    ensures Inv(s)
  {
  }

  /** A reply in the queue is one the counter still waits for. */
  lemma ReplyCounted(s: State, owner: nat)
    requires Inv(s) && owner in s.replies
    ensures s.begun && s.count >= 2 && s.stopping > 0 && |s.answered + {owner}| == |s.answered| + 1
  {
    assert owner in s.exited && owner !in s.answered;
    var all := Extras(s.count);
    assert s.answered + {owner} <= all;
    SubsetSize(s.answered + {owner}, all);
  }

  lemma PlacesKept(s: State, step: Step)
    requires Places(s) && Enabled(s, step)
    ensures Places(Apply(s, step))
  {
  }

  lemma CompleteKept(s: State, step: Step)
    requires Places(s) && Complete(s) && Enabled(s, step)
    ensures Complete(Apply(s, step))
  {
  }

  lemma CountsKept(s: State, step: Step)
    requires Inv(s) && Enabled(s, step)
    ensures Counts(Apply(s, step))
  {
    if step.TakeReply? {
      ReplyCounted(s, step.owner);
    }
  }

  lemma NextInv(s: State, step: Step)
    requires Inv(s) && Enabled(s, step)
    ensures Inv(Apply(s, step)) && Apply(s, step).count == s.count
  {
    hide Places, Counts, Complete;
    PlacesKept(s, step);
    CompleteKept(s, step);
    CountsKept(s, step);
  }

  lemma {:induction false} RunInv(run: seq<State>, schedule: seq<Step>, i: nat)
    requires IsRun(run, schedule) && i < |run|
    ensures Inv(run[i]) && run[i].count == run[0].count
  {
    hide Inv, Apply, Enabled;
    if i == 0 {
      InitInv(run[0]);
    } else {
      RunInv(run, schedule, i - 1);
      assert Moves(run[i - 1], schedule[i - 1], run[i - 1 + 1]);
      NextInv(run[i - 1], schedule[i - 1]);
    }
  }

  /** What the owners and their messages have still to do. */
  ghost function Todo(s: State): nat {
    (if Sending(s) then 3 * (s.count - s.next) else 0) + 2 * |s.inbox| + |s.replies|
  }

  lemma StepWorks(s: State, step: Step)
    requires Inv(s) && Enabled(s, step) && !step.Begin?
    ensures Todo(Apply(s, step)) < Todo(s)
  {
    if step.Send? {
      assert s.next !in s.inbox;
    } else if step.Exit? {
      assert step.owner !in s.replies;
    }
  }

  /** A shutdown can begin with any number of owners. */
  lemma BegunRun(count: nat) returns (run: seq<State>, schedule: seq<Step>)
    ensures IsRun(run, schedule) && run[|run| - 1].begun && run[|run| - 1].count == count
  {
    var s := State(count, false, 0, {}, {}, {}, {}, 0, 0, false);
    run, schedule := [s, Apply(s, Begin)], [Begin];
    assert Moves(run[0], schedule[0], run[1]);
  }

  /** After the stop has begun a run is at an end after as many steps as there is to do. */
  lemma {:induction false} FinishesWithin(run: seq<State>, schedule: seq<Step>, i: nat, j: nat)
    requires IsRun(run, schedule) && i <= j < |run| && forall k | i <= k < j :: !schedule[k].Begin?
    ensures Todo(run[j]) + (j - i) <= Todo(run[i])
    decreases j
  {
    hide Inv, Todo, Apply, Enabled;
    if i < j {
      FinishesWithin(run, schedule, i, j - 1);
      RunInv(run, schedule, j - 1);
      assert Moves(run[j - 1], schedule[j - 1], run[j - 1 + 1]);
      StepWorks(run[j - 1], schedule[j - 1]);
    }
  }

  /** And it cannot stop before the application has been stopped: once, after every other owner has exited,
      if no send has failed. */
  lemma StuckOnlyWhenDone(run: seq<State>, schedule: seq<Step>, i: nat)
    requires IsRun(run, schedule) && i < |run| && forall step: Step | !step.Begin? :: !Enabled(run[i], step)
    ensures run[i].begun ==> run[i].appStops > 0
    ensures run[i].begun && !run[i].failed ==> run[i].appStops == 1 && run[i].exited == Extras(run[i].count)
  {
    RunInv(run, schedule, i);
    var s := run[i];
    assert !Enabled(s, Send(true));
    forall owner ensures owner !in s.inbox && owner !in s.replies {
      assert !Enabled(s, Exit(owner, true)) && !Enabled(s, TakeReply(owner));
    }
    if s.begun && !s.failed {
      assert s.answered == s.exited == Extras(s.count);
    }
  }

  /** While no send fails the application is stopped at most once, and only after every other owner
      has exited; and once every reply is taken it has been stopped. */
  lemma AppStopsAfterOwners(run: seq<State>, schedule: seq<Step>, i: nat)
    requires IsRun(run, schedule) && i < |run| && !run[i].failed
    ensures run[i].appStops <= 1
    ensures run[i].appStops == 1 ==> run[i].exited == Extras(run[i].count)
    ensures run[i].begun && run[i].answered == Extras(run[i].count) ==> run[i].appStops == 1
  {
    RunInv(run, schedule, i);
    var s := run[i];
    if s.appStops == 1 && s.count >= 2 {
      assert s.answered <= Extras(s.count);
      SubsetSize(s.answered, Extras(s.count));
      assert s.exited <= Extras(s.count);
    } else if s.appStops == 1 {
      assert s.exited == {};
    }
  }

  /** A send that fails stops the application all the same. */
  lemma FailedSendStops(run: seq<State>, schedule: seq<Step>, i: nat)
    requires IsRun(run, schedule) && i < |run| && run[i].failed
    ensures run[i].appStops > 0
  {
    RunInv(run, schedule, i);
  }

  /** Every reply taken finds the counter above zero, whatever sends failed. */
  lemma CounterNeverUnderflows(run: seq<State>, schedule: seq<Step>, i: nat, owner: nat)
    requires IsRun(run, schedule) && i < |run| && owner in run[i].replies
    ensures run[i].stopping > 0
  {
    RunInv(run, schedule, i);
    ReplyCounted(run[i], owner);
  }

  /** No owner exits twice: it is asked to once. */
  lemma {:induction false} ExitsOnce(run: seq<State>, schedule: seq<Step>, i: nat, j: nat)
    requires IsRun(run, schedule) && i < j < |schedule| && schedule[i].Exit? && schedule[j].Exit?
    ensures schedule[i].owner != schedule[j].owner
  {
    RunInv(run, schedule, j);
    assert Moves(run[i], schedule[i], run[i + 1]);
    assert Moves(run[j], schedule[j], run[j + 1]);
    ExitedStays(run, schedule, i + 1, j, schedule[i].owner);
  }

  lemma {:induction false} ExitedStays(run: seq<State>, schedule: seq<Step>, i: nat, j: nat, owner: nat)
    requires IsRun(run, schedule) && i <= j < |run| && owner in run[i].exited
    ensures owner in run[j].exited
    decreases j
  {
    if i < j {
      ExitedStays(run, schedule, i, j - 1, owner);
      assert Moves(run[j - 1], schedule[j - 1], run[j - 1 + 1]);
    }
  }
}
