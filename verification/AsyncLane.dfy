/** The asynchronous read lane: a ring of 128 slots that any number of producers fill and one
    consumer drains, the event the consumer sleeps on, and the stop request.  Every atomic access
    is one step; the copy of a task into or out of a slot spans several steps, so that the model
    can tell whether two threads ever use a slot at once.  Positions are unbounded here; the
    lemmas of the last section relate them to the 64-bit counters of the program. */
module AsyncLane {
  import opened Wrappers
  import opened Collections

  const CAPACITY: nat := 128

  datatype Task = Task(id: nat)

  datatype Slot = Slot(sequence: nat, task: Option<Task>)

  /** Where a producer is inside `submit`. */
  datatype Producer =
    | Returned(accepted: bool)
    | Entered(task: Task)                    // about to load the enqueue position
    | Looping(task: Task, position: nat)     // about to load the slot's sequence
    | Matched(task: Task, position: nat)     // the difference was 0: about to compare and swap
    | Claimed(task: Task, position: nat)     // owns the position: about to copy the task in
    | Writing(task: Task, position: nat)     // the slot's task is half written
    | Written(task: Task, position: nat)     // about to publish the sequence
    | Published(task: Task, position: nat)   // about to set the wake event

  /** Where the consumer is inside `run`; `again` marks the poll that follows the reset. */
  datatype Consumer =
    | Polling(again: bool)
    | Copying                                // the head slot is being read
    | Copied(task: Task)                     // about to advance the dequeue position
    | Advanced(task: Task, position: nat)    // about to hand the slot of `position` back
    | Executing(task: Task)
    | Resetting
    | Checking                               // about to load the stop flag
    | Waiting
    | Exited

  datatype Stopper = Before | MustSet | Joining | Joined

  /** `claims` lists the tasks in the order of their successful compare-and-swaps, `dequeued`
      those the consumer has taken. */
  datatype State = State(
    slots: seq<Slot>,
    enqueue: nat,
    dequeue: nat,
    wake: bool,
    stopping: bool,
    producers: map<nat, Producer>,
    consumer: Consumer,
    stopper: Stopper,
    claims: seq<Task>,
    dequeued: seq<Task>)

  ghost predicate Init(s: State) {
    && |s.slots| == CAPACITY
    && (forall i | 0 <= i < CAPACITY :: s.slots[i].sequence == i)
    && s.enqueue == 0 && s.dequeue == 0
    && !s.wake && !s.stopping
    && (forall p | p in s.producers :: s.producers[p].Returned?)
    && s.consumer == Polling(false)
    && s.stopper == Before
    && s.claims == [] && s.dequeued == []
  }

  datatype Step =
    | Enter(p: nat, task: Task)
    | LoadPosition(p: nat)
    | LoadSequence(p: nat)
    | CompareAndSwap(p: nat, spurious: bool)
    | BeginWrite(p: nat)
    | EndWrite(p: nat)
    | Publish(p: nat)
    | SetWake(p: nat)
    | Poll
    | FinishCopy
    | Advance
    | HandBack
    | FinishExecute
    | ResetWake
    | CheckStopping
    | Wake
    | StoreStopping
    | StopSetsWake
    | Join

  function SlotAt(s: State, position: nat): Slot
    requires |s.slots| == CAPACITY
  {
    s.slots[position % CAPACITY]
  }

  function WithSlot(s: State, position: nat, slot: Slot): State
    requires |s.slots| == CAPACITY
  {
    s.(slots := s.slots[position % CAPACITY := slot])
  }

  function WithProducer(s: State, p: nat, producer: Producer): State {
    s.(producers := s.producers[p := producer])
  }

  /** Whether a step can be taken; a step of a producer needs that producer at the right place. */
  predicate Enabled(s: State, step: Step) {
    && |s.slots| == CAPACITY
    && match step
       case Enter(p, _) => p in s.producers && s.producers[p].Returned?
       case LoadPosition(p) => p in s.producers && s.producers[p].Entered?
       case LoadSequence(p) => p in s.producers && s.producers[p].Looping?
       case CompareAndSwap(p, _) => p in s.producers && s.producers[p].Matched?
       case BeginWrite(p) => p in s.producers && s.producers[p].Claimed?
       case EndWrite(p) => p in s.producers && s.producers[p].Writing?
       case Publish(p) => p in s.producers && s.producers[p].Written?
       case SetWake(p) => p in s.producers && s.producers[p].Published?
       case Poll => s.consumer.Polling?
       case FinishCopy => s.consumer.Copying? && SlotAt(s, s.dequeue).task.Some?
       case Advance => s.consumer.Copied?
       case HandBack => s.consumer.Advanced?
       case FinishExecute => s.consumer.Executing?
       case ResetWake => s.consumer.Resetting?
       case CheckStopping => s.consumer.Checking?
       case Wake => s.consumer.Waiting? && s.wake
       case StoreStopping => s.stopper.Before?
       case StopSetsWake => s.stopper.MustSet?
       case Join => s.stopper.Joining? && s.consumer.Exited?
  }

  /** How positions are counted: without bound, or in the 64-bit words of the program. */
  datatype Width = Unbounded | Word64

  const WORD: nat := 0x1_0000_0000_0000_0000
  const HALF: nat := 0x8000_0000_0000_0000

  function Plus(width: Width, position: nat, amount: nat): nat {
    if width.Word64? then (position + amount) % WORD else position + amount
  }

  /** `sequenceDifference`: the wrapped difference of two words, read as a signed word. */
  function SequenceDifference(sequence: nat, position: nat): int {
    var wrapped := (sequence - position) % WORD;
    if wrapped < HALF then wrapped else wrapped - WORD
  }

  function Difference(width: Width, sequence: nat, position: nat): int {
    if width.Word64? then SequenceDifference(sequence, position) else sequence - position
  }

  /** The state after a step, following `submit`, `dequeue`, `run` and `stop` line by line. */
  function ApplyAt(width: Width, s: State, step: Step): State
    requires Enabled(s, step)
  {
    match step
    case Enter(p, task) => WithProducer(s, p, Entered(task))
    case LoadPosition(p) =>
      WithProducer(s, p, Looping(s.producers[p].task, s.enqueue))
    case LoadSequence(p) =>
      var Looping(task, position) := s.producers[p];
      var difference := Difference(width, SlotAt(s, position).sequence, position);
      WithProducer(s, p,
                   if difference == 0 then Matched(task, position)
                   else if difference < 0 then Returned(false)
                   else Entered(task))
    case CompareAndSwap(p, spurious) =>
      var Matched(task, position) := s.producers[p];
      if s.enqueue == position && !spurious then
        WithProducer(s, p, Claimed(task, position))
        .(enqueue := Plus(width, position, 1), claims := s.claims + [task])
      else
        WithProducer(s, p, Looping(task, s.enqueue))
    case BeginWrite(p) =>
      var Claimed(task, position) := s.producers[p];
      WithProducer(WithSlot(s, position, SlotAt(s, position).(task := None)), p, Writing(task, position))
    case EndWrite(p) =>
      var Writing(task, position) := s.producers[p];
      WithProducer(WithSlot(s, position, SlotAt(s, position).(task := Some(task))), p, Written(task, position))
    case Publish(p) =>
      var Written(task, position) := s.producers[p];
      WithProducer(WithSlot(s, position, SlotAt(s, position).(sequence := Plus(width, position, 1))),
                   p, Published(task, position))
    case SetWake(p) => WithProducer(s, p, Returned(true)).(wake := true)
    case Poll =>
      if SlotAt(s, s.dequeue).sequence == Plus(width, s.dequeue, 1) then s.(consumer := Copying)
      else if s.consumer.again then s.(consumer := Checking)
      else s.(consumer := Resetting)
    case FinishCopy => s.(consumer := Copied(SlotAt(s, s.dequeue).task.value))
    case Advance =>
      s.(consumer := Advanced(s.consumer.task, s.dequeue),
         dequeue := Plus(width, s.dequeue, 1),
         dequeued := s.dequeued + [s.consumer.task])
    case HandBack =>
      var position := s.consumer.position;
      WithSlot(s, position, SlotAt(s, position).(sequence := Plus(width, position, CAPACITY)))
      .(consumer := Executing(s.consumer.task))
    case FinishExecute => s.(consumer := Polling(false))
    case ResetWake => s.(wake := false, consumer := Polling(true))
    case CheckStopping => s.(consumer := if s.stopping then Exited else Waiting)
    case Wake => s.(consumer := Polling(false))
    case StoreStopping => s.(stopping := true, stopper := MustSet)
    case StopSetsWake => s.(wake := true, stopper := Joining)
    case Join => s.(stopper := Joined)
  }

  function Apply(s: State, step: Step): State
    requires Enabled(s, step)
  {
    ApplyAt(Unbounded, s, step)
  }

  /** A run: any schedule of the producers, the consumer and the stopper. */
  ghost predicate IsRun(width: Width, run: seq<State>, schedule: seq<Step>) {
    && |run| == |schedule| + 1
    && Init(run[0])
    && forall i | 0 <= i < |schedule| :: Moves(width, run[i], schedule[i], run[i + 1])
  }

  ghost predicate Moves(width: Width, s: State, step: Step, t: State) {
    Enabled(s, step) && t == ApplyAt(width, s, step)
  }

  // ---------------------------------------------------------------------------------------------
  // The invariant
  // ---------------------------------------------------------------------------------------------

  /** The first position whose slot has not been handed back to the producers. */
  function Freed(s: State): nat {
    if s.consumer.Advanced? then s.consumer.position else s.dequeue
  }

  /** The producer has claimed a position and not yet published it: the slot is its own. */
  predicate Owner(producer: Producer) {
    producer.Claimed? || producer.Writing? || producer.Written?
  }

  predicate Owns(producer: Producer, position: nat) {
    Owner(producer) && producer.position == position
  }

  ghost predicate IsPublished(s: State, position: nat)
    requires |s.slots| == CAPACITY
  {
    SlotAt(s, position).sequence == position + 1
  }

  /** The slot serving `position`, one of the 128 positions from the first one not handed back. */
  ghost predicate SlotInv(s: State, position: nat)
    requires |s.slots| == CAPACITY && |s.claims| == s.enqueue
  {
    var slot := SlotAt(s, position);
    if position >= s.enqueue then
      slot.sequence == position
    else
      || (slot.sequence == position + 1 && slot.task == Some(s.claims[position]))
      || (slot.sequence == position && exists p :: p in s.producers && Owns(s.producers[p], position))
  }

  ghost predicate ProducerInv(s: State, producer: Producer)
    requires |s.slots| == CAPACITY && |s.claims| == s.enqueue
  {
    match producer
    case Returned(_) => true
    case Entered(_) => true
    case Looping(_, position) => position <= s.enqueue
    case Matched(_, position) => position <= s.enqueue && (position == s.enqueue ==> position < Freed(s) + CAPACITY)
    case Claimed(task, position) => OwnerInv(s, task, position)
    case Writing(task, position) => OwnerInv(s, task, position)
    case Written(task, position) => OwnerInv(s, task, position) && SlotAt(s, position).task == Some(task)
    case Published(task, position) => position < s.enqueue && s.claims[position] == task
  }

  ghost predicate OwnerInv(s: State, task: Task, position: nat)
    requires |s.slots| == CAPACITY && |s.claims| == s.enqueue
  {
    && Freed(s) <= position < s.enqueue
    && SlotAt(s, position).sequence == position
    && s.claims[position] == task
  }

  ghost predicate ConsumerInv(s: State)
    requires |s.slots| == CAPACITY && |s.claims| == s.enqueue && s.dequeue <= s.enqueue
  {
    match s.consumer
    case Copying => IsPublished(s, s.dequeue) && s.dequeue < s.enqueue
    case Copied(task) => IsPublished(s, s.dequeue) && s.dequeue < s.enqueue && task == s.claims[s.dequeue]
    case Advanced(task, position) => s.dequeue == position + 1 && IsPublished(s, position) && task == s.claims[position]
    case Executing(task) => 0 < s.dequeue && task == s.claims[s.dequeue - 1]
    case _ => true
  }

  /** A producer that published `position` and has still to set the wake event. */
  ghost predicate WakeOwed(s: State, position: nat) {
    exists p :: p in s.producers && s.producers[p].Published? && s.producers[p].position == position
  }

  ghost predicate WakeInv(s: State)
    requires |s.slots| == CAPACITY
  {
    && ((s.consumer.Checking? || s.consumer.Waiting?) && !s.wake && IsPublished(s, s.dequeue) ==> WakeOwed(s, s.dequeue))
    && (s.consumer.Waiting? && !s.wake && s.stopping ==> s.stopper.MustSet?)
    && (s.stopping <==> !s.stopper.Before?)
  }

  ghost predicate CountersInv(s: State) {
    && |s.slots| == CAPACITY
    && |s.claims| == s.enqueue
    && (s.consumer.Advanced? ==> s.dequeue == s.consumer.position + 1)
    && s.dequeue <= s.enqueue <= Freed(s) + CAPACITY
    && s.dequeued == s.claims[..s.dequeue]
  }

  ghost predicate SlotsInv(s: State)
    requires CountersInv(s)
  {
    forall position: nat | Freed(s) <= position < Freed(s) + CAPACITY :: SlotInv(s, position)
  }

  ghost predicate ProducersInv(s: State)
    requires CountersInv(s)
  {
    && (forall p | p in s.producers :: ProducerInv(s, s.producers[p]))
    && (forall p, q | p in s.producers && q in s.producers && p != q ::
          Owner(s.producers[p]) && Owner(s.producers[q]) ==> s.producers[p].position != s.producers[q].position)
  }

  ghost predicate Inv(s: State) {
    CountersInv(s) && SlotsInv(s) && ProducersInv(s) && ConsumerInv(s) && WakeInv(s)
  }

  lemma InitInv(s: State)
    requires Init(s)
    ensures Inv(s)
  {
  }

  /** Two positions of one window of 128 never share a slot. */
  lemma WindowDistinct(a: nat, b: nat)
    requires a % CAPACITY == b % CAPACITY
    requires a < b
    ensures a + CAPACITY <= b
  {
  }

  lemma WindowSlots(first: nat, a: nat, b: nat)
    requires first <= a < first + CAPACITY && first <= b < first + CAPACITY && a != b
    ensures a % CAPACITY != b % CAPACITY
  {
  }

  /** The position of the current window that a slot serves. */
  function Serving(s: State, position: nat): (q: nat)
    ensures Freed(s) <= q < Freed(s) + CAPACITY
    ensures q % CAPACITY == position % CAPACITY
  {
    Freed(s) + (position - Freed(s)) % CAPACITY
  }

  /** What the sequence a producer loads tells it.  An equal sequence means that the position lies
      in the window of slots the consumer has handed back; a smaller one is seen exactly when all
      128 slots are claimed and none has been handed back. */
  lemma SequenceMeaning(s: State, position: nat)
    requires Inv(s)
    requires position <= s.enqueue
    ensures SlotAt(s, position).sequence == position ==> Freed(s) <= position < Freed(s) + CAPACITY
    ensures SlotAt(s, position).sequence < position <==> position == s.enqueue == Freed(s) + CAPACITY
    ensures SlotAt(s, position).sequence > position ==> position < s.enqueue
  {
    var q := Serving(s, position);
    assert SlotInv(s, q);
    if q < position {
      WindowDistinct(q, position);
    } else if position < q {
      WindowDistinct(position, q);
    }
  }

  // Steps that leave the slots, the claims and the window alone.
  ghost predicate SameRing(s: State, t: State) {
    t.slots == s.slots && t.enqueue == s.enqueue && t.claims == s.claims && Freed(t) == Freed(s)
  }

  /** No owner of a position stops owning it. */
  ghost predicate KeepsOwners(s: State, t: State) {
    forall p | p in s.producers && Owner(s.producers[p]) ::
      p in t.producers && Owns(t.producers[p], s.producers[p].position)
  }

  lemma SameRingKeepsSlots(s: State, t: State)
    requires CountersInv(s) && SlotsInv(s) && SameRing(s, t) && KeepsOwners(s, t)
    ensures forall position: nat | Freed(t) <= position < Freed(t) + CAPACITY :: SlotInv(t, position)
  {
    forall position: nat | Freed(t) <= position < Freed(t) + CAPACITY ensures SlotInv(t, position) {
      assert SlotInv(s, position);
      if position < s.enqueue && SlotAt(s, position).sequence == position {
        var p :| p in s.producers && Owns(s.producers[p], position);
        assert Owns(t.producers[p], position);
      }
    }
  }

  /** Every step that writes no slot and claims no position. */
  lemma QuietStep(s: State, step: Step)
    requires Enabled(s, step)
    requires !(step.BeginWrite? || step.EndWrite? || step.Publish? || step.HandBack?)
    requires step.CompareAndSwap? ==> s.enqueue != s.producers[step.p].position || step.spurious
    ensures SameRing(s, Apply(s, step)) && KeepsOwners(s, Apply(s, step))
  {
  }

  lemma ClaimKeepsSlots(s: State, p: nat)
    requires Inv(s) && Enabled(s, CompareAndSwap(p, false)) && s.enqueue == s.producers[p].position
    ensures var t := Apply(s, CompareAndSwap(p, false));
            |t.claims| == t.enqueue &&
            forall position: nat | Freed(t) <= position < Freed(t) + CAPACITY :: SlotInv(t, position)
  {
    var t := Apply(s, CompareAndSwap(p, false));
    forall position: nat | Freed(t) <= position < Freed(t) + CAPACITY ensures SlotInv(t, position) {
      assert SlotInv(s, position);
      if position == s.enqueue {
        assert Owns(t.producers[p], position);
      } else if position < s.enqueue && SlotAt(s, position).sequence == position {
        var q :| q in s.producers && Owns(s.producers[q], position);
        assert Owns(t.producers[q], position);
      }
    }
  }

  /** Steps of an owner change its own slot only. */
  lemma OwnerStepKeepsSlots(s: State, step: Step)
    requires Inv(s) && Enabled(s, step) && (step.BeginWrite? || step.EndWrite? || step.Publish?)
    ensures var t := Apply(s, step);
            forall position: nat | Freed(t) <= position < Freed(t) + CAPACITY :: SlotInv(t, position)
  {
    var t := Apply(s, step);
    var mine := s.producers[step.p].position;
    forall position: nat | Freed(t) <= position < Freed(t) + CAPACITY ensures SlotInv(t, position) {
      assert SlotInv(s, position);
      if position == mine {
        assert step.Publish? || Owns(t.producers[step.p], position);
      } else {
        assert position % CAPACITY != mine % CAPACITY;
        if position < s.enqueue && SlotAt(s, position).sequence == position {
          var q :| q in s.producers && Owns(s.producers[q], position);
          assert Owns(t.producers[q], position);
        }
      }
    }
  }

  lemma HandBackKeepsSlots(s: State)
    requires Inv(s) && Enabled(s, HandBack)
    ensures var t := Apply(s, HandBack);
            forall position: nat | Freed(t) <= position < Freed(t) + CAPACITY :: SlotInv(t, position)
  {
    var t := Apply(s, HandBack);
    forall position: nat | Freed(t) <= position < Freed(t) + CAPACITY ensures SlotInv(t, position) {
      if position < Freed(s) + CAPACITY {
        assert SlotInv(s, position);
        assert position % CAPACITY != Freed(s) % CAPACITY;
        if position < s.enqueue && SlotAt(s, position).sequence == position {
          var q :| q in s.producers && Owns(s.producers[q], position);
          assert Owns(t.producers[q], position);
        }
      }
    }
  }

  lemma KeepsSlots(s: State, step: Step)
    requires Inv(s) && Enabled(s, step)
    ensures var t := Apply(s, step);
            |t.claims| == t.enqueue &&
            forall position: nat | Freed(t) <= position < Freed(t) + CAPACITY :: SlotInv(t, position)
  {
    var t := Apply(s, step);
    match step
    case BeginWrite(_) => OwnerStepKeepsSlots(s, step);
    case EndWrite(_) => OwnerStepKeepsSlots(s, step);
    case Publish(_) => OwnerStepKeepsSlots(s, step);
    case HandBack => HandBackKeepsSlots(s);
    case CompareAndSwap(p, spurious) =>
      if s.enqueue == s.producers[p].position && !spurious {
        ClaimKeepsSlots(s, p);
      } else {
        QuietStep(s, step);
        SameRingKeepsSlots(s, t);
      }
    case _ =>
      QuietStep(s, step);
      SameRingKeepsSlots(s, t);
  }

  /** The position whose slot a step writes, if any. */
  function Touched(s: State, step: Step): (position: Option<nat>)
    requires Enabled(s, step)
  {
    match step
    case BeginWrite(p) => Some(s.producers[p].position)
    case EndWrite(p) => Some(s.producers[p].position)
    case Publish(p) => Some(s.producers[p].position)
    case HandBack => Some(s.consumer.position)
    case _ => None
  }

  lemma SlotFrame(s: State, step: Step, position: nat)
    requires CountersInv(s) && ProducersInv(s) && Enabled(s, step)
    requires Freed(s) <= position < Freed(s) + CAPACITY
    requires Touched(s, step) != Some(position)
    ensures SlotAt(Apply(s, step), position) == SlotAt(s, position)
  {
    if Touched(s, step).Some? {
      var touched := Touched(s, step).value;
      if !step.HandBack? {
        assert ProducerInv(s, s.producers[step.p]);
      }
      WindowSlots(Freed(s), touched, position);
    }
  }

  lemma CountersKept(s: State, step: Step)
    requires CountersInv(s) && ProducersInv(s) && ConsumerInv(s) && Enabled(s, step)
    ensures CountersInv(Apply(s, step))
    ensures s.claims <= Apply(s, step).claims && s.dequeued <= Apply(s, step).dequeued
    ensures Freed(s) <= Freed(Apply(s, step)) <= Freed(s) + 1
    ensures Freed(Apply(s, step)) > Freed(s) ==> step.HandBack?
  {
    if step.CompareAndSwap? {
      assert ProducerInv(s, s.producers[step.p]);
    }
  }

  lemma KeepsOwner(s: State, step: Step, p: nat)
    requires CountersInv(s) && ProducersInv(s) && ConsumerInv(s) && Enabled(s, step)
    requires p in s.producers && Owner(s.producers[p])
    ensures CountersInv(Apply(s, step))
    ensures p in Apply(s, step).producers && ProducerInv(Apply(s, step), Apply(s, step).producers[p])
  {
    CountersKept(s, step);
    var position := s.producers[p].position;
    assert ProducerInv(s, s.producers[p]);
    if Touched(s, step) != Some(position) {
      SlotFrame(s, step, position);
      if step.HandBack? {
        assert position != Freed(s);
      }
    }
  }

  lemma KeepsProducers(s: State, step: Step)
    requires Inv(s) && Enabled(s, step)
    ensures var t := Apply(s, step);
            CountersInv(t) && forall p | p in t.producers :: ProducerInv(t, t.producers[p])
  {
    var t := Apply(s, step);
    CountersKept(s, step);
    forall p | p in t.producers ensures ProducerInv(t, t.producers[p]) {
      if Owner(s.producers[p]) {
        KeepsOwner(s, step, p);
      } else {
        if s.producers[p].Looping? {
          SequenceMeaning(s, s.producers[p].position);
        }
        SlotOfTail(s);
        KeepsNonOwner(s, step, p);
      }
    }
  }

  /** A free slot at the enqueue position carries that position as its sequence. */
  lemma SlotOfTail(s: State)
    requires CountersInv(s) && SlotsInv(s)
    ensures s.enqueue < Freed(s) + CAPACITY ==> SlotAt(s, s.enqueue).sequence == s.enqueue
  {
    assert s.enqueue < Freed(s) + CAPACITY ==> SlotInv(s, s.enqueue);
  }

  lemma KeepsNonOwner(s: State, step: Step, p: nat)
    requires CountersInv(s) && ProducersInv(s) && ConsumerInv(s) && Enabled(s, step)
    requires p in s.producers && !Owner(s.producers[p])
    requires s.producers[p].Looping? && SlotAt(s, s.producers[p].position).sequence == s.producers[p].position ==>
               s.producers[p].position < Freed(s) + CAPACITY
    requires s.enqueue < Freed(s) + CAPACITY ==> SlotAt(s, s.enqueue).sequence == s.enqueue
    ensures CountersInv(Apply(s, step))
    ensures p in Apply(s, step).producers && ProducerInv(Apply(s, step), Apply(s, step).producers[p])
  {
    CountersKept(s, step);
    assert ProducerInv(s, s.producers[p]);
  }

  lemma KeepsOwnersDistinct(s: State, step: Step)
    requires Inv(s) && Enabled(s, step)
    ensures var t := Apply(s, step);
            forall p, q | p in t.producers && q in t.producers && p != q ::
              Owner(t.producers[p]) && Owner(t.producers[q]) ==> t.producers[p].position != t.producers[q].position
  {
    var t := Apply(s, step);
    forall p, q | p in t.producers && q in t.producers && p != q && Owner(t.producers[p]) && Owner(t.producers[q])
      ensures t.producers[p].position != t.producers[q].position
    {
      assert ProducerInv(s, s.producers[p]) && ProducerInv(s, s.producers[q]);
    }
  }

  /** The steps of the consumer itself. */
  predicate ConsumerStep(step: Step) {
    || step.Poll? || step.FinishCopy? || step.Advance? || step.HandBack? || step.FinishExecute?
    || step.ResetWake? || step.CheckStopping? || step.Wake?
  }

  lemma ConsumerStepKeepsConsumer(s: State, step: Step)
    requires Inv(s) && Enabled(s, step) && ConsumerStep(step)
    ensures CountersInv(Apply(s, step)) && ConsumerInv(Apply(s, step))
  {
    CountersKept(s, step);
    SlotOfHead(s);
  }

  /** The slot the consumer is reading or about to hand back is out of every other thread's reach. */
  lemma OtherStepKeepsConsumer(s: State, step: Step)
    requires CountersInv(s) && ProducersInv(s) && ConsumerInv(s) && Enabled(s, step) && !ConsumerStep(step)
    ensures CountersInv(Apply(s, step)) && ConsumerInv(Apply(s, step))
  {
    var t := Apply(s, step);
    CountersKept(s, step);
    assert t.consumer == s.consumer && t.dequeue == s.dequeue;
    if s.consumer.Copying? || s.consumer.Copied? || s.consumer.Advanced? {
      if Touched(s, step).Some? {
        assert ProducerInv(s, s.producers[step.p]);
        assert SlotAt(s, Freed(s)).sequence == Freed(s) + 1;
      }
      SlotFrame(s, step, Freed(s));
      assert SlotAt(t, Freed(s)) == SlotAt(s, Freed(s));
    }
  }

  lemma KeepsConsumer(s: State, step: Step)
    requires Inv(s) && Enabled(s, step)
    ensures CountersInv(Apply(s, step)) && ConsumerInv(Apply(s, step))
  {
    if ConsumerStep(step) {
      ConsumerStepKeepsConsumer(s, step);
    } else {
      OtherStepKeepsConsumer(s, step);
    }
  }

  lemma KeepsWake(s: State, step: Step)
    requires Inv(s) && Enabled(s, step)
    ensures WakeInv(Apply(s, step))
  {
    var t := Apply(s, step);
    if (t.consumer.Checking? || t.consumer.Waiting?) && !t.wake && IsPublished(t, t.dequeue) {
      if IsPublished(s, s.dequeue) && (s.consumer.Checking? || s.consumer.Waiting?) {
        var p :| p in s.producers && s.producers[p].Published? && s.producers[p].position == s.dequeue;
        assert t.producers[p] == s.producers[p];
      } else {
        assert step.Publish?;
        assert t.producers[step.p].Published?;
      }
    }
  }

  lemma NextInv(s: State, step: Step)
    requires Inv(s) && Enabled(s, step)
    ensures Inv(Apply(s, step))
  {
    KeepsSlots(s, step);
    KeepsProducers(s, step);
    KeepsOwnersDistinct(s, step);
    KeepsConsumer(s, step);
    KeepsWake(s, step);
  }

  /** The head slot is either published or not yet. */
  lemma SlotOfHead(s: State)
    requires Inv(s)
    ensures IsPublished(s, s.dequeue) ==> s.dequeue < s.enqueue && SlotAt(s, s.dequeue).task == Some(s.claims[s.dequeue])
  {
    assert s.dequeue < Freed(s) + CAPACITY ==> SlotInv(s, s.dequeue);
  }

  // ---------------------------------------------------------------------------------------------
  // What every run keeps
  // ---------------------------------------------------------------------------------------------

  lemma {:induction false} RunInv(run: seq<State>, schedule: seq<Step>, i: nat)
    requires IsRun(Unbounded, run, schedule) && i < |run|
    ensures Inv(run[i])
  {
    if i == 0 {
      InitInv(run[0]);
    } else {
      RunInv(run, schedule, i - 1);
      assert Moves(Unbounded, run[i - 1], schedule[i - 1], run[i - 1 + 1]);
      NextInv(run[i - 1], schedule[i - 1]);
    }
  }

  ghost predicate ListsExtend(s: State, t: State) {
    s.claims <= t.claims && s.dequeued <= t.dequeued
  }

  lemma {:induction false} ListsOnlyGrow(run: seq<State>, schedule: seq<Step>, i: nat, j: nat)
    requires IsRun(Unbounded, run, schedule) && i <= j < |run|
    ensures ListsExtend(run[i], run[j])
    decreases j
  {
    hide Inv, ApplyAt, Enabled;
    if i < j {
      ListsOnlyGrow(run, schedule, i, j - 1);
      RunInv(run, schedule, j - 1);
      assert Moves(Unbounded, run[j - 1], schedule[j - 1], run[j - 1 + 1]);
      ListsGrow(run[j - 1], schedule[j - 1]);
      ListsExtendTransitive(run[i], run[j - 1], run[j]);
    }
  }

  lemma ListsExtendTransitive(s: State, t: State, u: State)
    requires ListsExtend(s, t) && ListsExtend(t, u)
    ensures ListsExtend(s, u)
  {
  }

  lemma ListsGrow(s: State, step: Step)
    requires Inv(s) && Enabled(s, step)
    ensures ListsExtend(s, Apply(s, step))
  {
    CountersKept(s, step);
  }

  /** `task` was claimed for `position`, and the slot publishes it. */
  ghost predicate Holds(s: State, position: nat, task: Task) {
    && |s.slots| == CAPACITY
    && IsPublished(s, position)
    && SlotAt(s, position).task == Some(task)
    && position < |s.claims| && s.claims[position] == task
  }

  lemma StepKeepsPublished(s: State, step: Step, position: nat, task: Task)
    requires Inv(s) && Enabled(s, step)
    requires Holds(s, position, task) && s.dequeue <= position
    requires Apply(s, step).dequeue <= position
    ensures Holds(Apply(s, step), position, task)
  {
    CountersKept(s, step);
    if Touched(s, step).Some? && !step.HandBack? {
      assert ProducerInv(s, s.producers[step.p]);
    }
    SlotFrame(s, step, position);
  }

  /** A published task stays in its slot, unchanged, until the consumer has taken it. */
  lemma {:induction false} PublishedUntilDequeued(run: seq<State>, schedule: seq<Step>, i: nat, j: nat,
                                                  position: nat, task: Task)
    requires IsRun(Unbounded, run, schedule) && i <= j < |run|
    requires Holds(run[i], position, task)
    requires run[j].dequeue <= position
    ensures Holds(run[j], position, task)
    decreases j
  {
    hide Inv, ApplyAt, Enabled, Holds;
    if i < j {
      DequeueGrows(run, schedule, j - 1);
      PublishedUntilDequeued(run, schedule, i, j - 1, position, task);
      RunInv(run, schedule, j - 1);
      assert Moves(Unbounded, run[j - 1], schedule[j - 1], run[j - 1 + 1]);
      StepKeepsPublished(run[j - 1], schedule[j - 1], position, task);
    }
  }

  lemma DequeueGrows(run: seq<State>, schedule: seq<Step>, i: nat)
    requires IsRun(Unbounded, run, schedule) && i < |schedule|
    ensures run[i].dequeue <= run[i + 1].dequeue
  {
    assert Moves(Unbounded, run[i], schedule[i], run[i + 1]);
  }

  // Which call a claimed task comes from.

  predicate Enters(step: Step, p: nat) {
    step.Enter? && step.p == p
  }

  /** Step `i` begins a call of `submit` by producer `p`, the last one before step `k`. */
  ghost predicate IsCall(schedule: seq<Step>, p: nat, i: nat, k: nat) {
    i < k <= |schedule| && Enters(schedule[i], p) && forall m | i < m < k :: !Enters(schedule[m], p)
  }

  /** Step `c` is the successful compare-and-swap that claims `position` for the call begun at step `i`. */
  ghost predicate Wins(run: seq<State>, schedule: seq<Step>, i: nat, c: nat, position: nat)
    requires |run| == |schedule| + 1
  {
    && c < |schedule| && schedule[c].CompareAndSwap? && IsCall(schedule, schedule[c].p, i, c)
    && |run[c].claims| == position && |run[c + 1].claims| == position + 1
  }

  /** The producer has won its compare-and-swap. */
  predicate Holder(producer: Producer) {
    Owner(producer) || producer.Published?
  }

  ghost predicate WonBefore(run: seq<State>, schedule: seq<Step>, i: nat, k: nat, position: nat)
    requires |run| == |schedule| + 1
  {
    exists c: nat :: c < k && Wins(run, schedule, i, c, position)
  }

  /** Until it returns, a call carries the task it was made with; from its compare-and-swap on it holds
      the position it won there. */
  lemma {:induction false} CallCarriesItsTask(run: seq<State>, schedule: seq<Step>, p: nat, i: nat, k: nat)
    requires IsRun(Unbounded, run, schedule) && IsCall(schedule, p, i, k)
    ensures p in run[k].producers && (run[k].producers[p].Returned? || run[k].producers[p].task == schedule[i].task)
    ensures Holder(run[k].producers[p]) ==> WonBefore(run, schedule, i, k, run[k].producers[p].position)
    decreases k
  {
    hide ApplyAt, Enabled;
    var s, step := run[k - 1], schedule[k - 1];
    assert Moves(Unbounded, s, step, run[k - 1 + 1]);
    if i == k - 1 {
      EnterStep(s, step);
    } else {
      assert IsCall(schedule, p, i, k - 1);
      CallCarriesItsTask(run, schedule, p, i, k - 1);
      RunCounters(run, schedule, k - 1);
      CallStep(s, step, p);
      if Holder(run[k].producers[p]) && !Holder(s.producers[p]) {
        assert Wins(run, schedule, i, k - 1, run[k].producers[p].position);
      }
    }
  }

  lemma EnterStep(s: State, step: Step)
    requires Enabled(s, step) && step.Enter?
    ensures step.p in Apply(s, step).producers && Apply(s, step).producers[step.p] == Entered(step.task)
  {
  }

  /** One step in the middle of a call. */
  lemma CallStep(s: State, step: Step, p: nat)
    requires CountersInv(s) && Enabled(s, step) && p in s.producers && !Enters(step, p)
    ensures var t := Apply(s, step);
            && p in t.producers
            && (s.producers[p].Returned? ==> t.producers[p].Returned?)
            && (t.producers[p].Returned? || t.producers[p].task == s.producers[p].task)
            && (Holder(s.producers[p]) ==> t.producers[p].Returned? || Holder(t.producers[p]))
            && (Holder(s.producers[p]) && Holder(t.producers[p]) ==> t.producers[p].position == s.producers[p].position)
            && (Holder(t.producers[p]) && !Holder(s.producers[p]) ==>
                  && step.CompareAndSwap? && step.p == p && t.producers[p].position == |s.claims|
                  && t.claims == s.claims + [s.producers[p].task])
  {
  }

  /** A producer that is inside `submit` is in a call that some step began. */
  lemma {:induction false} FindCall(run: seq<State>, schedule: seq<Step>, p: nat, k: nat) returns (i: nat)
    requires IsRun(Unbounded, run, schedule) && k < |run| && p in run[k].producers && !run[k].producers[p].Returned?
    ensures IsCall(schedule, p, i, k)
    decreases k
  {
    assert k > 0;
    assert Moves(Unbounded, run[k - 1], schedule[k - 1], run[k - 1 + 1]);
    if Enters(schedule[k - 1], p) {
      i := k - 1;
    } else {
      RunCounters(run, schedule, k - 1);
      CallStep(run[k - 1], schedule[k - 1], p);
      i := FindCall(run, schedule, p, k - 1);
    }
  }

  /** Once a call has won, the producer does not swap again before its next call. */
  lemma {:induction false} WinsOnce(run: seq<State>, schedule: seq<Step>, i: nat, c: nat, position: nat, k: nat)
    requires IsRun(Unbounded, run, schedule) && Wins(run, schedule, i, c, position)
    requires c < k && IsCall(schedule, schedule[c].p, i, k)
    ensures var p := schedule[c].p;
            p in run[k].producers && (run[k].producers[p].Returned? || Holder(run[k].producers[p]))
    decreases k
  {
    hide ApplyAt, Enabled, Inv;
    var p := schedule[c].p;
    assert Moves(Unbounded, run[k - 1], schedule[k - 1], run[k - 1 + 1]);
    if c < k - 1 {
      assert IsCall(schedule, p, i, k - 1);
      WinsOnce(run, schedule, i, c, position, k - 1);
      RunCounters(run, schedule, k - 1);
      CallStep(run[k - 1], schedule[k - 1], p);
    } else {
      WinStep(run[c], schedule[c]);
    }
  }

  lemma WinStep(s: State, step: Step)
    requires Enabled(s, step) && step.CompareAndSwap? && |Apply(s, step).claims| > |s.claims|
    ensures step.p in Apply(s, step).producers && Apply(s, step).producers[step.p].Claimed?
  {
  }

  lemma RunCounters(run: seq<State>, schedule: seq<Step>, i: nat)
    requires IsRun(Unbounded, run, schedule) && i < |run|
    ensures CountersInv(run[i])
  {
    RunInv(run, schedule, i);
  }

  /** A call of `submit` claims at most one position. */
  lemma OneClaimPerCall(run: seq<State>, schedule: seq<Step>, i: nat, c: nat, position: nat, d: nat, other: nat)
    requires IsRun(Unbounded, run, schedule) && Wins(run, schedule, i, c, position) && Wins(run, schedule, i, d, other)
    ensures c == d && position == other
  {
    assert Moves(Unbounded, run[c], schedule[c], run[c + 1]) && Moves(Unbounded, run[d], schedule[d], run[d + 1]);
    if c < d {
      WinsOnce(run, schedule, i, c, position, d);
    } else if d < c {
      WinsOnce(run, schedule, i, d, other, c);
    }
  }

  /** The step that made the claim list long enough for a position. */
  lemma {:induction false} FindClaim(run: seq<State>, schedule: seq<Step>, j: nat, position: nat) returns (c: nat)
    requires IsRun(Unbounded, run, schedule) && j < |run| && position < |run[j].claims|
    ensures c < j && |run[c].claims| == position && |run[c + 1].claims| == position + 1
    decreases j
  {
    assert j > 0;
    assert Moves(Unbounded, run[j - 1], schedule[j - 1], run[j - 1 + 1]);
    if position < |run[j - 1].claims| {
      c := FindClaim(run, schedule, j - 1, position);
    } else {
      c := j - 1;
    }
  }

  /** Every entry of the claim list is the task of exactly one call: the one whose compare-and-swap won
      the position.  No position is won twice, and by `OneClaimPerCall` no call wins two. */
  lemma ClaimIsOneCallsTask(run: seq<State>, schedule: seq<Step>, j: nat, position: nat) returns (i: nat, c: nat)
    requires IsRun(Unbounded, run, schedule) && j < |run| && position < |run[j].claims|
    ensures c < j && Wins(run, schedule, i, c, position) && run[j].claims[position] == schedule[i].task
    ensures forall a, b | Wins(run, schedule, a, b, position) :: a == i && b == c
  {
    c := FindClaim(run, schedule, j, position);
    assert Moves(Unbounded, run[c], schedule[c], run[c + 1]);
    var p := schedule[c].p;
    i := FindCall(run, schedule, p, c);
    CallCarriesItsTask(run, schedule, p, i, c);
    ListsOnlyGrow(run, schedule, c + 1, j);
    assert run[j].claims[position] == run[c + 1].claims[position];
    forall a, b | Wins(run, schedule, a, b, position) ensures a == i && b == c {
      SameWin(run, schedule, a, b, i, c, position);
    }
  }

  lemma SameWin(run: seq<State>, schedule: seq<Step>, a: nat, b: nat, i: nat, c: nat, position: nat)
    requires IsRun(Unbounded, run, schedule) && Wins(run, schedule, a, b, position) && Wins(run, schedule, i, c, position)
    ensures a == i && b == c
  {
    if b < c {
      ListsOnlyGrow(run, schedule, b + 1, c);
    } else if c < b {
      ListsOnlyGrow(run, schedule, c + 1, b);
    }
  }

  /** `task` is what the call of `submit` was made with that won `position`. */
  ghost predicate ClaimedFor(run: seq<State>, schedule: seq<Step>, position: nat, task: Task)
    requires |run| == |schedule| + 1
  {
    exists i: nat, c: nat :: Wins(run, schedule, i, c, position) && schedule[i].task == task
  }

  /** The tasks dequeued are a prefix of the tasks claimed, in claim order, at every moment of
      every run; both lists only grow, so no task is taken twice, skipped or reordered; and each is the
      task its caller submitted. */
  lemma DequeuedInClaimOrder(run: seq<State>, schedule: seq<Step>, i: nat, j: nat)
    requires IsRun(Unbounded, run, schedule) && i <= j < |run|
    ensures run[i].claims <= run[j].claims
    ensures run[i].dequeued <= run[j].dequeued <= run[j].claims
    ensures |run[j].dequeued| == run[j].dequeue && |run[j].claims| == run[j].enqueue
    ensures forall position: nat | position < |run[j].claims| :: ClaimedFor(run, schedule, position, run[j].claims[position])
  {
    hide Inv, Wins;
    ListsFollow(run, schedule, i, j);
    forall position: nat | position < |run[j].claims| ensures ClaimedFor(run, schedule, position, run[j].claims[position]) {
      var a, b := ClaimIsOneCallsTask(run, schedule, j, position);
    }
  }

  lemma ListsFollow(run: seq<State>, schedule: seq<Step>, i: nat, j: nat)
    requires IsRun(Unbounded, run, schedule) && i <= j < |run|
    ensures run[i].claims <= run[j].claims
    ensures run[i].dequeued <= run[j].dequeued <= run[j].claims
    ensures |run[j].dequeued| == run[j].dequeue && |run[j].claims| == run[j].enqueue
  {
    RunInv(run, schedule, j);
    ListsOnlyGrow(run, schedule, i, j);
  }

  /** A call that returns true has won a position, and there its own task is claimed, at that moment and
      for ever after; when the lane takes that position it takes that task. */
  lemma AcceptedTaskIsTheCallers(run: seq<State>, schedule: seq<Step>, p: nat, i: nat, k: nat, j: nat) returns (position: nat, c: nat)
    requires IsRun(Unbounded, run, schedule) && IsCall(schedule, p, i, k) && k < |schedule| && schedule[k] == SetWake(p)
    requires k <= j < |run|
    ensures c < k && Wins(run, schedule, i, c, position)
    ensures position < |run[j].claims| && run[j].claims[position] == schedule[i].task
    ensures position < |run[j].dequeued| ==> run[j].dequeued[position] == schedule[i].task
  {
    assert Moves(Unbounded, run[k], schedule[k], run[k + 1]);
    CallCarriesItsTask(run, schedule, p, i, k);
    position := run[k].producers[p].position;
    c :| c < k && Wins(run, schedule, i, c, position);
    ListsOnlyGrow(run, schedule, c + 1, j);
    var a, b := ClaimIsOneCallsTask(run, schedule, j, position);
    DequeuedInClaimOrder(run, schedule, j, j);
  }

  /** The tasks whose execution has finished, in order. */
  ghost function Executed(run: seq<State>, schedule: seq<Step>, j: nat): seq<Task>
    requires IsRun(Unbounded, run, schedule) && j < |run|
  {
    if j == 0 then []
    else
      assert Moves(Unbounded, run[j - 1], schedule[j - 1], run[j - 1 + 1]);
      Executed(run, schedule, j - 1) + if schedule[j - 1].FinishExecute? then [run[j - 1].consumer.task] else []
  }

  /** The lane executes what it dequeues, each task once and in order; at most the last one dequeued is
      still to be executed. */
  lemma {:induction false} ExecutesWhatItDequeues(run: seq<State>, schedule: seq<Step>, j: nat)
    requires IsRun(Unbounded, run, schedule) && j < |run|
    ensures Taken(run[j], Executed(run, schedule, j)) == run[j].dequeued
  {
    hide ApplyAt, Enabled;
    if j > 0 {
      ExecutesWhatItDequeues(run, schedule, j - 1);
      assert Moves(Unbounded, run[j - 1], schedule[j - 1], run[j - 1 + 1]);
      ExecuteStep(run[j - 1], schedule[j - 1], Executed(run, schedule, j - 1));
    }
  }

  /** The tasks dequeued, given those executed. */
  ghost function Taken(s: State, executed: seq<Task>): seq<Task> {
    executed + if s.consumer.Advanced? || s.consumer.Executing? then [s.consumer.task] else []
  }

  lemma ExecuteStep(s: State, step: Step, executed: seq<Task>)
    requires Enabled(s, step) && Taken(s, executed) == s.dequeued
    ensures step.FinishExecute? ==> s.consumer.Executing?
    ensures var more := executed + if step.FinishExecute? then [s.consumer.task] else [];
            Taken(Apply(s, step), more) == Apply(s, step).dequeued
  {
    assert executed + [] == executed;
  }

  /** The slot a thread is writing to or reading from in this state. */
  datatype Agent = ProducerThread(p: nat) | ConsumerThread

  predicate UsesSlot(s: State, agent: Agent, slot: nat) {
    match agent
    case ProducerThread(p) => p in s.producers && s.producers[p].Writing? && s.producers[p].position % CAPACITY == slot
    case ConsumerThread => s.consumer.Copying? && s.dequeue % CAPACITY == slot
  }

  /** No slot is ever used by two threads at once, whoever they are. */
  lemma SlotsAreExclusive(run: seq<State>, schedule: seq<Step>, i: nat, a: Agent, b: Agent, slot: nat)
    requires IsRun(Unbounded, run, schedule) && i < |run|
    requires UsesSlot(run[i], a, slot) && UsesSlot(run[i], b, slot)
    ensures a == b
  {
    RunInv(run, schedule, i);
    var s := run[i];
    if a.ProducerThread? {
      assert ProducerInv(s, s.producers[a.p]);
    }
    if b.ProducerThread? {
      assert ProducerInv(s, s.producers[b.p]);
    }
  }

  /** `submit` gives up exactly when, at its load of the sequence, every one of the 128 slots is
      claimed and none of them has been handed back; a slot taken but not yet handed back counts
      as occupied. */
  lemma RefusedExactlyWhenFull(run: seq<State>, schedule: seq<Step>, i: nat, p: nat)
    requires IsRun(Unbounded, run, schedule) && i < |schedule|
    requires schedule[i] == LoadSequence(p)
    ensures p in run[i].producers && run[i].producers[p].Looping? && p in run[i + 1].producers
    ensures run[i + 1].producers[p] == Returned(false)
            <==> run[i].producers[p].position == run[i].enqueue == Freed(run[i]) + CAPACITY
  {
    RunInv(run, schedule, i);
    assert Moves(Unbounded, run[i], schedule[i], run[i + 1]);
    assert ProducerInv(run[i], run[i].producers[p]);
    SequenceMeaning(run[i], run[i].producers[p].position);
  }

  // A refusal with 127 tasks in the ring: the 128 slots are filled one by one, and the consumer has
  // taken the first task without having handed its slot back.

  const SAMPLE := Task(0)

  function FilledSlots(n: nat): (slots: seq<Slot>)
    ensures |slots| == CAPACITY
  {
    seq(CAPACITY, i requires 0 <= i < CAPACITY => if i < n then Slot(i + 1, Some(SAMPLE)) else Slot(i, None))
  }

  /** The ring after `n` whole submissions by one producer, which is where given. */
  function Filled(n: nat, producer: Producer): State {
    State(FilledSlots(n), n, 0, n > 0, false, map[0 := producer], Polling(false), Before, seq(n, _ => SAMPLE), [])
  }

  lemma Longer(run: seq<State>, schedule: seq<Step>, s: State, step: Step, t: State)
    returns (longer: seq<State>, steps: seq<Step>)
    requires IsRun(Unbounded, run, schedule) && run[|run| - 1] == s && Moves(Unbounded, s, step, t)
    ensures IsRun(Unbounded, longer, steps) && steps == schedule + [step] && longer == run + [t]
  {
    hide Moves;
    longer, steps := run + [t], schedule + [step];
    forall i | 0 <= i < |steps| ensures Moves(Unbounded, longer[i], steps[i], longer[i + 1]) {
      assert i < |schedule| ==> Moves(Unbounded, run[i], schedule[i], run[i + 1]);
    }
  }

  /** The producer moves alone. */
  lemma ProducerMoves(s: State, p: Producer, step: Step, q: Producer)
    requires |s.slots| == CAPACITY && s.producers == map[0 := p]
    requires (step == Enter(0, SAMPLE) && p.Returned? && q == Entered(SAMPLE))
          || (step == LoadPosition(0) && p == Entered(SAMPLE) && q == Looping(SAMPLE, s.enqueue))
          || (step == LoadSequence(0) && p == Looping(SAMPLE, s.enqueue)
              && q == (if SlotAt(s, s.enqueue).sequence == s.enqueue then Matched(SAMPLE, s.enqueue) else Returned(false))
              && SlotAt(s, s.enqueue).sequence <= s.enqueue)
    ensures Moves(Unbounded, s, step, s.(producers := map[0 := q]))
  {
    assert s.producers[0 := q] == map[0 := q];
  }

  lemma Arrives(run: seq<State>, schedule: seq<Step>, s: State, p: Producer) returns (longer: seq<State>, steps: seq<Step>)
    requires IsRun(Unbounded, run, schedule) && run[|run| - 1] == s && s.producers == map[0 := p] && p.Returned?
    ensures IsRun(Unbounded, longer, steps) && longer[|longer| - 1] == s.(producers := map[0 := Looping(SAMPLE, s.enqueue)])
    ensures steps == schedule + [Enter(0, SAMPLE), LoadPosition(0)]
  {
    hide IsRun;
    RunSlots(run, schedule);
    var s1 := s.(producers := map[0 := Entered(SAMPLE)]);
    ProducerMoves(s, p, Enter(0, SAMPLE), Entered(SAMPLE));
    longer, steps := Longer(run, schedule, s, Enter(0, SAMPLE), s1);
    ProducerMoves(s1, Entered(SAMPLE), LoadPosition(0), Looping(SAMPLE, s.enqueue));
    longer, steps := Longer(longer, steps, s1, LoadPosition(0), s1.(producers := map[0 := Looping(SAMPLE, s.enqueue)]));
  }

  lemma RunSlots(run: seq<State>, schedule: seq<Step>)
    requires IsRun(Unbounded, run, schedule)
    ensures run != [] && |run[|run| - 1].slots| == CAPACITY
  {
    RunInv(run, schedule, |run| - 1);
  }

  /** The claim and the copy of one more task. */
  lemma ClaimMoves(n: nat)
    requires n < CAPACITY
    ensures var s := Filled(n, Matched(SAMPLE, n));
            var t := s.(producers := map[0 := Claimed(SAMPLE, n)], enqueue := n + 1, claims := seq(n + 1, _ => SAMPLE));
            && Moves(Unbounded, s, CompareAndSwap(0, false), t)
            && Moves(Unbounded, t, BeginWrite(0), t.(producers := map[0 := Writing(SAMPLE, n)]))
  {
    var s := Filled(n, Matched(SAMPLE, n));
    assert s.producers[0 := Claimed(SAMPLE, n)] == map[0 := Claimed(SAMPLE, n)];
    assert map[0 := Claimed(SAMPLE, n)][0 := Writing(SAMPLE, n)] == map[0 := Writing(SAMPLE, n)];
    assert s.claims + [SAMPLE] == seq(n + 1, _ => SAMPLE);
    assert n % CAPACITY == n && s.slots[n := s.slots[n].(task := None)] == s.slots;
  }

  lemma PublishMoves(n: nat)
    requires n < CAPACITY
    ensures var t := Filled(n, Writing(SAMPLE, n)).(enqueue := n + 1, claims := seq(n + 1, _ => SAMPLE));
            var u := t.(producers := map[0 := Written(SAMPLE, n)], slots := t.slots[n := Slot(n, Some(SAMPLE))]);
            var v := u.(producers := map[0 := Published(SAMPLE, n)], slots := FilledSlots(n + 1));
            && Moves(Unbounded, t, EndWrite(0), u) && Moves(Unbounded, u, Publish(0), v)
            && Moves(Unbounded, v, SetWake(0), Filled(n + 1, Returned(true)))
  {
    var t := Filled(n, Writing(SAMPLE, n)).(enqueue := n + 1, claims := seq(n + 1, _ => SAMPLE));
    var u := t.(producers := map[0 := Written(SAMPLE, n)], slots := t.slots[n := Slot(n, Some(SAMPLE))]);
    var v := u.(producers := map[0 := Published(SAMPLE, n)], slots := FilledSlots(n + 1));
    assert n % CAPACITY == n;
    assert t.producers[0 := Written(SAMPLE, n)] == u.producers && u.producers[0 := Published(SAMPLE, n)] == v.producers;
    assert v.producers[0 := Returned(true)] == map[0 := Returned(true)];
    assert u.slots[n := Slot(n + 1, Some(SAMPLE))] == FilledSlots(n + 1);
  }

  /** The ring with one more task copied in and not yet published. */
  function HalfDone(n: nat): State
    requires n < CAPACITY
  {
    Filled(n, Written(SAMPLE, n)).(enqueue := n + 1, claims := seq(n + 1, _ => SAMPLE),
                                   slots := FilledSlots(n)[n := Slot(n, Some(SAMPLE))])
  }

  lemma CopiesIn(run: seq<State>, schedule: seq<Step>, n: nat) returns (longer: seq<State>, steps: seq<Step>)
    requires n < CAPACITY && IsRun(Unbounded, run, schedule) && run[|run| - 1] == Filled(n, Matched(SAMPLE, n))
    ensures IsRun(Unbounded, longer, steps) && longer[|longer| - 1] == HalfDone(n)
    ensures steps == schedule + [CompareAndSwap(0, false), BeginWrite(0), EndWrite(0)]
  {
    hide IsRun, Moves;
    ClaimMoves(n);
    PublishMoves(n);
    var s := Filled(n, Matched(SAMPLE, n));
    var t := s.(producers := map[0 := Claimed(SAMPLE, n)], enqueue := n + 1, claims := seq(n + 1, _ => SAMPLE));
    longer, steps := Longer(run, schedule, s, CompareAndSwap(0, false), t);
    longer, steps := Longer(longer, steps, t, BeginWrite(0), t.(producers := map[0 := Writing(SAMPLE, n)]));
    longer, steps := Longer(longer, steps, t.(producers := map[0 := Writing(SAMPLE, n)]), EndWrite(0), HalfDone(n));
  }

  lemma CopiedMore(run: seq<State>, schedule: seq<Step>, n: nat, p: Producer) returns (longer: seq<State>, steps: seq<Step>)
    requires IsRun(Unbounded, run, schedule) && run[|run| - 1] == Filled(n, p) && n < CAPACITY && p.Returned?
    ensures IsRun(Unbounded, longer, steps) && longer[|longer| - 1] == HalfDone(n)
    ensures steps == schedule + [Enter(0, SAMPLE), LoadPosition(0), LoadSequence(0), CompareAndSwap(0, false), BeginWrite(0), EndWrite(0)]
  {
    hide IsRun, Moves, HalfDone;
    longer, steps := Arrives(run, schedule, Filled(n, p), p);
    var s := Filled(n, Looping(SAMPLE, n));
    assert n % CAPACITY == n && SlotAt(s, n).sequence == n;
    ProducerMoves(s, Looping(SAMPLE, n), LoadSequence(0), Matched(SAMPLE, n));
    longer, steps := Longer(longer, steps, s, LoadSequence(0), Filled(n, Matched(SAMPLE, n)));
    longer, steps := CopiesIn(longer, steps, n);
  }

  lemma FilledMore(run: seq<State>, schedule: seq<Step>, n: nat, p: Producer) returns (longer: seq<State>, steps: seq<Step>)
    requires IsRun(Unbounded, run, schedule) && run[|run| - 1] == Filled(n, p) && n < CAPACITY && p.Returned?
    ensures IsRun(Unbounded, longer, steps) && longer[|longer| - 1] == Filled(n + 1, Returned(true))
  {
    hide IsRun, Moves;
    longer, steps := CopiedMore(run, schedule, n, p);
    PublishMoves(n);
    var v := HalfDone(n).(producers := map[0 := Published(SAMPLE, n)], slots := FilledSlots(n + 1));
    longer, steps := Longer(longer, steps, HalfDone(n), Publish(0), v);
    longer, steps := Longer(longer, steps, v, SetWake(0), Filled(n + 1, Returned(true)));
  }

  /** A run to a ring with any number of tasks up to 128. */
  lemma {:induction false} FilledRun(n: nat) returns (run: seq<State>, schedule: seq<Step>)
    requires n <= CAPACITY
    ensures IsRun(Unbounded, run, schedule) && run[|run| - 1] == Filled(n, Returned(n > 0))
    ensures n == 0 ==> schedule == []
    decreases n
  {
    if n == 0 {
      run, schedule := [Filled(0, Returned(false))], [];
    } else {
      run, schedule := FilledRun(n - 1);
      run, schedule := FilledMore(run, schedule, n - 1, Returned(n - 1 > 0));
    }
  }

  /** `submit` is refused although 127 tasks are in the ring, because the consumer has taken one and
      not handed its slot back. */
  lemma RefusedWithRoom() returns (run: seq<State>, schedule: seq<Step>)
    ensures IsRun(Unbounded, run, schedule) && |schedule| > 0 && schedule[|schedule| - 1] == LoadSequence(0)
    ensures var before, after := run[|run| - 2], run[|run| - 1];
            && before.enqueue - before.dequeue == CAPACITY - 1 && before.consumer.Advanced?
            && 0 in after.producers && after.producers[0] == Returned(false)
  {
    hide IsRun, Moves;
    run, schedule := FilledRun(CAPACITY);
    var full := Filled(CAPACITY, Returned(true));
    var taken := full.(consumer := Advanced(SAMPLE, 0), dequeue := 1, dequeued := [SAMPLE]);
    TakeFirst(full);
    run, schedule := Longer(run, schedule, full, Poll, full.(consumer := Copying));
    run, schedule := Longer(run, schedule, full.(consumer := Copying), FinishCopy, full.(consumer := Copied(SAMPLE)));
    run, schedule := Longer(run, schedule, full.(consumer := Copied(SAMPLE)), Advance, taken);
    run, schedule := Arrives(run, schedule, taken, Returned(true));
    var looping := taken.(producers := map[0 := Looping(SAMPLE, CAPACITY)]);
    ProducerMoves(looping, Looping(SAMPLE, CAPACITY), LoadSequence(0), Returned(false));
    run, schedule := Longer(run, schedule, looping, LoadSequence(0), taken.(producers := map[0 := Returned(false)]));
  }

  lemma TakeFirst(full: State)
    requires full == Filled(CAPACITY, Returned(true))
    ensures Moves(Unbounded, full, Poll, full.(consumer := Copying))
    ensures Moves(Unbounded, full.(consumer := Copying), FinishCopy, full.(consumer := Copied(SAMPLE)))
    ensures Moves(Unbounded, full.(consumer := Copied(SAMPLE)), Advance,
                  full.(consumer := Advanced(SAMPLE, 0), dequeue := 1, dequeued := [SAMPLE]))
  {
    assert [] + [SAMPLE] == [SAMPLE];
  }

  /** The consumer sleeps on an unset event only while nothing is published at the head and no
      stop is requested, unless the thread that published or requested has still to set it. */
  lemma NoLostWakeup(run: seq<State>, schedule: seq<Step>, i: nat)
    requires IsRun(Unbounded, run, schedule) && i < |run|
    requires run[i].consumer.Waiting? && !run[i].wake
    ensures |run[i].slots| == CAPACITY
    ensures IsPublished(run[i], run[i].dequeue) ==> WakeOwed(run[i], run[i].dequeue)
    ensures run[i].stopping ==> run[i].stopper.MustSet?
  {
    RunInv(run, schedule, i);
  }

  /** Once every call of `submit` and `stop` has returned, a sleeping lane has taken every task
      that was ever claimed, and no stop was requested. */
  lemma SleepingLaneIsDrained(run: seq<State>, schedule: seq<Step>, i: nat)
    requires IsRun(Unbounded, run, schedule) && i < |run|
    requires run[i].consumer.Waiting? && !run[i].wake
    requires forall p | p in run[i].producers :: run[i].producers[p].Returned?
    requires !run[i].stopper.MustSet?
    ensures run[i].dequeued == run[i].claims && !run[i].stopping
  {
    RunInv(run, schedule, i);
    var s := run[i];
    assert s.dequeue < Freed(s) + CAPACITY ==> SlotInv(s, s.dequeue);
  }

  // Tasks left behind by a stop.

  /** The last empty poll before the lane's exit: nothing is dequeued after it. */
  ghost predicate LastPoll(run: seq<State>, schedule: seq<Step>, j: nat, i: nat)
    requires |run| == |schedule| + 1 && j < |run|
  {
    && i < j && schedule[i] == Poll && |run[i].slots| == CAPACITY && !IsPublished(run[i], run[i].dequeue)
    && forall k | i < k <= j :: run[k].dequeue == run[i].dequeue && (run[k].consumer.Checking? || run[k].consumer.Exited?)
  }

  lemma {:induction false} FindLastPoll(run: seq<State>, schedule: seq<Step>, j: nat) returns (i: nat)
    requires IsRun(Unbounded, run, schedule) && j < |run| && (run[j].consumer.Exited? || run[j].consumer.Checking?)
    ensures LastPoll(run, schedule, j, i)
    decreases j
  {
    assert j > 0;
    var s, step := run[j - 1], schedule[j - 1];
    assert Moves(Unbounded, s, step, run[j - 1 + 1]);
    if step == Poll {
      i := j - 1;
    } else {
      StillLeaving(s, step);
      i := FindLastPoll(run, schedule, j - 1);
    }
  }

  /** Only a poll that finds nothing leads to the exit. */
  lemma StillLeaving(s: State, step: Step)
    requires Enabled(s, step) && step != Poll && (Apply(s, step).consumer.Exited? || Apply(s, step).consumer.Checking?)
    ensures (s.consumer.Exited? || s.consumer.Checking?) && Apply(s, step).dequeue == s.dequeue
  {
  }

  /** When the lane has exited, the claims it leaves behind are exactly those from the head of its last
      empty poll on.  It has taken everything that was ever claimed, by a `submit` that has returned or
      by one that has not, if and only if nothing was claimed at that poll that it had not taken, and
      nothing has been claimed since. */
  lemma ExitLeaves(run: seq<State>, schedule: seq<Step>, j: nat) returns (i: nat)
    requires IsRun(Unbounded, run, schedule) && j < |run| && run[j].consumer.Exited?
    ensures LastPoll(run, schedule, j, i) && run[i].dequeue <= |run[j].claims|
    ensures run[j].dequeued == run[j].claims[..run[i].dequeue]
    ensures run[j].dequeued == run[j].claims <==>
              run[i].claims == run[i].dequeued && forall k | i <= k < j :: run[k + 1].enqueue == run[k].enqueue
  {
    i := FindLastPoll(run, schedule, j);
    RunInv(run, schedule, j);
    RunInv(run, schedule, i);
    ListsOnlyGrow(run, schedule, i, j);
    if run[j].dequeued == run[j].claims {
      forall k | i <= k < j ensures run[k + 1].enqueue == run[k].enqueue {
        RunInv(run, schedule, k);
        RunInv(run, schedule, k + 1);
        ListsOnlyGrow(run, schedule, i, k);
        ListsOnlyGrow(run, schedule, k, k + 1);
        ListsOnlyGrow(run, schedule, k + 1, j);
      }
    } else if forall k | i <= k < j :: run[k + 1].enqueue == run[k].enqueue {
      SameEnqueue(run, i, j);
    }
  }

  lemma {:induction false} SameEnqueue(run: seq<State>, i: nat, j: nat)
    requires i <= j < |run| && forall k | i <= k < j :: run[k + 1].enqueue == run[k].enqueue
    ensures run[j].enqueue == run[i].enqueue
    decreases j
  {
    if i < j {
      SameEnqueue(run, i, j - 1);
      assert run[j - 1 + 1].enqueue == run[j - 1].enqueue;
    }
  }

  /** The `submit` that holds `position` returns true at this step. */
  ghost predicate Accepts(s: State, step: Step, position: nat) {
    step.SetWake? && step.p in s.producers && s.producers[step.p].Published? && s.producers[step.p].position == position
  }

  /** A call of `submit` returns true at a step if and only if the step accepts the position the call
      holds, where the task it was called with was claimed. */
  lemma AcceptedExactlyWhenReturned(run: seq<State>, schedule: seq<Step>, k: nat, p: nat)
    requires IsRun(Unbounded, run, schedule) && k < |schedule| && p in run[k].producers && !run[k].producers[p].Returned?
    ensures p in run[k + 1].producers
    ensures run[k + 1].producers[p] == Returned(true) <==>
              schedule[k] == SetWake(p) && run[k].producers[p].Published? && Accepts(run[k], schedule[k], run[k].producers[p].position)
    ensures run[k + 1].producers[p] == Returned(true) ==>
              var position := run[k].producers[p].position;
              position < |run[k].claims| && run[k].claims[position] == run[k].producers[p].task
    ensures run[k + 1].producers[p] == Returned(true) ==>
              forall i: nat | IsCall(schedule, p, i, k) :: run[k].claims[run[k].producers[p].position] == schedule[i].task
  {
    forall i: nat | IsCall(schedule, p, i, k) ensures run[k].producers[p].task == schedule[i].task {
      CallCarriesItsTask(run, schedule, p, i, k);
    }
    RunInv(run, schedule, k);
    assert Moves(Unbounded, run[k], schedule[k], run[k + 1]);
    assert ProducerInv(run[k], run[k].producers[p]);
    hide ApplyAt, SlotsInv, ConsumerInv, WakeInv;
    ReturnsAtWake(run[k], schedule[k], p);
  }

  lemma ReturnsAtWake(s: State, step: Step, p: nat)
    requires Enabled(s, step) && p in s.producers && !s.producers[p].Returned?
    ensures p in Apply(s, step).producers
    ensures Apply(s, step).producers[p] == Returned(true) <==> step == SetWake(p)
  {
  }

  /** The task at `position` was accepted: its `submit` has returned true. */
  ghost predicate AcceptedBy(run: seq<State>, schedule: seq<Step>, j: nat, position: nat)
    requires |run| == |schedule| + 1 && j < |run|
  {
    exists k: nat :: k < j && Accepts(run[k], schedule[k], position)
  }

  ghost predicate NoneAccepted(run: seq<State>, schedule: seq<Step>, j: nat)
    requires |run| == |schedule| + 1 && j < |run|
  {
    forall position: nat :: !AcceptedBy(run, schedule, j, position)
  }

  /** A poll of the head in `s` that finds nothing passes by the position: it is claimed later, or it is
      behind the head and a `submit` that holds the head has not published it. */
  ghost predicate PassedBy(s: State, position: nat) {
    || s.enqueue <= position
    || (s.dequeue <= position && exists p :: p in s.producers && Owns(s.producers[p], s.dequeue))
  }

  /** When the lane has exited, it has run every task whose `submit` has returned true if and only if
      no such task was passed by at the last empty poll: claimed after it, or waiting at that moment
      behind a `submit` that had claimed the head and not published it. */
  lemma ExitRunsAccepted(run: seq<State>, schedule: seq<Step>, j: nat) returns (i: nat)
    requires IsRun(Unbounded, run, schedule) && j < |run| && run[j].consumer.Exited?
    ensures LastPoll(run, schedule, j, i)
    ensures forall position: nat | AcceptedBy(run, schedule, j, position) :: position < |run[j].claims|
    ensures (forall position: nat | AcceptedBy(run, schedule, j, position) :: position < |run[j].dequeued|) <==>
              (forall position: nat | AcceptedBy(run, schedule, j, position) :: !PassedBy(run[i], position))
    ensures forall position: nat | AcceptedBy(run, schedule, j, position) ::
              position >= |run[j].dequeued| <==> PassedBy(run[i], position)
  {
    i := FindLastPoll(run, schedule, j);
    RunInv(run, schedule, j);
    RunInv(run, schedule, i);
    assert Moves(Unbounded, run[i], schedule[i], run[i + 1]);
    PassedByExactly(run[i]);
    forall position: nat | AcceptedBy(run, schedule, j, position) ensures position < |run[j].claims| {
      AcceptedWasClaimed(run, schedule, j, position);
    }
  }

  lemma AcceptedWasClaimed(run: seq<State>, schedule: seq<Step>, j: nat, position: nat)
    requires IsRun(Unbounded, run, schedule) && j < |run| && AcceptedBy(run, schedule, j, position)
    ensures position < |run[j].claims|
  {
    var k: nat :| k < j && Accepts(run[k], schedule[k], position);
    RunInv(run, schedule, k);
    assert ProducerInv(run[k], run[k].producers[schedule[k].p]);
    ListsOnlyGrow(run, schedule, k, j);
  }

  /** A poll that finds nothing passes by exactly what is at the head or beyond. */
  lemma PassedByExactly(s: State)
    requires Inv(s) && s.consumer.Polling? && !IsPublished(s, s.dequeue)
    ensures forall position: nat :: PassedBy(s, position) <==> s.dequeue <= position
  {
    assert Freed(s) == s.dequeue;
    assert SlotInv(s, s.dequeue);
  }

  /** A task whose `submit` returned true, before `stop` was even called, is left behind: it is
      published between the lane's last poll and its test of the stop flag. */
  lemma AcceptedTaskLeft() returns (run: seq<State>, schedule: seq<Step>)
    ensures IsRun(Unbounded, run, schedule) && AcceptedBy(run, schedule, |run| - 1, 0)
    ensures var last := run[|run| - 1];
            && last.stopper.Joined? && last.consumer.Exited? && last.claims == [SAMPLE] && last.dequeued == []
            && 0 in last.producers && last.producers[0] == Returned(true)
  {
    hide IsRun, Moves;
    run, schedule := PolledEarly();
    PublishesLate();
    var s := HalfDone(0).(consumer := Checking);
    var v := s.(producers := map[0 := Published(SAMPLE, 0)], slots := FilledSlots(1));
    var w := Filled(1, Returned(true)).(consumer := Checking);
    run, schedule := Longer(run, schedule, s, Publish(0), v);
    ghost var k := |schedule|;
    RunLength(run, schedule);
    run, schedule := Longer(run, schedule, v, SetWake(0), w);
    assert Accepts(run[k], schedule[k], 0);
    run, schedule := Stops(run, schedule, w);
    RunLength(run, schedule);
    assert k < |run| - 1 && Accepts(run[k], schedule[k], 0);
    assert seq(1, _ => SAMPLE) == [SAMPLE];
  }

  /** A claimed task is left behind although no task ever was accepted: its `submit` has not returned. */
  lemma UnacceptedTaskLeft() returns (run: seq<State>, schedule: seq<Step>)
    ensures IsRun(Unbounded, run, schedule) && NoneAccepted(run, schedule, |run| - 1)
    ensures var last := run[|run| - 1];
            && last.stopper.Joined? && last.consumer.Exited? && last.claims == [SAMPLE] && last.dequeued == []
            && 0 in last.producers && last.producers[0] == Written(SAMPLE, 0)
  {
    hide IsRun, Moves;
    run, schedule := PolledEarly();
    run, schedule := Stops(run, schedule, HalfDone(0).(consumer := Checking));
    RunLength(run, schedule);
    assert forall k | 0 <= k < |schedule| :: !schedule[k].SetWake?;
    assert seq(1, _ => SAMPLE) == [SAMPLE];
  }

  lemma RunLength(run: seq<State>, schedule: seq<Step>)
    requires IsRun(Unbounded, run, schedule)
    ensures |run| == |schedule| + 1
  {
  }

  /** A task is copied in and not published when the lane polls twice and finds nothing. */
  lemma PolledEarly() returns (run: seq<State>, schedule: seq<Step>)
    ensures IsRun(Unbounded, run, schedule) && run[|run| - 1] == HalfDone(0).(consumer := Checking)
    ensures forall k | 0 <= k < |schedule| :: !schedule[k].SetWake?
  {
    hide IsRun, Moves;
    run, schedule := FilledRun(0);
    run, schedule := CopiedMore(run, schedule, 0, Returned(false));
    var s := HalfDone(0);
    PollsEmpty(s);
    run, schedule := Longer(run, schedule, s, Poll, s.(consumer := Resetting));
    run, schedule := Longer(run, schedule, s.(consumer := Resetting), ResetWake, s.(consumer := Polling(true)));
    run, schedule := Longer(run, schedule, s.(consumer := Polling(true)), Poll, s.(consumer := Checking));
  }

  lemma PollsEmpty(s: State)
    requires s == HalfDone(0)
    ensures Moves(Unbounded, s, Poll, s.(consumer := Resetting))
    ensures Moves(Unbounded, s.(consumer := Resetting), ResetWake, s.(consumer := Polling(true)))
    ensures Moves(Unbounded, s.(consumer := Polling(true)), Poll, s.(consumer := Checking))
  {
  }

  lemma PublishesLate()
    ensures var s := HalfDone(0).(consumer := Checking);
            var v := s.(producers := map[0 := Published(SAMPLE, 0)], slots := FilledSlots(1));
            && Moves(Unbounded, s, Publish(0), v)
            && Moves(Unbounded, v, SetWake(0), Filled(1, Returned(true)).(consumer := Checking))
  {
    PublishMoves(0);
  }

  /** A whole `stop` while the lane is about to test the flag. */
  lemma Stops(run: seq<State>, schedule: seq<Step>, w: State) returns (longer: seq<State>, steps: seq<Step>)
    requires IsRun(Unbounded, run, schedule) && run[|run| - 1] == w
    requires w.consumer.Checking? && w.stopper.Before?
    ensures IsRun(Unbounded, longer, steps) && run <= longer
    ensures steps == schedule + [StoreStopping, CheckStopping, StopSetsWake, Join]
    ensures longer[|longer| - 1] == w.(stopping := true, consumer := Exited, wake := true, stopper := Joined)
  {
    hide IsRun;
    RunSlots(run, schedule);
    var stopped := w.(stopping := true, stopper := MustSet);
    var exited := stopped.(consumer := Exited);
    var joining := exited.(wake := true, stopper := Joining);
    longer, steps := Longer(run, schedule, w, StoreStopping, stopped);
    longer, steps := Longer(longer, steps, stopped, CheckStopping, exited);
    longer, steps := Longer(longer, steps, exited, StopSetsWake, joining);
    longer, steps := Longer(longer, steps, joining, Join, joining.(stopper := Joined));
  }

  // ---------------------------------------------------------------------------------------------
  // Every run comes to an end
  // ---------------------------------------------------------------------------------------------

  // Every step but a new call of `submit` or `stop` and a compare-and-swap that fails for no reason makes
  // the measure below smaller: a producer that has to retry does so because another has claimed, and the
  // lane goes round only as often as its event is set.  Where no other step is possible, everything is over.

  predicate Progress(step: Step) {
    !step.Enter? && !step.StoreStopping? && !(step.CompareAndSwap? && step.spurious)
  }

  /** How far a call is, but for the retries before its claim. */
  function CallRank(producer: Producer): nat {
    match producer
    case Returned(_) => 0
    case Claimed(_, _) => 60
    case Writing(_, _) => 59
    case Written(_, _) => 58
    case Published(_, _) => 57
    case _ => 100
  }

  /** How far a call is from its claim if no other comes in between. */
  function RetryRank(producer: Producer, enqueue: nat): (n: nat)
    ensures n <= 4
  {
    match producer
    case Entered(_) => 3
    case Looping(_, position) => if position == enqueue then 2 else 4
    case Matched(_, position) => if position == enqueue then 1 else 3
    case _ => 0
  }

  function LaneRank(consumer: Consumer, wake: bool): nat {
    match consumer
    case Copying => 14
    case Copied(_) => 13
    case Advanced(_, _) => 12
    case Executing(_) => 11
    case Polling(again) => if wake then (if again then 9 else 6) else if again then 2 else 4
    case Resetting => if wake then 5 else 3
    case Checking => if wake then 8 else 1
    case Waiting => if wake then 7 else 0
    case Exited => 0
  }

  function StopRank(stopper: Stopper): nat {
    match stopper
    case MustSet => 12
    case Joining => 1
    case _ => 0
  }

  /** The claimed tasks that the lane has not begun to take. */
  function Left(s: State): nat {
    var begun := s.dequeue + if s.consumer.Copying? || s.consumer.Copied? then 1 else 0;
    if begun <= s.enqueue then s.enqueue - begun else 0
  }

  function CallOf(s: State, p: nat): nat {
    if p in s.producers then CallRank(s.producers[p]) else 0
  }

  function RetryOf(s: State, p: nat): (n: nat)
    ensures n <= 4
  {
    if p in s.producers then RetryRank(s.producers[p], s.enqueue) else 0
  }

  ghost function Calls(s: State): nat -> nat {
    (p: nat) => CallOf(s, p)
  }

  ghost function Retries(s: State): nat -> nat {
    (p: nat) => RetryOf(s, p)
  }

  function LaneWork(s: State): nat {
    20 * Left(s) + LaneRank(s.consumer, s.wake) + StopRank(s.stopper)
  }

  ghost function Measure(s: State, n: nat): nat {
    Pair(Total(Calls(s), n) + LaneWork(s), Total(Retries(s), n), 4 * n + 1)
  }

  ghost predicate Below(s: State, n: nat) {
    forall p | p in s.producers :: p < n
  }

  /** The lane's own steps and those of `stop`. */
  lemma LaneWorks(s: State, step: Step)
    requires Inv(s) && Enabled(s, step) && Progress(step) && !ProducerStep(step)
    ensures Apply(s, step).producers == s.producers && LaneWork(Apply(s, step)) < LaneWork(s)
  {
    if step.Poll? {
      PollWorks(s);
    } else {
      hide SlotsInv, ProducersInv;
    }
  }

  lemma PollWorks(s: State)
    requires Inv(s) && Enabled(s, Poll)
    ensures Apply(s, Poll).producers == s.producers && LaneWork(Apply(s, Poll)) < LaneWork(s)
  {
    SlotOfHead(s);
    hide SlotsInv, ProducersInv;
  }

  /** A call's part of the measure, with the lane's. */
  ghost predicate Nearer(s: State, t: State, p: nat) {
    || CallOf(t, p) + LaneWork(t) < CallOf(s, p) + LaneWork(s)
    || (CallOf(t, p) == CallOf(s, p) && LaneWork(t) == LaneWork(s) && t.enqueue == s.enqueue && RetryOf(t, p) < RetryOf(s, p))
  }

  predicate ProducerStep(step: Step) {
    !ConsumerStep(step) && !step.StoreStopping? && !step.StopSetsWake? && !step.Join?
  }

  /** The steps up to the claim: the producer claims, gives up, or comes nearer to its claim. */
  lemma ClaimingWorks(s: State, step: Step)
    requires Inv(s) && Enabled(s, step) && Progress(step)
    requires step.LoadPosition? || step.LoadSequence? || step.CompareAndSwap?
    ensures Nearer(s, Apply(s, step), step.p)
  {
    assert ProducerInv(s, s.producers[step.p]);
    if step.LoadSequence? {
      SequenceMeaning(s, s.producers[step.p].position);
    }
    hide SlotsInv, ProducersInv, WakeInv, ConsumerInv;
  }

  lemma PublishingWorks(s: State, step: Step)
    requires Enabled(s, step) && (step.BeginWrite? || step.EndWrite? || step.Publish? || step.SetWake?)
    ensures Nearer(s, Apply(s, step), step.p)
  {
  }

  /** A producer's step does some work, or brings it nearer to its claim, and concerns no other. */
  lemma ProducerWorks(s: State, step: Step)
    requires Inv(s) && Enabled(s, step) && Progress(step) && ProducerStep(step)
    ensures var t, p := Apply(s, step), step.p;
            && p in s.producers && t.producers == s.producers[p := t.producers[p]] && Nearer(s, t, p)
  {
    if step.BeginWrite? || step.EndWrite? || step.Publish? || step.SetWake? {
      PublishingWorks(s, step);
    } else {
      ClaimingWorks(s, step);
    }
    hide Inv, Nearer;
  }

  lemma StepDecreases(s: State, step: Step, n: nat)
    requires Inv(s) && Enabled(s, step) && Progress(step) && Below(s, n)
    ensures Below(Apply(s, step), n) && Measure(Apply(s, step), n) < Measure(s, n)
  {
    hide Inv, ApplyAt, Enabled;
    if ProducerStep(step) {
      ProducerWorks(s, step);
      ProducerDecreases(s, Apply(s, step), step.p, n);
    } else {
      LaneWorks(s, step);
      LaneDecreases(s, Apply(s, step), n);
    }
  }

  lemma LaneDecreases(s: State, t: State, n: nat)
    requires t.producers == s.producers && LaneWork(t) < LaneWork(s)
    ensures Measure(t, n) < Measure(s, n)
  {
    hide LaneWork, CallRank, RetryRank, Pair, Total;
    TotalAtMost(Retries(t), n, 4);
    TotalOne(Calls(s), Calls(t), n, n);
    PairSmaller(Total(Calls(t), n) + LaneWork(t), Total(Calls(s), n) + LaneWork(s), Total(Retries(t), n), Total(Retries(s), n), 4 * n + 1);
  }

  lemma ProducerDecreases(s: State, t: State, p: nat, n: nat)
    requires p in s.producers && p < n && p in t.producers && t.producers == s.producers[p := t.producers[p]] && Nearer(s, t, p)
    ensures Measure(t, n) < Measure(s, n)
  {
    hide LaneWork, CallRank, RetryRank, Pair, Total;
    TotalAtMost(Retries(t), n, 4);
    forall q: nat | q != p ensures CallOf(t, q) == CallOf(s, q) && (t.enqueue == s.enqueue ==> RetryOf(t, q) == RetryOf(s, q)) {
      assert q in t.producers <==> q in s.producers;
    }
    TotalOne(Calls(s), Calls(t), n, p);
    if CallOf(t, p) == CallOf(s, p) && LaneWork(t) == LaneWork(s) {
      TotalOne(Retries(s), Retries(t), n, p);
    }
    PairSmaller(Total(Calls(t), n) + LaneWork(t), Total(Calls(s), n) + LaneWork(s), Total(Retries(t), n), Total(Retries(s), n), 4 * n + 1);
  }

  /** Without new calls and spurious failures a run is at an end after as many steps as the measure says,
      however the threads are scheduled. */
  lemma {:induction false} FinishesWithin(run: seq<State>, schedule: seq<Step>, i: nat, j: nat, n: nat)
    requires IsRun(Unbounded, run, schedule) && i <= j < |run| && Below(run[i], n)
    requires forall k | i <= k < j :: Progress(schedule[k])
    ensures Below(run[j], n) && Measure(run[j], n) + (j - i) <= Measure(run[i], n)
    decreases j
  {
    hide Inv, Below, Measure, ApplyAt, Enabled, Progress;
    if i < j {
      FinishesWithin(run, schedule, i, j - 1, n);
      RunInv(run, schedule, j - 1);
      assert Moves(Unbounded, run[j - 1], schedule[j - 1], run[j - 1 + 1]);
      StepDecreases(run[j - 1], schedule[j - 1], n);
    }
  }

  lemma {:induction false} ExitedAfterStop(run: seq<State>, schedule: seq<Step>, i: nat)
    requires IsRun(Unbounded, run, schedule) && i < |run| && run[i].consumer.Exited?
    ensures run[i].stopping
  {
    if i > 0 {
      assert Moves(Unbounded, run[i - 1], schedule[i - 1], run[i - 1 + 1]);
      if run[i - 1].consumer.Exited? {
        ExitedAfterStop(run, schedule, i - 1);
      }
    }
  }

  /** And it cannot stop before: if no such step is possible, every `submit` has returned; without a stop
      the lane sleeps and has executed every task that was ever claimed, and a `stop` has returned. */
  lemma StuckOnlyWhenDone(run: seq<State>, schedule: seq<Step>, i: nat)
    requires IsRun(Unbounded, run, schedule) && i < |run|
    requires forall step | Progress(step) :: !Enabled(run[i], step)
    ensures forall p | p in run[i].producers :: run[i].producers[p].Returned?
    ensures if run[i].stopper.Before? then
              run[i].consumer.Waiting? && !run[i].wake && Executed(run, schedule, i) == run[i].claims
            else run[i].stopper.Joined? && run[i].consumer.Exited?
  {
    RunInv(run, schedule, i);
    var s := run[i];
    forall p | p in s.producers ensures s.producers[p].Returned? {
      if !s.producers[p].Returned? {
        var step := ProducerCanStep(s, p);
      }
    }
    if !s.consumer.Waiting? && !s.consumer.Exited? {
      var step := LaneCanStep(s);
    }
    assert !Enabled(s, Wake) && !Enabled(s, StopSetsWake) && !Enabled(s, Join);
    if s.consumer.Exited? {
      ExitedAfterStop(run, schedule, i);
    } else {
      SleepingLaneIsDrained(run, schedule, i);
      ExecutesWhatItDequeues(run, schedule, i);
    }
  }

  lemma ProducerCanStep(s: State, p: nat) returns (step: Step)
    requires |s.slots| == CAPACITY && p in s.producers && !s.producers[p].Returned?
    ensures Progress(step) && Enabled(s, step)
  {
    match s.producers[p]
    case Entered(_) => step := LoadPosition(p);
    case Looping(_, _) => step := LoadSequence(p);
    case Matched(_, _) => step := CompareAndSwap(p, false);
    case Claimed(_, _) => step := BeginWrite(p);
    case Writing(_, _) => step := EndWrite(p);
    case Written(_, _) => step := Publish(p);
    case Published(_, _) => step := SetWake(p);
  }

  lemma LaneCanStep(s: State) returns (step: Step)
    requires Inv(s) && !s.consumer.Waiting? && !s.consumer.Exited?
    ensures Progress(step) && Enabled(s, step)
  {
    SlotOfHead(s);
    hide SlotsInv, ProducersInv;
    match s.consumer
    case Polling(_) => step := Poll;
    case Copying => step := FinishCopy;
    case Copied(_) => step := Advance;
    case Advanced(_, _) => step := HandBack;
    case Executing(_) => step := FinishExecute;
    case Resetting => step := ResetWake;
    case Checking => step := CheckStopping;
  }

  // ---------------------------------------------------------------------------------------------
  // The program's 64-bit counters
  // ---------------------------------------------------------------------------------------------

  function Wrap(position: nat): nat { position % WORD }

  lemma WrapPlus(position: nat, amount: nat)
    ensures Plus(Word64, Wrap(position), amount) == Wrap(position + amount)
  {
  }

  lemma WrapSlot(position: nat)
    ensures Wrap(position) % CAPACITY == position % CAPACITY
  {
  }

  /** The wrapped signed difference is the true one whenever that is within half the range. */
  lemma WrapDifference(sequence: nat, position: nat)
    requires sequence - position < HALF && position - sequence <= HALF
    ensures SequenceDifference(Wrap(sequence), Wrap(position)) == sequence - position
  {
  }

  function WrapProducer(producer: Producer): Producer {
    match producer
    case Looping(task, position) => Looping(task, Wrap(position))
    case Matched(task, position) => Matched(task, Wrap(position))
    case Claimed(task, position) => Claimed(task, Wrap(position))
    case Writing(task, position) => Writing(task, Wrap(position))
    case Written(task, position) => Written(task, Wrap(position))
    case Published(task, position) => Published(task, Wrap(position))
    case _ => producer
  }

  function WrapConsumer(consumer: Consumer): Consumer {
    if consumer.Advanced? then consumer.(position := Wrap(consumer.position)) else consumer
  }

  /** The state as the program holds it, every counter reduced to 64 bits. */
  function Wrapped(s: State): State {
    s.(slots := seq(|s.slots|, i requires 0 <= i < |s.slots| => s.slots[i].(sequence := Wrap(s.slots[i].sequence))),
       enqueue := Wrap(s.enqueue),
       dequeue := Wrap(s.dequeue),
       producers := map p | p in s.producers :: WrapProducer(s.producers[p]),
       consumer := WrapConsumer(s.consumer))
  }

  /** The producer that compares a position has not been overtaken by 2^63 - 128 claims or more. */
  predicate Fresh(s: State, step: Step)
    requires Enabled(s, step)
  {
    step.LoadSequence? || step.CompareAndSwap? ==> s.enqueue - s.producers[step.p].position < HALF - CAPACITY
  }

  lemma WrappedSlot(s: State, position: nat)
    requires |s.slots| == CAPACITY
    ensures SlotAt(Wrapped(s), Wrap(position)) == SlotAt(s, position).(sequence := Wrap(SlotAt(s, position).sequence))
  {
    WrapSlot(position);
  }

  lemma WrappedWithSlot(s: State, position: nat, slot: Slot)
    requires |s.slots| == CAPACITY
    ensures Wrapped(WithSlot(s, position, slot)) == WithSlot(Wrapped(s), Wrap(position), slot.(sequence := Wrap(slot.sequence)))
  {
    WrapSlot(position);
  }

  lemma WrappedWithProducer(s: State, p: nat, producer: Producer)
    ensures Wrapped(WithProducer(s, p, producer)) == WithProducer(Wrapped(s), p, WrapProducer(producer))
  {
  }

  /** Sequences stay within 128 of the window's start. */
  lemma SequenceWindow(s: State, position: nat)
    requires CountersInv(s) && SlotsInv(s)
    ensures Freed(s) <= SlotAt(s, position).sequence <= Freed(s) + CAPACITY
  {
    assert SlotInv(s, Serving(s, position));
  }

  lemma WrapEqual(a: nat, b: nat)
    requires a - b < WORD && b - a < WORD
    ensures Wrap(a) == Wrap(b) <==> a == b
  {
  }

  lemma WrappedLoad(s: State, p: nat)
    requires Inv(s)
    requires Enabled(s, LoadSequence(p)) && Fresh(s, LoadSequence(p))
    ensures Enabled(Wrapped(s), LoadSequence(p))
    ensures Wrapped(Apply(s, LoadSequence(p))) == ApplyAt(Word64, Wrapped(s), LoadSequence(p))
  {
    var Looping(task, position) := s.producers[p];
    assert ProducerInv(s, s.producers[p]);
    SequenceWindow(s, position);
    WrapDifference(SlotAt(s, position).sequence, position);
    WrappedSlot(s, position);
    WrappedWithProducer(s, p, Apply(s, LoadSequence(p)).producers[p]);
  }

  lemma WrappedClaim(s: State, p: nat, spurious: bool)
    requires Inv(s)
    requires Enabled(s, CompareAndSwap(p, spurious)) && Fresh(s, CompareAndSwap(p, spurious))
    ensures Enabled(Wrapped(s), CompareAndSwap(p, spurious))
    ensures Wrapped(Apply(s, CompareAndSwap(p, spurious))) == ApplyAt(Word64, Wrapped(s), CompareAndSwap(p, spurious))
  {
    var Matched(task, position) := s.producers[p];
    assert ProducerInv(s, s.producers[p]);
    WrapEqual(s.enqueue, position);
    WrapPlus(position, 1);
    WrappedWithProducer(s, p, Apply(s, CompareAndSwap(p, spurious)).producers[p]);
  }

  /** A producer's write to its own slot commutes with the reduction. */
  lemma WrappedSlotAndProducer(s: State, position: nat, slot: Slot, p: nat, producer: Producer)
    requires |s.slots| == CAPACITY
    ensures Wrapped(WithProducer(WithSlot(s, position, slot), p, producer))
            == WithProducer(WithSlot(Wrapped(s), Wrap(position), slot.(sequence := Wrap(slot.sequence))), p, WrapProducer(producer))
  {
    WrappedWithSlot(s, position, slot);
    WrappedWithProducer(WithSlot(s, position, slot), p, producer);
  }

  lemma WrappedWrite(s: State, step: Step)
    requires Enabled(s, step) && (step.BeginWrite? || step.EndWrite?)
    ensures Enabled(Wrapped(s), step)
    ensures Wrapped(Apply(s, step)) == ApplyAt(Word64, Wrapped(s), step)
  {
    var position := s.producers[step.p].position;
    var task := s.producers[step.p].task;
    WrappedSlot(s, position);
    if step.BeginWrite? {
      WrappedSlotAndProducer(s, position, SlotAt(s, position).(task := None), step.p, Writing(task, position));
    } else {
      WrappedSlotAndProducer(s, position, SlotAt(s, position).(task := Some(task)), step.p, Written(task, position));
    }
  }

  lemma WrappedPublish(s: State, p: nat)
    requires Enabled(s, Publish(p))
    ensures Enabled(Wrapped(s), Publish(p))
    ensures Wrapped(Apply(s, Publish(p))) == ApplyAt(Word64, Wrapped(s), Publish(p))
  {
    var Written(task, position) := s.producers[p];
    WrapPlus(position, 1);
    WrappedSlot(s, position);
    WrappedSlotAndProducer(s, position, SlotAt(s, position).(sequence := position + 1), p, Published(task, position));
  }

  lemma WrappedHandBack(s: State)
    requires Enabled(s, HandBack)
    ensures Enabled(Wrapped(s), HandBack)
    ensures Wrapped(Apply(s, HandBack)) == ApplyAt(Word64, Wrapped(s), HandBack)
  {
    var position := s.consumer.position;
    WrapPlus(position, CAPACITY);
    WrappedSlot(s, position);
    WrappedWithSlot(s, position, SlotAt(s, position).(sequence := position + CAPACITY));
  }

  lemma WrappedPoll(s: State, step: Step)
    requires CountersInv(s) && SlotsInv(s)
    requires Enabled(s, step) && (step.Poll? || step.FinishCopy? || step.Advance?)
    ensures Enabled(Wrapped(s), step)
    ensures Wrapped(Apply(s, step)) == ApplyAt(Word64, Wrapped(s), step)
  {
    SequenceWindow(s, s.dequeue);
    WrapEqual(SlotAt(s, s.dequeue).sequence, s.dequeue + 1);
    WrapPlus(s.dequeue, 1);
    WrappedSlot(s, s.dequeue);
  }

  /** One step of the 64-bit program is the image of the unbounded step. */
  lemma WrappedStep(s: State, step: Step)
    requires Inv(s)
    requires Enabled(s, step) && Fresh(s, step)
    ensures Enabled(Wrapped(s), step)
    ensures Wrapped(Apply(s, step)) == ApplyAt(Word64, Wrapped(s), step)
  {
    match step
    case LoadSequence(p) => WrappedLoad(s, p);
    case CompareAndSwap(p, spurious) => WrappedClaim(s, p, spurious);
    case BeginWrite(_) => WrappedWrite(s, step);
    case EndWrite(_) => WrappedWrite(s, step);
    case Publish(p) => WrappedPublish(s, p);
    case Enter(p, task) => WrappedWithProducer(s, p, Entered(task));
    case LoadPosition(p) => WrappedWithProducer(s, p, Looping(s.producers[p].task, s.enqueue));
    case SetWake(p) => WrappedWithProducer(s, p, Returned(true));
    case HandBack => WrappedHandBack(s);
    case Poll => WrappedPoll(s, step);
    case FinishCopy => WrappedPoll(s, step);
    case Advance => WrappedPoll(s, step);
    case _ =>
  }

  lemma EnabledFromWrapped(s: State, step: Step)
    requires Enabled(Wrapped(s), step)
    ensures Enabled(s, step)
  {
    if step.FinishCopy? && |s.slots| == CAPACITY {
      WrappedSlot(s, s.dequeue);
    }
  }

  /** Every run of the 64-bit program is, counter for counter, the image of an unbounded run under
      the same schedule, up to the first step (if any) at which a producer that compares its
      position has been overtaken by 2^63 - 128 claims. */
  lemma {:induction false} WordRunFollowsUnboundedRun(words: seq<State>, schedule: seq<Step>)
    returns (run: seq<State>, n: nat)
    requires IsRun(Word64, words, schedule)
    ensures n <= |schedule| && IsRun(Unbounded, run, schedule[..n])
    ensures forall i | 0 <= i <= n :: words[i] == Wrapped(run[i])
    ensures n < |schedule| ==> Enabled(run[n], schedule[n]) && !Fresh(run[n], schedule[n])
  {
    run, n := [words[0]], 0;
    assert words[0] == Wrapped(words[0]);
    while n < |schedule|
      invariant n <= |schedule| && IsRun(Unbounded, run, schedule[..n])
      invariant forall i | 0 <= i <= n :: words[i] == Wrapped(run[i])
    {
      RunInv(run, schedule[..n], n);
      assert Moves(Word64, words[n], schedule[n], words[n + 1]);
      EnabledFromWrapped(run[n], schedule[n]);
      if !Fresh(run[n], schedule[n]) {
        return;
      }
      WrappedStep(run[n], schedule[n]);
      var longer := run + [Apply(run[n], schedule[n])];
      forall i | 0 <= i < n + 1 ensures Moves(Unbounded, longer[i], schedule[..n + 1][i], longer[i + 1]) {
        assert i < n ==> Moves(Unbounded, run[i], schedule[..n][i], run[i + 1]);
      }
      run, n := longer, n + 1;
    }
  }
}
