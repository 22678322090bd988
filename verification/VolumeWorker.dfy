/** The catalog volume worker: a FIFO of requests, one worker thread, up to 16 reads in flight at a
    time, and every other request alone.  A read copies its bytes one at a time while other threads
    run, and a write stores them one at a time, so that reading during a write would be seen.

    The backend may fail any request, depending on the volume it finds when it starts on it: `fault`
    is the error it raises on that volume, if any, and how many bytes it moves first.  So both the
    status and the bytes of a request tell what was executed before it. */
module VolumeWorker {
  import opened Wrappers
  import opened Bytes
  import opened Collections

  const MAX_CONCURRENT: nat := 16

  const ENOMEM: int := 12
  const EIO: int := 5
  const EBADF: int := 9
  const ENODEV: int := 19
  const ENOSPC: int := 28
  const ERANGE: int := 34
  const ESTALE: int := 116

  datatype BackendError =
    | OutOfMemory | OutOfBounds | ExtentNotMapped | PoolAuthorityChanged | MissingAuthority
    | DataReadUnavailable | DataWriteUnavailable | DataMemberUnavailable
    | DataLeaseReleased | DataLeaseMismatch | WriteFrozen | InvalidProviderOperation | OtherError

  function ErrorStatus(e: BackendError): int {
    match e
    case OutOfMemory => -ENOMEM
    case OutOfBounds => -ERANGE
    case ExtentNotMapped => -ENOSPC
    case PoolAuthorityChanged => -ESTALE
    case MissingAuthority => -ENODEV
    case DataReadUnavailable => -ENODEV
    case DataWriteUnavailable => -ENODEV
    case DataMemberUnavailable => -ENODEV
    case DataLeaseReleased => -EBADF
    case DataLeaseMismatch => -EBADF
    case WriteFrozen => -EBADF
    case _ => -EIO
  }

  datatype Operation =
    | Read(offset: nat, length: nat)
    | WriteBytes(offset: nat, bytes: seq<Byte>)
    | Flush
    | Reset
    | Unknown

  datatype Fault = Fault(after: nat, error: BackendError)

  datatype Request = Request(operation: Operation, fault: File -> Option<Fault>)

  /** One invocation of a request's completion callback; for a read, with what is in its buffer. */
  datatype Call = Call(index: nat, status: int, data: seq<Byte>)

  // ---------------------------------------------------------------------------------------------
  // One request at a time
  // ---------------------------------------------------------------------------------------------

  predicate InBounds(size: nat, operation: Operation) {
    match operation
    case Read(offset, length) => offset + length <= size
    case WriteBytes(offset, bytes) => offset + |bytes| <= size
    case _ => true
  }

  /** The bytes an operation moves before it ends, if it meets the fault. */
  function GoalWith(size: nat, operation: Operation, fault: Option<Fault>): nat {
    if !InBounds(size, operation) then 0
    else
      var length := match operation
        case Read(_, n) => n
        case WriteBytes(_, bytes) => |bytes|
        case _ => 0;
      if fault.Some? then Min(length, fault.value.after) else length
  }

  function StatusWith(size: nat, operation: Operation, fault: Option<Fault>): int {
    match operation
    case Reset => 0
    case Unknown => ErrorStatus(InvalidProviderOperation)
    case _ =>
      if !InBounds(size, operation) then ErrorStatus(OutOfBounds)
      else if fault.Some? then ErrorStatus(fault.value.error)
      else 0
  }

  /** The bytes a request moves that finds the volume. */
  function Goal(volume: File, request: Request): nat {
    GoalWith(|volume|, request.operation, request.fault(volume))
  }

  function StatusOf(volume: File, request: Request): int {
    StatusWith(|volume|, request.operation, request.fault(volume))
  }

  /** The volume with the first `k` bytes of the request stored. */
  function Stored(volume: File, request: Request, k: nat): (r: File)
    requires k <= Goal(volume, request)
    ensures |r| == |volume|
  {
    match request.operation
    case WriteBytes(offset, bytes) =>
      if InBounds(|volume|, request.operation) then volume[..offset] + bytes[..k] + volume[offset + k..] else volume
    case _ => volume
  }

  function VolumeAfter(volume: File, request: Request): (r: File)
    ensures |r| == |volume|
  {
    Stored(volume, request, Goal(volume, request))
  }

  /** The volume after the requests, executed one at a time in order. */
  function VolumeAt(volume: File, requests: seq<Request>): (r: File)
    ensures |r| == |volume|
    decreases |requests|
  {
    if requests == [] then volume
    else VolumeAfter(VolumeAt(volume, requests[..|requests| - 1]), requests[|requests| - 1])
  }

  /** The first `k` bytes a read sees. */
  function Seen(volume: File, request: Request, k: nat): seq<Byte>
    requires k <= Goal(volume, request)
  {
    match request.operation
    case Read(offset, _) => if InBounds(|volume|, request.operation) then volume[offset..offset + k] else []
    case _ => []
  }

  /** The callback of request `i` in the execution of the requests one at a time. */
  function FifoCall(volume: File, requests: seq<Request>, i: nat): Call
    requires i < |requests|
  {
    var before := VolumeAt(volume, requests[..i]);
    Call(i, StatusOf(before, requests[i]), Seen(before, requests[i], Goal(before, requests[i])))
  }

  /** Statuses tell the order: a read that fails on the volume it finds before a write, and not on the
      one after it, has another status on either side of the write. */
  lemma StatusTellsOrder(volume: File, write: Request, read: Request)
    requires write.operation.WriteBytes? && read.operation.Read? && InBounds(|volume|, read.operation)
    requires read.fault(volume).Some? && read.fault(volume).value.error.ExtentNotMapped?
    requires read.fault(VolumeAfter(volume, write)).None?
    ensures FifoCall(volume, [read, write], 0).status == -ENOSPC
    ensures FifoCall(volume, [write, read], 1).status == 0
  {
    assert [read, write][..0] == [];
    assert [write, read][..1] == [write] && [write][..0] == [];
    assert VolumeAt(volume, [write]) == VolumeAfter(volume, write);
  }

  // ---------------------------------------------------------------------------------------------
  // The worker
  // ---------------------------------------------------------------------------------------------

  /** A read that has its permit. */
  datatype Reader =
    | Waiting                                          // its task has not begun
    | Reading(fault: Option<Fault>, data: seq<Byte>)   // what it meets, and what it has copied
    | Called                                           // its callback has been made

  /** Where the worker thread is inside `run`.  Requests are named by their place in submit order. */
  datatype Thread =
    | Fetching                        // about to lock the mutex in `nextRequest`
    | Testing                         // holds it
    | Sleeping                        // in the condition wait
    | Woken                           // about to take the mutex back
    | WantsPermit(index: nat)         // a read, waiting for one of the 16 permits
    | Inline(index: nat)              // a read run by the worker itself: no task could be started
    | Draining(index: nat)            // another request, waiting for the reads before it
    | Working(index: nat, fault: Option<Fault>, stored: nat)
    | FinalDrain
    | Exited

  /** How far a thread is that holds the mutex to wake the worker. */
  datatype Stage = Entered | Changed | Signalled

  datatype Mutex =
    | Free
    | HeldByWorker
    | HeldBySubmitter(request: Request, stage: Stage)
    | HeldByCloser(stage: Stage)

  datatype Closer = Open | Closing | Joining | Joined

  datatype State = State(
    volume: File,
    accepted: seq<Request>,           // every request `submit` has queued, in order
    dequeued: nat,                    // the queue is accepted[dequeued..]
    mutex: Mutex,
    thread: Thread,
    readers: map<nat, Reader>,
    permits: nat,
    stopping: bool,
    closer: Closer,
    log: seq<Call>)

  datatype Step =
    | LockSubmit(request: Request)
    | Queue                           // or, while stopping, refuse and unlock
    | SignalSubmit
    | UnlockSubmit
    | LockClose
    | SetStop
    | SignalClose
    | UnlockClose
    | EndJoin
    | LockNext
    | Test                            // sleep, take the next request, or see the stop
    | Spurious
    | Retake
    | TakePermit(inline: bool)
    | BeginRead(index: nat)
    | Copy(index: nat)
    | CompleteRead(index: nat)
    | LeaveRead(index: nat)
    | EndInline
    | EndDrain
    | StoreByte
    | CompleteWork
    | EndFinalDrain

  ghost predicate Init(s: State, volume: File) {
    s == State(volume, [], 0, Free, Fetching, map[], MAX_CONCURRENT, false, Open, [])
  }

  predicate IsReading(s: State, i: nat) {
    i in s.readers && s.readers[i].Reading? && i < |s.accepted|
  }

  predicate IsWorking(s: State) {
    s.thread.Working? && s.thread.index < |s.accepted|
  }

  predicate Enabled(s: State, step: Step) {
    match step
    case LockSubmit(_) => s.mutex.Free?
    case Queue => s.mutex.HeldBySubmitter? && s.mutex.stage.Entered?
    case SignalSubmit => s.mutex.HeldBySubmitter? && s.mutex.stage.Changed?
    case UnlockSubmit => s.mutex.HeldBySubmitter? && s.mutex.stage.Signalled?
    case LockClose => s.mutex.Free? && s.closer.Open?
    case SetStop => s.mutex == HeldByCloser(Entered)
    case SignalClose => s.mutex == HeldByCloser(Changed)
    case UnlockClose => s.mutex == HeldByCloser(Signalled)
    case EndJoin => s.closer.Joining? && s.thread.Exited?
    case LockNext => s.thread.Fetching? && s.mutex.Free?
    case Test => s.thread.Testing? && s.dequeued <= |s.accepted|
    case Spurious => s.thread.Sleeping?
    case Retake => s.thread.Woken? && s.mutex.Free?
    case TakePermit(_) => s.thread.WantsPermit? && s.permits > 0
    case BeginRead(i) => i in s.readers && s.readers[i].Waiting? && i < |s.accepted|
    case Copy(i) =>
      && IsReading(s, i)
      && s.accepted[i].operation.Read? && InBounds(|s.volume|, s.accepted[i].operation)
      && |s.readers[i].data| < GoalWith(|s.volume|, s.accepted[i].operation, s.readers[i].fault)
    case CompleteRead(i) =>
      && IsReading(s, i)
      && |s.readers[i].data| == GoalWith(|s.volume|, s.accepted[i].operation, s.readers[i].fault)
    case LeaveRead(i) => i in s.readers && s.readers[i].Called?
    case EndInline => s.thread.Inline? && s.thread.index !in s.readers
    case EndDrain => s.thread.Draining? && s.thread.index < |s.accepted| && s.readers == map[]
    case StoreByte =>
      && IsWorking(s)
      && s.accepted[s.thread.index].operation.WriteBytes?
      && InBounds(|s.volume|, s.accepted[s.thread.index].operation)
      && s.thread.stored < GoalWith(|s.volume|, s.accepted[s.thread.index].operation, s.thread.fault)
    case CompleteWork =>
      && IsWorking(s)
      && s.thread.stored == GoalWith(|s.volume|, s.accepted[s.thread.index].operation, s.thread.fault)
    case EndFinalDrain => s.thread.FinalDrain? && s.readers == map[]
  }

  /** A signal wakes the worker if it sleeps. */
  function Signal(s: State): State {
    if s.thread.Sleeping? then s.(thread := Woken) else s
  }

  function Apply(s: State, step: Step): State
    requires Enabled(s, step)
  {
    match step
    case LockSubmit(request) => s.(mutex := HeldBySubmitter(request, Entered))
    case Queue =>
      if s.stopping then s.(mutex := Free)
      else s.(accepted := s.accepted + [s.mutex.request], mutex := HeldBySubmitter(s.mutex.request, Changed))
    case SignalSubmit => Signal(s).(mutex := HeldBySubmitter(s.mutex.request, Signalled))
    case UnlockSubmit => s.(mutex := Free)
    case LockClose => s.(mutex := HeldByCloser(Entered), closer := Closing)
    case SetStop => s.(mutex := HeldByCloser(Changed), stopping := true)
    case SignalClose => Signal(s).(mutex := HeldByCloser(Signalled))
    case UnlockClose => s.(mutex := Free, closer := Joining)
    case EndJoin => s.(closer := Joined)
    case LockNext => s.(mutex := HeldByWorker, thread := Testing)
    case Test =>
      var i := s.dequeued;
      if i < |s.accepted| then
        s.(mutex := Free, dequeued := i + 1, thread := if s.accepted[i].operation.Read? then WantsPermit(i) else Draining(i))
      else
        s.(mutex := Free, thread := if s.stopping then FinalDrain else Sleeping)
    case Spurious => s.(thread := Woken)
    case Retake => s.(mutex := HeldByWorker, thread := Testing)
    case TakePermit(inline) =>
      var i := s.thread.index;
      s.(permits := s.permits - 1, readers := s.readers[i := Waiting], thread := if inline then Inline(i) else Fetching)
    case BeginRead(i) => s.(readers := s.readers[i := Reading(s.accepted[i].fault(s.volume), [])])
    case Copy(i) =>
      var reader := s.readers[i];
      s.(readers := s.readers[i := reader.(data := reader.data + [s.volume[s.accepted[i].operation.offset + |reader.data|]])])
    case CompleteRead(i) =>
      s.(readers := s.readers[i := Called],
         log := s.log + [Call(i, StatusWith(|s.volume|, s.accepted[i].operation, s.readers[i].fault), s.readers[i].data)])
    case LeaveRead(i) => s.(readers := s.readers - {i}, permits := s.permits + 1)
    case EndInline => s.(thread := Fetching)
    case EndDrain => s.(thread := Working(s.thread.index, s.accepted[s.thread.index].fault(s.volume), 0))
    case StoreByte =>
      var Working(i, fault, k) := s.thread;
      var WriteBytes(offset, bytes) := s.accepted[i].operation;
      s.(volume := s.volume[offset + k := bytes[k]], thread := Working(i, fault, k + 1))
    case CompleteWork =>
      var i := s.thread.index;
      s.(thread := Fetching, log := s.log + [Call(i, StatusWith(|s.volume|, s.accepted[i].operation, s.thread.fault), [])])
    case EndFinalDrain => s.(thread := Exited)
  }

  ghost predicate Moves(s: State, step: Step, t: State) {
    Enabled(s, step) && t == Apply(s, step)
  }

  ghost predicate IsRun(volume: File, run: seq<State>, schedule: seq<Step>) {
    && |run| == |schedule| + 1
    && Init(run[0], volume)
    && forall i | 0 <= i < |schedule| :: Moves(run[i], schedule[i], run[i + 1])
  }

  // ---------------------------------------------------------------------------------------------
  // The invariant
  // ---------------------------------------------------------------------------------------------

  /** The requests before this one have been started; the others have had no effect yet. */
  function Settled(s: State): nat {
    match s.thread
    case WantsPermit(i) => i
    case Draining(i) => i
    case Working(i, _, _) => i
    case _ => s.dequeued
  }

  ghost predicate ThreadInv(s: State) {
    && s.dequeued <= |s.accepted|
    && (s.stopping <==> s.closer.Joining? || s.closer.Joined? || (s.mutex.HeldByCloser? && !s.mutex.stage.Entered?))
    && (s.mutex.HeldByCloser? <==> s.closer.Closing?)
    && (s.mutex.HeldByWorker? <==> s.thread.Testing?)
    && match s.thread
       case WantsPermit(i) => s.dequeued == i + 1 && s.accepted[i].operation.Read?
       case Inline(i) => i < s.dequeued
       case Draining(i) => s.dequeued == i + 1 && !s.accepted[i].operation.Read?
       case Working(i, _, _) => s.dequeued == i + 1 && !s.accepted[i].operation.Read? && s.readers == map[]
       case FinalDrain => s.stopping && s.dequeued == |s.accepted|
       case Exited => s.stopping && s.dequeued == |s.accepted| && s.readers == map[]
       case Sleeping => (s.dequeued == |s.accepted| && !s.stopping) || SignalOwed(s)
       case _ => true
  }

  /** A thread has given the worker a reason to run, holds the mutex and has still to signal. */
  predicate SignalOwed(s: State) {
    (s.mutex.HeldBySubmitter? || s.mutex.HeldByCloser?) && s.mutex.stage.Changed?
  }

  ghost predicate VolumeInv(s: State, volume: File)
    requires ThreadInv(s)
  {
    var settled := VolumeAt(volume, s.accepted[..Settled(s)]);
    if s.thread.Working? then
      var request := s.accepted[s.thread.index];
      && s.thread.fault == request.fault(settled) && s.thread.stored <= Goal(settled, request)
      && s.volume == Stored(settled, request, s.thread.stored)
    else
      s.volume == settled
  }

  ghost predicate ReaderInv(s: State, volume: File, i: nat)
    requires ThreadInv(s) && i in s.readers
  {
    && i < Settled(s)
    && s.accepted[i].operation.Read?
    && VolumeAt(volume, s.accepted[..i]) == VolumeAt(volume, s.accepted[..Settled(s)])
    && (s.readers[i].Reading? ==>
          var found := VolumeAt(volume, s.accepted[..i]);
          && s.readers[i].fault == s.accepted[i].fault(found)
          && |s.readers[i].data| <= Goal(found, s.accepted[i])
          && s.readers[i].data == Seen(found, s.accepted[i], |s.readers[i].data|))
  }

  ghost predicate ReadersInv(s: State, volume: File)
    requires ThreadInv(s)
  {
    forall i | i in s.readers :: ReaderInv(s, volume, i)
  }

  ghost predicate Logged(log: seq<Call>, i: nat) {
    exists k :: 0 <= k < |log| && log[k].index == i
  }

  /** Each callback made is the one sequential execution makes, and none is made twice. */
  ghost predicate LogFifo(s: State, volume: File) {
    && (forall k | 0 <= k < |s.log| :: s.log[k].index < |s.accepted| && s.log[k] == FifoCall(volume, s.accepted, s.log[k].index))
    && (forall k, l | 0 <= k < l < |s.log| :: s.log[k].index != s.log[l].index)
  }

  /** Exactly the started requests that are not still reading have had their callback. */
  ghost predicate LogComplete(s: State) {
    && (forall i: nat | i < Settled(s) :: Logged(s.log, i) || (i in s.readers && !s.readers[i].Called?))
    && (forall k | 0 <= k < |s.log| :: s.log[k].index < Settled(s))
    && (forall i | i in s.readers :: s.readers[i].Called? <==> Logged(s.log, i))
  }

  ghost predicate Inv(s: State, volume: File) {
    && ThreadInv(s)
    && VolumeInv(s, volume)
    && ReadersInv(s, volume)
    && LogFifo(s, volume)
    && LogComplete(s)
    && s.permits + |s.readers| == MAX_CONCURRENT
  }

  lemma ReadsKeepVolume(volume: File, requests: seq<Request>, n: nat)
    requires n < |requests| && requests[n].operation.Read?
    ensures VolumeAt(volume, requests[..n + 1]) == VolumeAt(volume, requests[..n])
  {
    assert requests[..n + 1][..n] == requests[..n];
  }

  lemma VolumeStep(volume: File, requests: seq<Request>, n: nat)
    requires n < |requests|
    ensures VolumeAt(volume, requests[..n + 1]) == VolumeAfter(VolumeAt(volume, requests[..n]), requests[n])
  {
    assert requests[..n + 1][..n] == requests[..n];
  }

  // ---------------------------------------------------------------------------------------------
  // Every step keeps it
  // ---------------------------------------------------------------------------------------------

  /** What is queued later does not change how a request is executed. */
  lemma FifoCallPrefix(volume: File, requests: seq<Request>, more: seq<Request>, i: nat)
    requires i < |requests| && requests <= more
    ensures FifoCall(volume, more, i) == FifoCall(volume, requests, i)
  {
    assert more[..i] == requests[..i];
  }

  lemma QueueLog(s: State, t: State, volume: File)
    requires LogFifo(s, volume) && t.log == s.log && s.accepted <= t.accepted
    ensures LogFifo(t, volume)
  {
    hide FifoCall;
    forall k | 0 <= k < |t.log| ensures t.log[k].index < |t.accepted| && t.log[k] == FifoCall(volume, t.accepted, t.log[k].index) {
      FifoCallPrefix(volume, s.accepted, t.accepted, s.log[k].index);
    }
  }

  lemma QueueReaders(s: State, volume: File)
    requires ThreadInv(s) && ReadersInv(s, volume) && Enabled(s, Queue)
    ensures ThreadInv(Apply(s, Queue)) && ReadersInv(Apply(s, Queue), volume)
  {
    hide Seen, Stored, Goal, VolumeAt;
    var t := Apply(s, Queue);
    assert forall n: nat | n <= |s.accepted| :: t.accepted[..n] == s.accepted[..n];
    forall i | i in t.readers ensures ReaderInv(t, volume, i) {
      assert ReaderInv(s, volume, i);
    }
  }

  lemma QueueInv(s: State, volume: File)
    requires Inv(s, volume) && Enabled(s, Queue)
    ensures Inv(Apply(s, Queue), volume)
  {
    hide Seen, Stored, Goal, VolumeAt, LogFifo, LogComplete, ReadersInv;
    var t := Apply(s, Queue);
    assert t.accepted[..Settled(s)] == s.accepted[..Settled(s)];
    QueueReaders(s, volume);
    QueueLog(s, t, volume);
    LogSame(s, t);
  }

  /** Steps that only move program counters and the mutex. */
  predicate Quiet(step: Step) {
    || step.LockSubmit? || step.SignalSubmit? || step.UnlockSubmit? || step.LockClose? || step.SetStop? || step.SignalClose?
    || step.UnlockClose? || step.EndJoin? || step.LockNext? || step.Test? || step.Spurious? || step.Retake? || step.EndInline?
    || step.EndFinalDrain?
  }

  lemma QuietThread(s: State, step: Step)
    requires ThreadInv(s) && Enabled(s, step) && Quiet(step)
    ensures ThreadInv(Apply(s, step)) && Settled(Apply(s, step)) == Settled(s)
    ensures Apply(s, step).thread.Working? <==> s.thread.Working?
    ensures s.thread.Working? ==> Apply(s, step).thread == s.thread
    ensures var t := Apply(s, step);
            t.volume == s.volume && t.accepted == s.accepted && t.readers == s.readers && t.permits == s.permits && t.log == s.log
  {
  }

  lemma QuietInv(s: State, volume: File, step: Step)
    requires Inv(s, volume) && Enabled(s, step) && Quiet(step)
    ensures Inv(Apply(s, step), volume)
  {
    hide Apply, Quiet, Enabled, Seen, Stored, GoalWith;
    QuietThread(s, step);
    var t := Apply(s, step);
    forall i | i in t.readers ensures ReaderInv(t, volume, i) {
      assert ReaderInv(s, volume, i);
    }
  }

  lemma EndDrainInv(s: State, volume: File)
    requires Inv(s, volume) && Enabled(s, EndDrain)
    ensures Inv(Apply(s, EndDrain), volume)
  {
    var request := s.accepted[s.thread.index];
    assert Stored(s.volume, request, 0) == s.volume by {
      if request.operation.WriteBytes? && InBounds(|s.volume|, request.operation) {
        var o := request.operation.offset;
        assert s.volume[..o] + request.operation.bytes[..0] + s.volume[o + 0..] == s.volume;
      }
    }
  }

  lemma StoredMore(volume: File, request: Request, k: nat)
    requires request.operation.WriteBytes? && InBounds(|volume|, request.operation) && k < Goal(volume, request)
    ensures Stored(volume, request, k)[request.operation.offset + k := request.operation.bytes[k]]
            == Stored(volume, request, k + 1)
  {
  }

  lemma StoreByteInv(s: State, volume: File)
    requires Inv(s, volume) && Enabled(s, StoreByte)
    ensures Inv(Apply(s, StoreByte), volume)
  {
    hide Stored, GoalWith, Seen, FifoCall, VolumeAt, LogFifo, LogComplete;
    var Working(i, fault, k) := s.thread;
    var t := Apply(s, StoreByte);
    StoredMore(VolumeAt(volume, s.accepted[..i]), s.accepted[i], k);
    LogSame(s, t);
    LogFifoSame(s, t, volume);
  }

  lemma {:induction false} LogAppend(log: seq<Call>, call: Call)
    ensures forall i :: Logged(log + [call], i) <==> Logged(log, i) || i == call.index
  {
    forall i ensures Logged(log + [call], i) <==> Logged(log, i) || i == call.index {
      if Logged(log, i) {
        var k :| 0 <= k < |log| && log[k].index == i;
        assert (log + [call])[k].index == i;
      }
      if i == call.index {
        assert (log + [call])[|log|].index == i;
      }
    }
  }

  lemma LogFifoAppend(s: State, t: State, volume: File, i: nat)
    requires LogFifo(s, volume) && t.accepted == s.accepted && i < |s.accepted| && !Logged(s.log, i)
    requires t.log == s.log + [FifoCall(volume, s.accepted, i)]
    ensures LogFifo(t, volume)
  {
    forall k, l | 0 <= k < l < |t.log| ensures t.log[k].index != t.log[l].index {
      if l == |s.log| {
        assert !Logged(s.log, i);
      }
    }
  }

  lemma CompleteWorkInv(s: State, volume: File)
    requires Inv(s, volume) && Enabled(s, CompleteWork)
    ensures Inv(Apply(s, CompleteWork), volume)
  {
    hide LogFifo, LogComplete, VolumeAt, GoalWith, StatusWith;
    var t := Apply(s, CompleteWork);
    var i := s.thread.index;
    VolumeStep(volume, s.accepted, i);
    assert t.log == s.log + [FifoCall(volume, s.accepted, i)];
    CompleteWorkLog(s, t, i, FifoCall(volume, s.accepted, i));
    LogFifoAppend(s, t, volume, i);
  }

  lemma CompleteWorkLog(s: State, t: State, i: nat, call: Call)
    requires LogComplete(s) && s.readers == map[] == t.readers && call.index == i == Settled(s) && Settled(t) == i + 1
    requires t.log == s.log + [call]
    ensures LogComplete(t) && !Logged(s.log, i)
  {
    LogAppend(s.log, call);
  }

  /** What the log owes is unchanged when the readers and their callbacks are. */
  lemma LogSame(s: State, t: State)
    requires LogComplete(s) && t.log == s.log && Settled(t) == Settled(s) && t.readers.Keys == s.readers.Keys
    requires forall i | i in s.readers :: t.readers[i].Called? == s.readers[i].Called?
    ensures LogComplete(t)
  {
  }

  lemma SameKeys(a: map<nat, Reader>, i: nat, reader: Reader)
    requires i in a
    ensures a[i := reader].Keys == a.Keys && |a[i := reader]| == |a|
  {
    assert a[i := reader].Keys == a.Keys;
  }

  lemma AddKey(a: map<nat, Reader>, i: nat, reader: Reader)
    requires i !in a
    ensures a[i := reader].Keys == a.Keys + {i} && |a[i := reader]| == |a| + 1
  {
    assert a[i := reader].Keys == a.Keys + {i};
  }

  lemma DropKey(a: map<nat, Reader>, i: nat)
    requires i in a
    ensures (a - {i}).Keys == a.Keys - {i} && |a - {i}| == |a| - 1
  {
    assert (a - {i}).Keys == a.Keys - {i};
  }

  lemma TakePermitReaders(s: State, volume: File, inline: bool)
    requires ThreadInv(s) && ReadersInv(s, volume) && Enabled(s, TakePermit(inline))
    ensures s.thread.index !in s.readers
    ensures ThreadInv(Apply(s, TakePermit(inline))) && ReadersInv(Apply(s, TakePermit(inline)), volume)
  {
    hide Seen, VolumeAt, Goal, Stored;
    var t := Apply(s, TakePermit(inline));
    var i := s.thread.index;
    ReadsKeepVolume(volume, s.accepted, i);
    assert i in s.readers ==> ReaderInv(s, volume, i);
    forall j | j in t.readers ensures ReaderInv(t, volume, j) {
      if j != i {
        assert ReaderInv(s, volume, j);
      }
    }
  }

  lemma SeenNone(volume: File, request: Request)
    ensures Seen(volume, request, 0) == []
  {
  }

  lemma TakePermitLog(s: State, inline: bool)
    requires ThreadInv(s) && LogComplete(s) && Enabled(s, TakePermit(inline)) && s.thread.index !in s.readers
    ensures LogComplete(Apply(s, TakePermit(inline)))
  {
    var t := Apply(s, TakePermit(inline));
    assert !Logged(s.log, s.thread.index);
  }

  lemma TakePermitInv(s: State, volume: File, inline: bool)
    requires Inv(s, volume) && Enabled(s, TakePermit(inline))
    ensures Inv(Apply(s, TakePermit(inline)), volume)
  {
    hide LogFifo, LogComplete, ReadersInv, FifoCall, VolumeAt, Goal, Stored;
    var i := s.thread.index;
    ReadsKeepVolume(volume, s.accepted, i);
    TakePermitReaders(s, volume, inline);
    TakePermitLog(s, inline);
    AddKey(s.readers, i, Waiting);
    LogFifoSame(s, Apply(s, TakePermit(inline)), volume);
  }

  lemma LogFifoSame(s: State, t: State, volume: File)
    requires LogFifo(s, volume) && t.log == s.log && t.accepted == s.accepted
    ensures LogFifo(t, volume)
  {
  }

  /** A read finds the volume that sequential execution shows it. */
  lemma BeginReadReaders(s: State, volume: File, i: nat)
    requires ThreadInv(s) && VolumeInv(s, volume) && ReadersInv(s, volume) && Enabled(s, BeginRead(i))
    ensures ThreadInv(Apply(s, BeginRead(i))) && ReadersInv(Apply(s, BeginRead(i)), volume)
  {
    hide Seen, Stored, GoalWith;
    var t := Apply(s, BeginRead(i));
    assert ReaderInv(s, volume, i);
    assert !s.thread.Working?;
    SeenNone(s.volume, s.accepted[i]);
    forall j | j in t.readers ensures ReaderInv(t, volume, j) {
      assert ReaderInv(s, volume, j);
    }
  }

  lemma BeginReadInv(s: State, volume: File, i: nat)
    requires Inv(s, volume) && Enabled(s, BeginRead(i))
    ensures Inv(Apply(s, BeginRead(i)), volume)
  {
    hide LogFifo, LogComplete, ReadersInv, FifoCall, Seen, Stored, Goal, VolumeAt;
    var t := Apply(s, BeginRead(i));
    BeginReadReaders(s, volume, i);
    SameKeys(s.readers, i, t.readers[i]);
    LogSame(s, t);
    LogFifoSame(s, t, volume);
  }

  lemma SeenMore(volume: File, request: Request, k: nat)
    requires request.operation.Read? && InBounds(|volume|, request.operation) && k < Goal(volume, request)
    ensures Seen(volume, request, k + 1) == Seen(volume, request, k) + [volume[request.operation.offset + k]]
  {
  }

  lemma CopyReaders(s: State, volume: File, i: nat)
    requires ThreadInv(s) && VolumeInv(s, volume) && ReadersInv(s, volume) && Enabled(s, Copy(i))
    ensures ThreadInv(Apply(s, Copy(i))) && ReadersInv(Apply(s, Copy(i)), volume)
  {
    hide Seen, Stored, GoalWith, VolumeAt;
    var t := Apply(s, Copy(i));
    assert ReaderInv(s, volume, i);
    assert !s.thread.Working?;
    SeenMore(s.volume, s.accepted[i], |s.readers[i].data|);
    forall j | j in t.readers ensures ReaderInv(t, volume, j) {
      assert ReaderInv(s, volume, j);
    }
  }

  lemma CopyInv(s: State, volume: File, i: nat)
    requires Inv(s, volume) && Enabled(s, Copy(i))
    ensures Inv(Apply(s, Copy(i)), volume)
  {
    hide LogFifo, LogComplete, ReadersInv, FifoCall, Seen, Stored, Goal, VolumeAt;
    var t := Apply(s, Copy(i));
    CopyReaders(s, volume, i);
    SameKeys(s.readers, i, t.readers[i]);
    LogSame(s, t);
    LogFifoSame(s, t, volume);
  }

  lemma CompleteReadReaders(s: State, volume: File, i: nat)
    requires ThreadInv(s) && VolumeInv(s, volume) && ReadersInv(s, volume) && Enabled(s, CompleteRead(i))
    ensures ThreadInv(Apply(s, CompleteRead(i))) && ReadersInv(Apply(s, CompleteRead(i)), volume)
    ensures Apply(s, CompleteRead(i)).log == s.log + [FifoCall(volume, s.accepted, i)]
  {
    hide Seen, Stored, GoalWith, StatusWith;
    var t := Apply(s, CompleteRead(i));
    assert ReaderInv(s, volume, i);
    assert !s.thread.Working?;
    assert s.volume == VolumeAt(volume, s.accepted[..i]);
    forall j | j in t.readers ensures ReaderInv(t, volume, j) {
      assert ReaderInv(s, volume, j);
    }
  }

  lemma CompleteReadLog(s: State, t: State, i: nat, call: Call)
    requires LogComplete(s) && i in s.readers && i < Settled(s) && Settled(t) == Settled(s) && call.index == i
    requires t.log == s.log + [call] && t.readers == s.readers[i := Called]
    ensures LogComplete(t)
  {
    LogAppend(s.log, call);
  }

  lemma CompleteReadInv(s: State, volume: File, i: nat)
    requires Inv(s, volume) && Enabled(s, CompleteRead(i))
    ensures Inv(Apply(s, CompleteRead(i)), volume)
  {
    hide LogFifo, ReadersInv, Seen, Stored, Goal, VolumeAt;
    var t := Apply(s, CompleteRead(i));
    ReaderBelow(s, volume, i);
    CompleteReadReaders(s, volume, i);
    SameKeys(s.readers, i, t.readers[i]);
    CompleteReadLog(s, t, i, FifoCall(volume, s.accepted, i));
    LogFifoAppend(s, t, volume, i);
  }

  lemma ReaderBelow(s: State, volume: File, i: nat)
    requires ThreadInv(s) && ReadersInv(s, volume) && i in s.readers
    ensures i < Settled(s)
  {
    assert ReaderInv(s, volume, i);
  }

  lemma LeaveReadReaders(s: State, volume: File, i: nat)
    requires ThreadInv(s) && ReadersInv(s, volume) && Enabled(s, LeaveRead(i))
    ensures ThreadInv(Apply(s, LeaveRead(i))) && ReadersInv(Apply(s, LeaveRead(i)), volume)
  {
    hide Seen, VolumeAt, Goal;
    var t := Apply(s, LeaveRead(i));
    forall j | j in t.readers ensures ReaderInv(t, volume, j) {
      assert ReaderInv(s, volume, j);
    }
  }

  lemma LeaveReadLog(s: State, i: nat)
    requires LogComplete(s) && Enabled(s, LeaveRead(i))
    ensures LogComplete(Apply(s, LeaveRead(i)))
  {
  }

  lemma LeaveReadInv(s: State, volume: File, i: nat)
    requires Inv(s, volume) && Enabled(s, LeaveRead(i))
    ensures Inv(Apply(s, LeaveRead(i)), volume)
  {
    hide LogFifo, LogComplete, ReadersInv, Seen, Stored, Goal, VolumeAt;
    LeaveReadReaders(s, volume, i);
    LeaveReadLog(s, i);
    DropKey(s.readers, i);
    LogFifoSame(s, Apply(s, LeaveRead(i)), volume);
  }

  lemma NextInv(s: State, volume: File, step: Step)
    requires Inv(s, volume) && Enabled(s, step)
    ensures Inv(Apply(s, step), volume)
  {
    hide Inv, Apply;
    match step
    case Queue => QueueInv(s, volume);
    case TakePermit(inline) => TakePermitInv(s, volume, inline);
    case BeginRead(i) => BeginReadInv(s, volume, i);
    case Copy(i) => CopyInv(s, volume, i);
    case CompleteRead(i) => CompleteReadInv(s, volume, i);
    case LeaveRead(i) => LeaveReadInv(s, volume, i);
    case EndDrain => EndDrainInv(s, volume);
    case StoreByte => StoreByteInv(s, volume);
    case CompleteWork => CompleteWorkInv(s, volume);
    case _ => QuietInv(s, volume, step);
  }

  // ---------------------------------------------------------------------------------------------
  // What every run keeps
  // ---------------------------------------------------------------------------------------------

  lemma InitInv(s: State, volume: File)
    requires Init(s, volume)
    ensures Inv(s, volume)
  {
  }

  lemma {:induction false} RunInv(volume: File, run: seq<State>, schedule: seq<Step>, i: nat)
    requires IsRun(volume, run, schedule) && i < |run|
    ensures Inv(run[i], volume)
  {
    hide Inv, Apply, Enabled;
    if i == 0 {
      InitInv(run[0], volume);
    } else {
      RunInv(volume, run, schedule, i - 1);
      assert Moves(run[i - 1], schedule[i - 1], run[i - 1 + 1]);
      NextInv(run[i - 1], volume, schedule[i - 1]);
    }
  }

  /** Whatever the schedule, every callback carries the status and the bytes that executing the
      accepted requests one at a time in submit order gives that request, and no request has two.  What
      that status and those bytes are is `Answers`. */
  lemma RefinesFifo(volume: File, run: seq<State>, schedule: seq<Step>, i: nat)
    requires IsRun(volume, run, schedule) && i < |run|
    ensures forall k | 0 <= k < |run[i].log| ::
              run[i].log[k].index < |run[i].accepted| &&
              run[i].log[k] == FifoCall(volume, run[i].accepted, run[i].log[k].index)
    ensures forall k | 0 <= k < |run[i].log| :: Answered(volume, run[i].accepted, run[i].log[k])
    ensures forall k, l | 0 <= k < l < |run[i].log| :: run[i].log[k].index != run[i].log[l].index
    ensures |run[i].readers| <= 16
  {
    RunInv(volume, run, schedule, i);
    hide IsRun;
    forall k | 0 <= k < |run[i].log| ensures Answered(volume, run[i].accepted, run[i].log[k]) {
      FifoAnswers(volume, run[i].accepted, run[i].log[k].index);
    }
  }

  /** The callback answers what its request meets on the volume that the requests before it leave. */
  ghost predicate Answered(volume: File, requests: seq<Request>, call: Call) {
    && call.index < |requests|
    && var found := VolumeAt(volume, requests[..call.index]);
       Answers(found, requests[call.index].operation, requests[call.index].fault(found), call.status, call.data)
  }

  lemma FifoAnswers(volume: File, requests: seq<Request>, j: nat)
    requires j < |requests|
    ensures Answered(volume, requests, FifoCall(volume, requests, j))
  {
    hide VolumeAt;
  }

  lemma Then(volume: File, run: seq<State>, schedule: seq<Step>, step: Step) returns (longer: seq<State>, more: seq<Step>)
    requires IsRun(volume, run, schedule) && Enabled(run[|run| - 1], step)
    ensures IsRun(volume, longer, more) && longer[|longer| - 1] == Apply(run[|run| - 1], step)
  {
    hide Apply, Enabled;
    longer, more := run + [Apply(run[|run| - 1], step)], schedule + [step];
    forall i | 0 <= i < |more| ensures Moves(longer[i], more[i], longer[i + 1]) {
      assert i < |schedule| ==> Moves(run[i], schedule[i], run[i + 1]);
    }
  }

  /** Any requests can be submitted one after the other, and are then accepted in that order. */
  lemma {:induction false} SubmittedRun(volume: File, requests: seq<Request>) returns (run: seq<State>, schedule: seq<Step>)
    ensures IsRun(volume, run, schedule)
    ensures var s := run[|run| - 1]; s.accepted == requests && s.mutex.Free? && !s.stopping
    decreases |requests|
  {
    if requests == [] {
      run, schedule := [State(volume, [], 0, Free, Fetching, map[], MAX_CONCURRENT, false, Open, [])], [];
    } else {
      var n := |requests| - 1;
      run, schedule := SubmittedRun(volume, requests[..n]);
      hide IsRun;
      run, schedule := Then(volume, run, schedule, LockSubmit(requests[n]));
      run, schedule := Then(volume, run, schedule, Queue);
      run, schedule := Then(volume, run, schedule, SignalSubmit);
      run, schedule := Then(volume, run, schedule, UnlockSubmit);
      assert requests == requests[..n] + [requests[n]];
    }
  }

  // Which requests are accepted, told from the schedule alone.

  /** `close` has set its flag in one of the first `k` steps. */
  ghost predicate StopSet(schedule: seq<Step>, k: nat)
    requires k <= |schedule|
  {
    exists m :: 0 <= m < k && schedule[m].SetStop?
  }

  /** The request of the last `submit` to take the mutex in the first `k` steps. */
  ghost function LastSubmit(schedule: seq<Step>, k: nat): Option<Request>
    requires k <= |schedule|
  {
    if k == 0 then None
    else if schedule[k - 1].LockSubmit? then Some(schedule[k - 1].request)
    else LastSubmit(schedule, k - 1)
  }

  /** The requests of the calls that reached the queue before the flag was set, in order. */
  ghost function Submitted(schedule: seq<Step>, k: nat): seq<Option<Request>>
    requires k <= |schedule|
  {
    if k == 0 then []
    else Submitted(schedule, k - 1)
         + if schedule[k - 1].Queue? && !StopSet(schedule, k - 1) then [LastSubmit(schedule, k - 1)] else []
  }

  /** The requests accepted are those of the calls that reached the queue before the stop, each as it was
      submitted, in order. */
  lemma {:induction false} AcceptedAreSubmitted(volume: File, run: seq<State>, schedule: seq<Step>, i: nat)
    requires IsRun(volume, run, schedule) && i < |run|
    ensures |Submitted(schedule, i)| == |run[i].accepted|
    ensures forall n | 0 <= n < |run[i].accepted| :: Submitted(schedule, i)[n] == Some(run[i].accepted[n])
    ensures run[i].stopping <==> StopSet(schedule, i)
    ensures run[i].mutex.HeldBySubmitter? ==> LastSubmit(schedule, i) == Some(run[i].mutex.request)
  {
    hide Apply, Enabled;
    if i > 0 {
      AcceptedAreSubmitted(volume, run, schedule, i - 1);
      assert Moves(run[i - 1], schedule[i - 1], run[i - 1 + 1]);
      SubmitStep(run[i - 1], schedule[i - 1]);
      assert StopSet(schedule, i) <==> StopSet(schedule, i - 1) || schedule[i - 1].SetStop?;
    }
  }

  lemma SubmitStep(s: State, step: Step)
    requires Enabled(s, step)
    ensures step.Queue? ==> s.mutex.HeldBySubmitter?
    ensures var t := Apply(s, step);
            && t.accepted == (if step.Queue? && !s.stopping then s.accepted + [s.mutex.request] else s.accepted)
            && (t.stopping <==> s.stopping || step.SetStop?)
            && (t.mutex.HeldBySubmitter? ==>
                  if step.LockSubmit? then t.mutex.request == step.request
                  else s.mutex.HeldBySubmitter? && t.mutex.request == s.mutex.request)
  {
  }

  /** What a callback says, without reference to how it is computed.  `found` is the volume that the
      request finds, `fault` what the backend raises on it.  The status is 0 exactly for a reset, and for a
      read, write or flush in bounds that the backend does not fail; otherwise it is the negated error
      number.  A read delivers the bytes of `found`, all of them unless the backend fails it. */
  ghost predicate Answers(found: File, operation: Operation, fault: Option<Fault>, status: int, data: seq<Byte>) {
    match operation
    case Reset => status == 0 && data == []
    case Unknown => status == -5 && data == []
    case Flush => (status == 0 <==> fault.None?) && (fault.Some? ==> Reports(fault.value.error, status)) && data == []
    case WriteBytes(offset, bytes) =>
      && data == []
      && (offset + |bytes| > |found| ==> status == -34)
      && (offset + |bytes| <= |found| ==> (status == 0 <==> fault.None?) && (fault.Some? ==> Reports(fault.value.error, status)))
    case Read(offset, length) =>
      && (offset + length > |found| ==> status == -34 && data == [])
      && (offset + length <= |found| ==>
            && (status == 0 <==> fault.None?) && (fault.Some? ==> Reports(fault.value.error, status))
            && |data| == (if fault.None? || fault.value.after > length then length else fault.value.after)
            && forall j | 0 <= j < |data| :: data[j] == found[offset + j])
  }

  /** Every callback of every run answers what its request meets on the volume that the requests accepted
      before it leave. */
  lemma AnswersMean(volume: File, run: seq<State>, schedule: seq<Step>, i: nat, k: nat)
    requires IsRun(volume, run, schedule) && i < |run| && k < |run[i].log|
    ensures var call, requests := run[i].log[k], run[i].accepted;
            call.index < |requests| &&
            var found := VolumeAt(volume, requests[..call.index]);
            Answers(found, requests[call.index].operation, requests[call.index].fault(found), call.status, call.data)
  {
    RefinesFifo(volume, run, schedule, i);
    assert Answered(volume, run[i].accepted, run[i].log[k]);
  }

  /** The number each error is reported as. */
  ghost predicate Reports(error: BackendError, status: int) {
    && (error.OutOfMemory? ==> status == -12)
    && (error.OutOfBounds? ==> status == -34)
    && (error.ExtentNotMapped? ==> status == -28)
    && (error.PoolAuthorityChanged? ==> status == -116)
    && (error.MissingAuthority? || error.DataReadUnavailable? || error.DataWriteUnavailable? || error.DataMemberUnavailable? ==>
          status == -19)
    && (error.DataLeaseReleased? || error.DataLeaseMismatch? || error.WriteFrozen? ==> status == -9)
    && (error.InvalidProviderOperation? || error.OtherError? ==> status == -5)
  }

  /** What one more request leaves of the volume, byte by byte: a write in bounds stores its bytes at its
      place, all of them unless the backend fails it, and nothing else changes. */
  lemma VolumeGrowsByWrites(volume: File, requests: seq<Request>, n: nat)
    requires n < |requests|
    ensures VolumeAt(volume, []) == volume
    ensures var found, after := VolumeAt(volume, requests[..n]), VolumeAt(volume, requests[..n + 1]);
            var operation, fault := requests[n].operation, requests[n].fault(found);
            && |after| == |found| == |volume|
            && forall b | 0 <= b < |found| ::
                 after[b] == if operation.WriteBytes? && operation.offset + |operation.bytes| <= |found|
                                && operation.offset <= b < operation.offset + |operation.bytes|
                                && (fault.Some? ==> b < operation.offset + fault.value.after)
                             then operation.bytes[b - operation.offset] else found[b]
  {
    VolumeStep(volume, requests, n);
    hide VolumeAt;
  }

  /** A write, flush or reset runs alone: no read is in flight, and every earlier request has been
      answered. */
  lemma WritesRunAlone(volume: File, run: seq<State>, schedule: seq<Step>, i: nat)
    requires IsRun(volume, run, schedule) && i < |run| && run[i].thread.Working?
    ensures run[i].readers == map[]
    ensures forall j: nat | j < run[i].thread.index :: Logged(run[i].log, j)
  {
    RunInv(volume, run, schedule, i);
  }

  /** The worker never sleeps while a request is queued or a stop is set, unless the thread that
      queued or set it holds the mutex and has still to signal. */
  lemma NoLostWakeup(volume: File, run: seq<State>, schedule: seq<Step>, i: nat)
    requires IsRun(volume, run, schedule) && i < |run| && run[i].thread.Sleeping?
    ensures run[i].dequeued < |run[i].accepted| || run[i].stopping ==> SignalOwed(run[i])
  {
    RunInv(volume, run, schedule, i);
  }

  /** When `close` has joined the thread, every accepted request has had exactly one callback and
      the volume is what sequential execution leaves. */
  lemma CloseCompletesAll(volume: File, run: seq<State>, schedule: seq<Step>, i: nat)
    requires IsRun(volume, run, schedule) && i < |run| && run[i].closer.Joined?
    ensures forall j: nat | j < |run[i].accepted| :: Logged(run[i].log, j)
    ensures |run[i].log| == |run[i].accepted|
    ensures run[i].volume == VolumeAt(volume, run[i].accepted)
    ensures run[i].readers == map[] && run[i].permits == 16
  {
    RunInv(volume, run, schedule, i);
    JoinedAfterExit(volume, run, schedule, i);
    var s := run[i];
    assert s.accepted[..|s.accepted|] == s.accepted;
    LogLength(s.log, |s.accepted|);
  }

  lemma {:induction false} JoinedAfterExit(volume: File, run: seq<State>, schedule: seq<Step>, i: nat)
    requires IsRun(volume, run, schedule) && i < |run| && run[i].closer.Joined?
    ensures run[i].thread.Exited?
  {
    if i > 0 {
      assert Moves(run[i - 1], schedule[i - 1], run[i - 1 + 1]);
      if run[i - 1].closer.Joined? {
        JoinedAfterExit(volume, run, schedule, i - 1);
      }
    }
  }

  /** A log of distinct indices below `n` that has all of them has `n` entries. */
  lemma {:induction false} LogLength(log: seq<Call>, n: nat)
    requires forall k | 0 <= k < |log| :: log[k].index < n
    requires forall k, l | 0 <= k < l < |log| :: log[k].index != log[l].index
    requires forall i: nat | i < n :: Logged(log, i)
    ensures |log| == n
    decreases n
  {
    if n == 0 {
      assert |log| == 0;
    } else {
      assert Logged(log, n - 1);
      var k :| 0 <= k < |log| && log[k].index == n - 1;
      var rest := log[..k] + log[k + 1..];
      assert forall i | 0 <= i < |rest| :: rest[i] == log[if i < k then i else i + 1];
      forall i: nat | i < n - 1 ensures Logged(rest, i) {
        assert Logged(log, i);
        var l :| 0 <= l < |log| && log[l].index == i;
        assert rest[if l < k then l else l - 1].index == i;
      }
      LogLength(rest, n - 1);
    }
  }

  // ---------------------------------------------------------------------------------------------
  // Every run comes to an end
  // ---------------------------------------------------------------------------------------------

  // Every step but a new call of `submit` or `close` and a spurious wake-up makes the sum below smaller;
  // and where no other step is possible, everything is over.

  predicate Progress(step: Step) {
    !step.LockSubmit? && !step.LockClose? && !step.Spurious?
  }

  function SizeOf(operation: Operation): nat {
    match operation
    case Read(_, length) => length
    case WriteBytes(_, bytes) => |bytes|
    case _ => 0
  }

  function Less(a: nat, b: nat): nat {
    if a < b then b - a else 0
  }

  /** How much request `i` has still to do, while it is queued or a reader has it. */
  function Todo(s: State, i: nat): nat {
    if i >= |s.accepted| then 0
    else if i in s.readers then
      match s.readers[i]
      case Waiting => 10 + SizeOf(s.accepted[i].operation)
      case Reading(fault, data) => 5 + Less(|data|, GoalWith(|s.volume|, s.accepted[i].operation, fault))
      case Called => 2
    else if i >= s.dequeued then 30 + SizeOf(s.accepted[i].operation)
    else 0
  }

  function SizeAt(s: State, i: nat): nat {
    if i < |s.accepted| then SizeOf(s.accepted[i].operation) else 0
  }

  function ThreadRank(s: State): nat {
    match s.thread
    case Fetching => 5
    case Testing => 4
    case Sleeping => 1
    case Woken => 5
    case WantsPermit(i) => 17 + SizeAt(s, i)
    case Inline(_) => 6
    case Draining(i) => 12 + SizeAt(s, i)
    case Working(i, fault, stored) =>
      7 + if i < |s.accepted| then Less(stored, GoalWith(|s.volume|, s.accepted[i].operation, fault)) else 0
    case FinalDrain => 2
    case Exited => 0
  }

  function MutexRank(mutex: Mutex): nat {
    match mutex
    case HeldBySubmitter(request, stage) =>
      if stage.Entered? then 50 + SizeOf(request.operation) else if stage.Changed? then 10 else 1
    case HeldByCloser(stage) => if stage.Entered? then 12 else if stage.Changed? then 10 else 1
    case _ => 0
  }

  function CloserRank(closer: Closer): nat {
    match closer
    case Closing => 3
    case Joining => 2
    case _ => 0
  }

  ghost function Todos(s: State): nat -> nat {
    (i: nat) => Todo(s, i)
  }

  ghost function Measure(s: State, n: nat): nat {
    Total(Todos(s), n) + ThreadRank(s) + MutexRank(s.mutex) + CloserRank(s.closer)
  }

  /** All the requests there are, with one about to be queued. */
  ghost predicate Below(s: State, n: nat) {
    |s.accepted| + (if s.mutex.HeldBySubmitter? && s.mutex.stage.Entered? then 1 else 0) <= n
  }

  /** The one request whose part of the sum a step changes. */
  function Touched(s: State, step: Step): nat {
    match step
    case Queue => |s.accepted|
    case Test => s.dequeued
    case TakePermit(_) => if s.thread.WantsPermit? then s.thread.index else 0
    case BeginRead(i) => i
    case Copy(i) => i
    case CompleteRead(i) => i
    case LeaveRead(i) => i
    case _ => 0
  }

  /** The parts of the measure that are not in the sum. */
  function Rest(s: State): nat {
    ThreadRank(s) + MutexRank(s.mutex) + CloserRank(s.closer)
  }

  lemma GoalSmall(size: nat, operation: Operation, fault: Option<Fault>)
    ensures GoalWith(size, operation, fault) <= SizeOf(operation)
  {
  }

  predicate ByReader(step: Step) {
    step.BeginRead? || step.Copy? || step.CompleteRead? || step.LeaveRead?
  }

  predicate ByHolder(step: Step) {
    step.Queue? || step.SignalSubmit? || step.UnlockSubmit? || step.SetStop? || step.SignalClose? || step.UnlockClose? || step.EndJoin?
  }

  lemma ReaderPays(s: State, step: Step)
    requires Enabled(s, step) && ByReader(step) && (step.LeaveRead? ==> step.index < |s.accepted| && step.index < s.dequeued)
    ensures var t, p := Apply(s, step), step.index;
            && Rest(t) == Rest(s) && (forall q: nat | q != p :: Todo(t, q) == Todo(s, q)) && Todo(t, p) < Todo(s, p)
  {
    if step.BeginRead? {
      GoalSmall(|s.volume|, s.accepted[step.index].operation, s.accepted[step.index].fault(s.volume));
    }
  }

  lemma QueuePays(s: State)
    requires ThreadInv(s) && Enabled(s, Queue) && forall i | i in s.readers :: i < |s.accepted|
    ensures var t, p := Apply(s, Queue), |s.accepted|;
            && (forall q: nat | q != p :: Todo(t, q) == Todo(s, q)) && Todo(t, p) + Rest(t) < Todo(s, p) + Rest(s)
  {
    hide GoalWith;
  }

  lemma SignalPays(s: State, step: Step)
    requires ThreadInv(s) && Enabled(s, step) && ByHolder(step) && !step.Queue?
    ensures var t := Apply(s, step); (forall q: nat :: Todo(t, q) == Todo(s, q)) && Rest(t) < Rest(s)
  {
    hide GoalWith;
  }

  lemma HolderPays(s: State, step: Step)
    requires ThreadInv(s) && Enabled(s, step) && ByHolder(step) && forall i | i in s.readers :: i < |s.accepted|
    ensures var t, p := Apply(s, step), Touched(s, step);
            && (forall q: nat | q != p :: Todo(t, q) == Todo(s, q)) && Todo(t, p) + Rest(t) < Todo(s, p) + Rest(s)
  {
    hide Apply, Todo, Rest, ThreadInv, Enabled;
    if step.Queue? {
      QueuePays(s);
    } else {
      SignalPays(s, step);
    }
  }

  lemma ThreadPays(s: State, step: Step)
    requires ThreadInv(s) && Enabled(s, step) && Progress(step) && !ByReader(step) && !ByHolder(step)
    requires (step.Test? ==> s.dequeued !in s.readers) && (step.TakePermit? ==> s.thread.index !in s.readers)
    ensures var t, p := Apply(s, step), Touched(s, step);
            && (forall q: nat | q != p :: Todo(t, q) == Todo(s, q)) && Todo(t, p) + Rest(t) < Todo(s, p) + Rest(s)
  {
    hide GoalWith;
    if step.EndDrain? {
      var i := s.thread.index;
      GoalSmall(|s.volume|, s.accepted[i].operation, s.accepted[i].fault(s.volume));
    }
    if step.StoreByte? {
      GoalSmall(|s.volume|, s.accepted[s.thread.index].operation, s.thread.fault);
    }
  }

  /** Only one request's part changes, and what is gained elsewhere is less than what it loses. */
  lemma StepPays(s: State, step: Step)
    requires ThreadInv(s) && Enabled(s, step) && Progress(step) && forall i | i in s.readers :: i < Settled(s)
    ensures var t, p := Apply(s, step), Touched(s, step);
            && (forall q: nat | q != p :: Todo(t, q) == Todo(s, q)) && Todo(t, p) + Rest(t) < Todo(s, p) + Rest(s)
  {
    hide Apply, Todo, Rest;
    if ByReader(step) {
      ReaderPays(s, step);
    } else if ByHolder(step) {
      HolderPays(s, step);
    } else {
      ThreadPays(s, step);
    }
  }

  lemma StepDecreases(volume: File, s: State, step: Step, n: nat)
    requires Inv(s, volume) && Enabled(s, step) && Progress(step) && Below(s, n)
    ensures Below(Apply(s, step), n) && Measure(Apply(s, step), n) < Measure(s, n)
  {
    hide VolumeInv, LogFifo, LogComplete, Todo, ThreadRank, MutexRank;
    assert forall i | i in s.readers :: ReaderInv(s, volume, i);
    StepPays(s, step);
    TouchedBelow(s, step, n);
    TotalOne(Todos(s), Todos(Apply(s, step)), n, Touched(s, step));
  }

  lemma TouchedBelow(s: State, step: Step, n: nat)
    requires ThreadInv(s) && Enabled(s, step) && Progress(step) && Below(s, n)
    ensures Below(Apply(s, step), n)
    ensures Touched(s, step) < n || (Todo(s, Touched(s, step)) == 0 == Todo(Apply(s, step), Touched(s, step)))
  {
  }

  /** Without new calls and spurious wake-ups a run is at an end after as many steps as the measure says,
      however the threads are scheduled. */
  lemma {:induction false} FinishesWithin(volume: File, run: seq<State>, schedule: seq<Step>, i: nat, j: nat, n: nat)
    requires IsRun(volume, run, schedule) && i <= j < |run| && Below(run[i], n)
    requires forall k | i <= k < j :: Progress(schedule[k])
    ensures Below(run[j], n) && Measure(run[j], n) + (j - i) <= Measure(run[i], n)
    decreases j
  {
    hide Inv, Below, Measure, Apply, Enabled, Progress;
    if i < j {
      FinishesWithin(volume, run, schedule, i, j - 1, n);
      RunInv(volume, run, schedule, j - 1);
      assert Moves(run[j - 1], schedule[j - 1], run[j - 1 + 1]);
      StepDecreases(volume, run[j - 1], schedule[j - 1], n);
    }
  }

  /** And it cannot stop before: if no such step is possible, every accepted request has been answered, and
      `close` has returned if it was called; otherwise the worker sleeps. */
  lemma StuckOnlyWhenDone(volume: File, run: seq<State>, schedule: seq<Step>, i: nat)
    requires IsRun(volume, run, schedule) && i < |run|
    requires forall step | Progress(step) :: !Enabled(run[i], step)
    ensures forall j: nat | j < |run[i].accepted| :: Logged(run[i].log, j)
    ensures run[i].readers == map[] && run[i].mutex.Free?
    ensures if run[i].closer.Open? then run[i].thread.Sleeping? else run[i].closer.Joined? && run[i].thread.Exited?
  {
    RunInv(volume, run, schedule, i);
    var s := run[i];
    NoMutexLeft(s);
    forall j: nat ensures j !in s.readers {
      if j in s.readers {
        var step := ReaderCanStep(volume, s, j);
      }
    }
    if !s.thread.Sleeping? && !s.thread.Exited? {
      var step := ThreadCanStep(volume, s);
    }
    assert !Enabled(s, EndJoin);
  }

  lemma NoMutexLeft(s: State)
    requires ThreadInv(s) && forall step | Progress(step) :: !Enabled(s, step)
    ensures s.mutex.Free?
  {
    assert !Enabled(s, Queue) && !Enabled(s, SignalSubmit) && !Enabled(s, UnlockSubmit) && !Enabled(s, Test);
    assert !Enabled(s, SetStop) && !Enabled(s, SignalClose) && !Enabled(s, UnlockClose);
  }

  lemma ReaderCanStep(volume: File, s: State, j: nat) returns (step: Step)
    requires Inv(s, volume) && j in s.readers
    ensures Progress(step) && Enabled(s, step)
  {
    hide VolumeAt, Seen, Stored, LogFifo, LogComplete;
    assert ReaderInv(s, volume, j);
    match s.readers[j]
    case Waiting => step := BeginRead(j);
    case Reading(fault, data) =>
      step := if |data| < GoalWith(|s.volume|, s.accepted[j].operation, fault) then Copy(j) else CompleteRead(j);
    case Called => step := LeaveRead(j);
  }

  lemma ThreadCanStep(volume: File, s: State) returns (step: Step)
    requires Inv(s, volume) && s.readers == map[] && s.mutex.Free? && !s.thread.Sleeping? && !s.thread.Exited?
    ensures Progress(step) && Enabled(s, step)
  {
    hide VolumeAt, Seen, Stored, LogFifo, LogComplete, ReadersInv;
    match s.thread
    case Fetching => step := LockNext;
    case Testing => step := Test;
    case Woken => step := Retake;
    case WantsPermit(_) => step := TakePermit(false);
    case Inline(_) => step := EndInline;
    case Draining(_) => step := EndDrain;
    case Working(i, fault, stored) =>
      step := if stored < GoalWith(|s.volume|, s.accepted[i].operation, fault) then StoreByte else CompleteWork;
    case FinalDrain => step := EndFinalDrain;
  }
}
