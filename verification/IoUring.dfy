/** The io_uring engine: batched reads and writes, the vectored write and its fallback to scalar
    writes, and the single-request loops that finish short or interrupted requests.

    `Ring` stands for the ring of the standard library and the kernel behind it.  Its `script` holds
    the kernel's answers, one per question, in any number and of any kind; a run that asks more
    questions than the script answers meets a failed system call, so the runs over all scripts are
    all the runs that return.  An `obliging` ring grants everything instead from then on.  The ghost
    `events` are what the kernel has done so far, by which the failures are told.  The kernel is held to its contract only: a completion that names a
    pending request with an amount within its length reports that the first that many bytes were
    transferred.  Completions may come in any order, may be short, may fail, may name requests that
    do not exist or name one twice, and a request may disturb the rest of its own range before it
    reports less. */
module IoUring {
  import opened Wrappers
  import opened Bytes

  const QUEUE_ENTRIES: nat := 32
  const MAX_REQUEST_LEN: nat := U32_MAX

  datatype Errno =
    | ACCES | PERM | ROFS | BADF | DQUOT | FBIG | NOSPC | NODEV | NXIO
    | NOMEM | NOBUFS | AGAIN | CANCELED | INTR | INVAL | OPNOTSUPP | OtherErrno(code: nat)

  datatype Error =
    | InvalidReadBatch | RequestTooLarge | OffsetOverflow
    | IoUringFailed | SystemCall | IncompleteIoUringSubmission | InvalidIoUringCompletion
    | ReadOnlyFileSystem | FileClosed | NoSpaceLeft | DeviceUnavailable | SystemResources
    | OperationCanceled | OperationInterrupted | InvalidIo | IoUringCompletion
    | WritevNotSupported

  function CompletionError(e: Errno): Error {
    match e
    case ACCES => ReadOnlyFileSystem
    case PERM => ReadOnlyFileSystem
    case ROFS => ReadOnlyFileSystem
    case BADF => FileClosed
    case DQUOT => NoSpaceLeft
    case FBIG => NoSpaceLeft
    case NOSPC => NoSpaceLeft
    case NODEV => DeviceUnavailable
    case NXIO => DeviceUnavailable
    case NOMEM => SystemResources
    case NOBUFS => SystemResources
    case AGAIN => SystemResources
    case CANCELED => OperationCanceled
    case INTR => OperationInterrupted
    case INVAL => InvalidIo
    case _ => IoUringCompletion
  }

  // ---------------------------------------------------------------------------------------------
  // Requests, completions and what a completion does
  // ---------------------------------------------------------------------------------------------

  /** A read goes to part of a caller's buffer; a vectored write carries its parts joined. */
  datatype Op =
    | ReadOp(buffer: nat, start: nat, length: nat)
    | WriteOp(bytes: seq<Byte>, vectored: bool)

  datatype Sqe = Sqe(token: nat, op: Op, offset: nat)

  datatype Outcome = Amount(n: nat) | Failure(e: Errno)

  datatype Cqe = Cqe(token: nat, outcome: Outcome)

  type Buffers = seq<seq<Byte>>

  /** The kernel's answer to one question. */
  datatype Reply =
    | Interrupted
    | Refused
    | Accepted(amount: nat)
    | Finished(cqe: Cqe, landed: seq<Byte>)

  function Available(file: File, offset: nat): nat {
    if offset < |file| then |file| - offset else 0
  }

  /** A read reports at least one byte unless it is at the end of the file, and never more than the
      file holds; an amount beyond the request's length is passed on for the engine to reject. */
  function Reported(file: File, sqe: Sqe, outcome: Outcome): Outcome {
    if sqe.op.ReadOp? && outcome.Amount? && outcome.n <= sqe.op.length then
      var most := Min(sqe.op.length, Available(file, sqe.offset));
      Amount(if most == 0 then 0 else if outcome.n == 0 then 1 else Min(outcome.n, most))
    else
      outcome
  }

  /** The part of a request that its reported outcome vouches for. */
  function Transferred(outcome: Outcome, length: nat): (n: nat)
    ensures n <= length
  {
    if outcome.Amount? && outcome.n <= length then outcome.n else 0
  }

  /** What lands: the vouched-for prefix, then anything within the rest of the range. */
  function Landing(prefix: seq<Byte>, length: nat, landed: seq<Byte>): (r: seq<Byte>)
    requires |prefix| <= length
    ensures |r| <= length && prefix <= r
  {
    prefix + landed[..Min(|landed|, length - |prefix|)]
  }

  function FileAfter(file: File, sqe: Sqe, outcome: Outcome, landed: seq<Byte>): File {
    if sqe.op.WriteOp? then
      var n := Transferred(outcome, |sqe.op.bytes|);
      Apply(file, Write(Landing(sqe.op.bytes[..n], |sqe.op.bytes|, landed), sqe.offset))
    else
      file
  }

  function Splice(buffer: seq<Byte>, start: nat, bytes: seq<Byte>): (r: seq<Byte>)
    requires start + |bytes| <= |buffer|
    ensures |r| == |buffer|
    ensures r[..start] == buffer[..start] && r[start..start + |bytes|] == bytes
  {
    buffer[..start] + bytes + buffer[start + |bytes|..]
  }

  predicate Fits(buffers: Buffers, sqe: Sqe) {
    sqe.op.ReadOp? ==> sqe.op.buffer < |buffers| && sqe.op.start + sqe.op.length <= |buffers[sqe.op.buffer]|
  }

  function BuffersAfter(buffers: Buffers, file: File, sqe: Sqe, reported: Outcome, landed: seq<Byte>): Buffers {
    if sqe.op.ReadOp? && Fits(buffers, sqe) then
      var n := Min(Transferred(reported, sqe.op.length), Available(file, sqe.offset));
      var prefix := if n == 0 then [] else file[sqe.offset..sqe.offset + n];
      var b := sqe.op.buffer;
      buffers[b := Splice(buffers[b], sqe.op.start, Landing(prefix, sqe.op.length, landed))]
    else
      buffers
  }

  predicate SameShape(a: Buffers, b: Buffers) {
    |a| == |b| && forall i | 0 <= i < |a| :: |a[i]| == |b[i]|
  }

  /** Requests taken by the kernel, by token. */
  function Accept(pending: map<nat, Sqe>, sqes: seq<Sqe>): map<nat, Sqe>
    decreases |sqes|
  {
    if sqes == [] then pending else Accept(pending[sqes[0].token := sqes[0]], sqes[1..])
  }

  lemma {:induction false} AcceptConcat(pending: map<nat, Sqe>, a: seq<Sqe>, b: seq<Sqe>)
    ensures Accept(pending, a + b) == Accept(Accept(pending, a), b)
    decreases |a|
  {
    if a == [] {
      assert a + b == b;
    } else {
      assert (a + b)[1..] == a[1..] + b;
      AcceptConcat(pending[a[0].token := a[0]], a[1..], b);
    }
  }

  lemma AcceptNone(sqes: seq<Sqe>)
    ensures Accept(map[], sqes[..0]) == map[] && sqes[0..] == sqes
  {
    assert sqes[..0] == [];
  }

  /** The kernel takes the next `n` of the queue. */
  lemma AcceptMore(sqes: seq<Sqe>, taken: nat, n: nat)
    requires taken + n <= |sqes|
    ensures Accept(Accept(map[], sqes[..taken]), sqes[taken..][..n]) == Accept(map[], sqes[..taken + n])
    ensures sqes[taken..][n..] == sqes[taken + n..]
  {
    AcceptConcat(map[], sqes[..taken], sqes[taken..][..n]);
    assert sqes[..taken] + sqes[taken..][..n] == sqes[..taken + n];
  }

  ghost predicate DistinctTokens(sqes: seq<Sqe>) {
    forall i, j | 0 <= i < j < |sqes| :: sqes[i].token != sqes[j].token
  }

  lemma {:induction false} AcceptKeys(pending: map<nat, Sqe>, sqes: seq<Sqe>)
    requires DistinctTokens(sqes)
    ensures forall i | 0 <= i < |sqes| ::
              sqes[i].token in Accept(pending, sqes) && Accept(pending, sqes)[sqes[i].token] == sqes[i]
    ensures forall t | t in Accept(pending, sqes) :: t in pending || exists i :: 0 <= i < |sqes| && sqes[i].token == t
    ensures forall t | t in pending && (forall i | 0 <= i < |sqes| :: sqes[i].token != t) ::
              t in Accept(pending, sqes) && Accept(pending, sqes)[t] == pending[t]
    decreases |sqes|
  {
    if sqes != [] {
      var rest, next := sqes[1..], pending[sqes[0].token := sqes[0]];
      AcceptKeys(next, rest);
      assert forall i | 0 < i < |sqes| :: sqes[i] == rest[i - 1];
      forall t | t in Accept(pending, sqes)
        ensures t in pending || exists i :: 0 <= i < |sqes| && sqes[i].token == t
      {
        if t !in pending && t != sqes[0].token {
          assert t in Accept(next, rest) && t !in next;
          var i :| 0 <= i < |rest| && rest[i].token == t;
          assert sqes[i + 1].token == t;
        }
      }
    }
  }

  // ---------------------------------------------------------------------------------------------
  // What the kernel has answered
  // ---------------------------------------------------------------------------------------------

  /** An answer that matters to the engine: a failed system call, how many of the queued requests were
      taken, or a completion with the request in flight that it names, if there is one. */
  datatype Event =
    | Refusal
    | Took(amount: nat, asked: nat)
    | Completion(cqe: Cqe, request: Option<Sqe>)

  /** The kernel broke its side: it refused a call, took nothing or too much, or completed a request
      that is not in flight or with more than was asked for. */
  predicate Breaks(event: Event) {
    match event
    case Refusal => true
    case Took(amount, asked) => amount == 0 || amount > asked
    case Completion(cqe, request) =>
      request.None? || (cqe.outcome.Amount? && cqe.outcome.n > OpLength(request.value.op))
  }

  /** A write that was asked for some bytes wrote none. */
  predicate WroteNothing(event: Event) {
    && event.Completion? && event.cqe.outcome == Amount(0)
    && event.request.Some? && event.request.value.op.WriteOp? && event.request.value.op.bytes != []
  }

  predicate Fatal(event: Event) {
    Breaks(event) || WroteNothing(event)
  }

  /** What the engine answers when it gives up because of the event. */
  function Reason(event: Event): Error {
    match event
    case Refusal => SystemCall
    case Took(_, _) => IncompleteIoUringSubmission
    case Completion(_, _) => InvalidIoUringCompletion
  }

  /** The log has grown by an event for which the engine gives up with the error. */
  ghost predicate Gave(before: seq<Event>, after: seq<Event>, error: Error) {
    before <= after && exists k :: |before| <= k < |after| && Fatal(after[k]) && error == Reason(after[k])
  }

  /** The error with which a call has left the engine inactive, if it has. */
  function Ending<T>(active: bool, r: Result<T, Error>): Option<Error> {
    if !active && r.Err? then Some(r.error) else None
  }

  /** The log has grown; an engine that is still active has met no broken promise, one that has given up
      has met the reason. */
  ghost predicate Accounts(before: seq<Event>, after: seq<Event>, ending: Option<Error>) {
    && before <= after
    && (ending.None? ==> forall k | |before| <= k < |after| :: !Breaks(after[k]))
    && (ending.Some? ==> Gave(before, after, ending.value))
  }

  /** The error an errno is reported as. */
  ghost predicate Means(e: Errno, error: Error) {
    && (error.ReadOnlyFileSystem? <==> e.ACCES? || e.PERM? || e.ROFS?)
    && (error.FileClosed? <==> e.BADF?)
    && (error.NoSpaceLeft? <==> e.DQUOT? || e.FBIG? || e.NOSPC?)
    && (error.DeviceUnavailable? <==> e.NODEV? || e.NXIO?)
    && (error.SystemResources? <==> e.NOMEM? || e.NOBUFS? || e.AGAIN?)
    && (error.OperationCanceled? <==> e.CANCELED?)
    && (error.OperationInterrupted? <==> e.INTR?)
    && (error.InvalidIo? <==> e.INVAL?)
    && (error.IoUringCompletion? <==> e.OPNOTSUPP? || e.OtherErrno?)
  }

  lemma ErrorMeans(e: Errno)
    ensures Means(e, CompletionError(e))
  {
  }

  /** The buffer a request reads into; none for a write. */
  function TargetOf(op: Op): Option<nat> {
    if op.ReadOp? then Some(op.buffer) else None
  }

  predicate Vectored(op: Op) {
    op.WriteOp? && op.vectored
  }

  /** The kernel does not support vectored writes. */
  predicate Declines(event: Event) {
    && event.Completion? && event.cqe.outcome == Failure(OPNOTSUPP)
    && event.request.Some? && Vectored(event.request.value.op)
  }

  ghost predicate Declined(before: seq<Event>, after: seq<Event>) {
    before <= after && exists k :: |before| <= k < |after| && Declines(after[k])
  }

  lemma DeclinedMore(a: seq<Event>, b: seq<Event>, c: seq<Event>)
    requires a <= b && b <= c
    ensures Declined(a, c) <==> Declined(a, b) || Declined(b, c)
  {
    hide Declines;
    assert forall k | 0 <= k < |b| :: c[k] == b[k];
  }

  lemma DeclinedNone(log: seq<Event>)
    ensures !Declined(log, log)
  {
  }

  /** The log has grown only by requests taken. */
  ghost predicate OnlyTook(before: seq<Event>, after: seq<Event>) {
    before <= after && forall k | |before| <= k < |after| :: after[k].Took?
  }

  lemma OnlyTookMore(a: seq<Event>, b: seq<Event>, event: Event)
    requires OnlyTook(a, b) && event.Took?
    ensures OnlyTook(a, b + [event])
  {
  }

  lemma OnlyTookNone(log: seq<Event>)
    ensures OnlyTook(log, log)
  {
  }

  lemma TookNotDeclined(a: seq<Event>, b: seq<Event>)
    requires OnlyTook(a, b)
    ensures !Declined(a, b)
  {
  }

  /** The completion of a request with this target failed, not by an interrupt and not because vectored
      writes are not supported, with this error. */
  ghost predicate Fails(event: Event, error: Error, target: Option<nat>) {
    && event.Completion? && event.cqe.outcome.Failure? && !event.cqe.outcome.e.INTR? && Means(event.cqe.outcome.e, error)
    && event.request.Some? && TargetOf(event.request.value.op) == target && !Declines(event)
  }

  ghost predicate Blames(before: seq<Event>, after: seq<Event>, error: Error, target: Option<nat>) {
    before <= after && exists k :: |before| <= k < |after| && Fails(after[k], error, target)
  }

  lemma AccountsNone(log: seq<Event>)
    ensures Accounts(log, log, None)
  {
  }

  lemma AccountsOne(log: seq<Event>, event: Event)
    ensures !Breaks(event) ==> Accounts(log, log + [event], None)
    ensures Fatal(event) ==> Accounts(log, log + [event], Some(Reason(event)))
  {
    if Fatal(event) {
      assert Fatal((log + [event])[|log|]);
    }
  }

  lemma AccountsTrans(a: seq<Event>, b: seq<Event>, c: seq<Event>, ending: Option<Error>)
    requires Accounts(a, b, None) && Accounts(b, c, ending)
    ensures Accounts(a, c, ending)
  {
    assert forall k | 0 <= k < |b| :: c[k] == b[k];
  }

  lemma GaveMore(a: seq<Event>, b: seq<Event>, c: seq<Event>, error: Error)
    requires Gave(a, b, error) && b <= c
    ensures Accounts(a, c, Some(error))
  {
    assert forall k | 0 <= k < |b| :: c[k] == b[k];
  }

  /** After a fatal event the engine drains and gives up. */
  lemma FatalFails(a: seq<Event>, b: seq<Event>, event: Event, c: seq<Event>)
    requires Accounts(a, b, None) && Fatal(event) && b + [event] <= c
    ensures Accounts(a, c, Some(Reason(event)))
  {
    assert c[|b|] == (b + [event])[|b|] == event;
  }

  /** What the log says once a single request has reported an amount. */
  ghost predicate OneAmount(before: seq<Event>, after: seq<Event>, sqe: Sqe, n: nat) {
    && before <= after && !Declined(before, after)
    && (n <= OpLength(sqe.op) ==> Accounts(before, after, None))
    && (n > OpLength(sqe.op) || (n == 0 && sqe.op.WriteOp? && sqe.op.bytes != []) ==>
          Gave(before, after, InvalidIoUringCompletion))
  }

  lemma OneAmountMore(a: seq<Event>, b: seq<Event>, c: seq<Event>, sqe: Sqe, n: nat)
    requires Accounts(a, b, None) && OnlyTook(a, b) && OneAmount(b, c, sqe, n)
    ensures OneAmount(a, c, sqe, n)
  {
    hide Accounts, Gave, Declined;
    AccountsGrows(a, b, None);
    TookNotDeclined(a, b);
    DeclinedMore(a, b, c);
    if n <= OpLength(sqe.op) {
      AccountsTrans(a, b, c, None);
    }
    if Gave(b, c, InvalidIoUringCompletion) {
      GaveLater(a, b, c, c, InvalidIoUringCompletion);
      AccountsGave(a, c, InvalidIoUringCompletion);
    }
  }

  /** The completion of the only request in flight. */
  lemma CompletionCounts(log: seq<Event>, cqe: Cqe, sqe: Sqe)
    ensures var after := log + [Completion(cqe, Some(sqe))];
            match cqe.outcome
            case Amount(n) => OneAmount(log, after, sqe, n)
            case Failure(e) =>
              && Accounts(log, after, None)
              && (Declined(log, after) <==> e.OPNOTSUPP? && Vectored(sqe.op))
              && (!e.INTR? && !Declined(log, after) ==> Blames(log, after, CompletionError(e), TargetOf(sqe.op)))
  {
    hide Accounts, Gave, Blames;
    var event := Completion(cqe, Some(sqe));
    AccountsOne(log, event);
    if Fatal(event) {
      AccountsGave(log, log + [event], Reason(event));
    }
    if Declines(event) {
      assert Declines((log + [event])[|log|]);
    } else if cqe.outcome.Failure? && !cqe.outcome.e.INTR? {
      ErrorMeans(cqe.outcome.e);
      BlamesOne(log, event, CompletionError(cqe.outcome.e), TargetOf(sqe.op));
    }
  }

  lemma AccountsGave(a: seq<Event>, b: seq<Event>, error: Error)
    requires Accounts(a, b, Some(error))
    ensures Gave(a, b, error)
  {
  }

  lemma AccountsGrows(a: seq<Event>, b: seq<Event>, ending: Option<Error>)
    requires Accounts(a, b, ending)
    ensures a <= b
  {
  }

  lemma BlamesMore(a: seq<Event>, b: seq<Event>, c: seq<Event>, error: Error, target: Option<nat>)
    requires a <= b && b <= c
    ensures Blames(a, b, error, target) || Blames(b, c, error, target) ==> Blames(a, c, error, target)
  {
    hide Fails;
    assert forall k | 0 <= k < |b| :: c[k] == b[k];
  }

  lemma GaveLater(a: seq<Event>, b: seq<Event>, c: seq<Event>, d: seq<Event>, error: Error)
    requires Accounts(a, b, None) && Gave(b, c, error) && c <= d
    ensures Accounts(a, d, Some(error))
  {
    GaveMore(b, c, d, error);
    AccountsTrans(a, b, d, Some(error));
  }

  /** Blame is kept, and may be found later. */
  lemma BlamesKept(a: seq<Event>, b: seq<Event>, c: seq<Event>, ending: Option<Error>)
    requires Accounts(a, b, None) && Accounts(b, c, ending)
    ensures forall error, target | Blames(a, b, error, target) || Blames(b, c, error, target) :: Blames(a, c, error, target)
  {
    hide Blames;
    forall error, target | Blames(a, b, error, target) || Blames(b, c, error, target) ensures Blames(a, c, error, target) {
      BlamesMore(a, b, c, error, target);
    }
  }

  /** The log of a call, and after it the log of another. */
  lemma LogMore<T>(a: seq<Event>, b: seq<Event>, c: seq<Event>, active: bool, r: Result<T, Error>, target: Option<nat>)
    requires Accounts(a, b, None) && Accounts(b, c, Ending(active, r))
    ensures a <= c && Accounts(a, c, Ending(active, r))
    ensures r.Err? && Blames(b, c, r.error, target) ==> Blames(a, c, r.error, target)
  {
    AccountsTrans(a, b, c, Ending(active, r));
    if r.Err? {
      BlamesMore(a, b, c, r.error, target);
    }
  }

  lemma BlamesOne(log: seq<Event>, event: Event, error: Error, target: Option<nat>)
    requires Fails(event, error, target)
    ensures Blames(log, log + [event], error, target)
  {
    assert Fails((log + [event])[|log|], error, target);
  }

  // ---------------------------------------------------------------------------------------------
  // The ring
  // ---------------------------------------------------------------------------------------------

  function RequestFor(pending: map<nat, Sqe>, token: nat): Option<Sqe> {
    if token in pending then Some(pending[token]) else None
  }

  class Ring {
    /** Whether the kernel grants everything once the script is used up, or refuses everything. */
    const obliging: bool
    var file: File
    var buffers: Buffers
    var prepared: seq<Sqe>       // queued by the engine, not yet taken by the kernel
    var pending: map<nat, Sqe>   // taken by the kernel, not yet completed
    var script: seq<Reply>
    ghost var events: seq<Event>

    /** The kernel does from now on what it is asked, at once and in full. */
    ghost predicate Obliges()
      reads this
    {
      obliging && script == []
    }

    method Answer(granted: Reply) returns (reply: Reply)
      modifies `script
      ensures if old(script) == [] then reply == (if obliging then granted else Refused) && script == []
              else reply == old(script)[0] && script == old(script)[1..]
    {
      if script == [] {
        reply := if obliging then granted else Refused;
      } else {
        reply := script[0];
        script := script[1..];
      }
    }

    /** Fills a submission entry; refused when the queue is full. */
    method Queue(sqe: Sqe) returns (ok: bool)
      modifies `script, `prepared, `events
      ensures prepared == if ok then old(prepared) + [sqe] else old(prepared)
      ensures events == if ok then old(events) else old(events) + [Refusal]
      ensures |script| <= |old(script)| && (old(script) != [] ==> |script| < |old(script)|)
      ensures old(Obliges()) ==> ok
    {
      var reply := Answer(Accepted(1));
      ok := !reply.Refused?;
      if ok {
        prepared := prepared + [sqe];
      } else {
        events := events + [Refusal];
      }
    }

    /** Asks the kernel to take queued entries; with a polling kernel thread it takes all of them. */
    method Enter(all: bool) returns (reply: Reply)
      modifies `script, `prepared, `pending, `events
      ensures reply.Accepted? || reply.Interrupted? || reply.Refused?
      ensures !reply.Accepted? ==> prepared == old(prepared) && pending == old(pending)
      ensures reply.Accepted? ==>
                var n := if all then |old(prepared)| else Min(reply.amount, |old(prepared)|);
                prepared == old(prepared)[n..] && pending == Accept(old(pending), old(prepared)[..n])
      ensures events == if reply.Refused? then old(events) + [Refusal]
                        else if reply.Accepted? && !all then old(events) + [Took(reply.amount, |old(prepared)|)]
                        else old(events)
      ensures |script| <= |old(script)| && (old(script) != [] ==> |script| < |old(script)|)
      ensures reply.Interrupted? ==> old(script) != []
      ensures old(Obliges()) ==> reply == Accepted(|old(prepared)|)
    {
      reply := Answer(Accepted(|prepared|));
      if reply.Finished? || reply.Refused? {
        reply := Refused;
        events := events + [Refusal];
      } else if reply.Accepted? {
        if !all {
          events := events + [Took(reply.amount, |prepared|)];
        }
        var n := if all then |prepared| else Min(reply.amount, |prepared|);
        pending := Accept(pending, prepared[..n]);
        prepared := prepared[n..];
      }
    }

    /** Waits for one completion; what the request transferred is in place when it returns. */
    method CopyCqe() returns (reply: Reply)
      modifies `script, `pending, `file, `buffers, `events
      ensures events == if reply.Finished? then old(events) + [Completion(reply.cqe, RequestFor(old(pending), reply.cqe.token))]
                        else if reply.Refused? then old(events) + [Refusal]
                        else old(events)
      ensures reply.Finished? || reply.Interrupted? || reply.Refused?
      ensures reply.Finished? && reply.cqe.token in old(pending) ==>
                var sqe := old(pending)[reply.cqe.token];
                && reply.cqe.outcome == Reported(old(file), sqe, reply.cqe.outcome)
                && pending == old(pending) - {reply.cqe.token}
                && file == FileAfter(old(file), sqe, reply.cqe.outcome, reply.landed)
                && buffers == BuffersAfter(old(buffers), old(file), sqe, reply.cqe.outcome, reply.landed)
      ensures !(reply.Finished? && reply.cqe.token in old(pending)) ==>
                pending == old(pending) && file == old(file) && buffers == old(buffers)
      ensures |script| <= |old(script)| && (old(script) != [] ==> |script| < |old(script)|)
      ensures reply.Interrupted? || (reply.Finished? && reply.cqe.outcome.Failure?) ==> old(script) != []
      ensures old(Obliges()) && old(pending) != map[] ==>
                && reply.Finished? && reply.cqe.token in old(pending)
                && var sqe := old(pending)[reply.cqe.token]; reply.cqe.outcome == Reported(old(file), sqe, Amount(OpLength(sqe.op)))
    {
      var granted := Refused;
      if pending != map[] {
        var token :| token in pending;
        granted := Finished(Cqe(token, Amount(OpLength(pending[token].op))), []);
      }
      reply := Answer(granted);
      if reply.Finished? {
        var request := RequestFor(pending, reply.cqe.token);
        if request.Some? {
          var sqe := request.value;
          var reported := Reported(file, sqe, reply.cqe.outcome);
          reply := Finished(Cqe(reply.cqe.token, reported), reply.landed);
          pending := pending - {reply.cqe.token};
          buffers := BuffersAfter(buffers, file, sqe, reported, reply.landed);
          file := FileAfter(file, sqe, reported, reply.landed);
        }
        events := events + [Completion(reply.cqe, request)];
      } else if !reply.Interrupted? {
        reply := Refused;
        events := events + [Refusal];
      }
    }
  }

  // ---------------------------------------------------------------------------------------------
  // Pieces of writes in flight
  // ---------------------------------------------------------------------------------------------

  ghost predicate IsPiece(w: Write, piece: Write, d: nat) {
    piece.offset == w.offset + d && d + |piece.bytes| <= |w.bytes|
  }

  /** If the request is a write, it is part of one of the writes. */
  ghost predicate PieceOf(sqe: Sqe, writes: seq<Write>) {
    sqe.op.WriteOp? ==> exists i, d: nat :: 0 <= i < |writes| && IsPiece(writes[i], Write(sqe.op.bytes, sqe.offset), d)
  }

  ghost predicate Pieces(pending: map<nat, Sqe>, writes: seq<Write>) {
    forall t | t in pending :: PieceOf(pending[t], writes)
  }

  lemma {:induction false} AcceptPieces(pending: map<nat, Sqe>, sqes: seq<Sqe>, writes: seq<Write>)
    requires Pieces(pending, writes) && forall i | 0 <= i < |sqes| :: PieceOf(sqes[i], writes)
    ensures Pieces(Accept(pending, sqes), writes)
    decreases |sqes|
  {
    if sqes != [] {
      AcceptPieces(pending[sqes[0].token := sqes[0]], sqes[1..], writes);
    }
  }

  lemma AcceptPrefixPieces(sqes: seq<Sqe>, k: nat, writes: seq<Write>)
    requires k <= |sqes| && forall i | 0 <= i < |sqes| :: PieceOf(sqes[i], writes)
    ensures Pieces(Accept(map[], sqes[..k]), writes)
  {
    hide PieceOf;
    AcceptPieces(map[], sqes[..k], writes);
  }

  lemma FileAfterWithin(f0: File, file: File, writes: seq<Write>, sqe: Sqe, outcome: Outcome, landed: seq<Byte>)
    requires Within(f0, file, writes) && PieceOf(sqe, writes)
    ensures Within(f0, FileAfter(file, sqe, outcome, landed), writes)
  {
    if sqe.op.WriteOp? {
      var i, d: nat :| 0 <= i < |writes| && IsPiece(writes[i], Write(sqe.op.bytes, sqe.offset), d);
      var n := Transferred(outcome, |sqe.op.bytes|);
      PieceKeepsWithin(f0, file, writes, i, d, Write(Landing(sqe.op.bytes[..n], |sqe.op.bytes|, landed), sqe.offset));
    }
  }

  // ---------------------------------------------------------------------------------------------
  // The engine
  // ---------------------------------------------------------------------------------------------

  function NextTokenOf(token: nat): nat {
    if token == U64_MAX then 1 else token + 1
  }

  /** The requests whose answers one batch waits for. */
  class BatchTracker {
    var tokens: seq<nat>
    var lengths: seq<nat>
    var amounts: seq<nat>
    var errors: seq<Option<Error>>
    var seen: seq<bool>

    constructor (tokens: seq<nat>, lengths: seq<nat>)
      requires |tokens| == |lengths|
      ensures this.tokens == tokens && this.lengths == lengths
      ensures Valid()
      ensures forall i | 0 <= i < |tokens| :: !seen[i] && amounts[i] == 0 && errors[i] == None
    {
      this.tokens := tokens;
      this.lengths := lengths;
      amounts := seq(|tokens|, _ => 0);
      errors := seq(|tokens|, _ => None);
      seen := seq(|tokens|, _ => false);
    }

    predicate Valid()
      reads this
    {
      |tokens| == |lengths| == |amounts| == |errors| == |seen|
    }

    /** Files one completion under the first request with its token; refuses a token that no request
        has, one already filed, and an amount beyond the request's length. */
    method Record(completion: Cqe) returns (index: nat, ok: bool)
      requires Valid()
      modifies `amounts, `errors, `seen
      ensures Valid()
      ensures ok <==>
              exists i :: && 0 <= i < |tokens| && tokens[i] == completion.token && completion.token !in tokens[..i]
                          && !old(seen)[i] && (completion.outcome.Amount? ==> completion.outcome.n <= lengths[i])
      ensures ok ==>
                && index < |tokens| && tokens[index] == completion.token && !old(seen)[index]
                && seen == old(seen)[index := true]
                && match completion.outcome
                   case Failure(e) => amounts == old(amounts) && errors == old(errors)[index := Some(CompletionError(e))]
                   case Amount(n) =>
                     n <= lengths[index] && amounts == old(amounts)[index := n] && errors == old(errors)
    {
      index := 0;
      while index < |tokens| && tokens[index] != completion.token
        invariant index <= |tokens| && completion.token !in tokens[..index]
      {
        index := index + 1;
      }
      if index == |tokens| || seen[index] {
        return index, false;
      }
      seen := seen[index := true];
      match completion.outcome {
        case Failure(e) =>
          errors := errors[index := Some(CompletionError(e))];
        case Amount(n) =>
          if n > lengths[index] {
            return index, false;
          }
          amounts := amounts[index := n];
      }
      return index, true;
    }
  }

  // ---------------------------------------------------------------------------------------------
  // What a batch has done so far
  // ---------------------------------------------------------------------------------------------

  function OpLength(op: Op): nat {
    match op
    case ReadOp(_, _, length) => length
    case WriteOp(bytes, _) => |bytes|
  }

  /** The first `n` bytes of the request have reached their place. */
  ghost predicate ItemDone(sqe: Sqe, n: nat, file: File, buffers: Buffers) {
    match sqe.op
    case WriteOp(bytes, _) => Landed(file, Write(bytes, sqe.offset), n)
    case ReadOp(b, start, length) =>
      && n <= Min(length, Available(file, sqe.offset))
      && Fits(buffers, sqe)
      && (n > 0 ==> buffers[b][start..start + n] == file[sqe.offset..sqe.offset + n])
  }

  ghost predicate Unrelated(a: Sqe, b: Sqe) {
    || (a.op.WriteOp? && b.op.WriteOp? && !Overlap(Write(a.op.bytes, a.offset), Write(b.op.bytes, b.offset)))
    || (a.op.ReadOp? && b.op.ReadOp? && a.op.buffer != b.op.buffer)
  }

  ghost predicate Independent(sqes: seq<Sqe>) {
    forall i, j | 0 <= i < |sqes| && 0 <= j < |sqes| && i != j :: Unrelated(sqes[i], sqes[j])
  }

  ghost predicate AllFit(buffers: Buffers, sqes: seq<Sqe>) {
    forall i | 0 <= i < |sqes| :: Fits(buffers, sqes[i])
  }

  /** A completion does its own request... */
  lemma ItemLands(file: File, buffers: Buffers, sqe: Sqe, outcome: Outcome, landed: seq<Byte>)
    requires Fits(buffers, sqe) && outcome == Reported(file, sqe, outcome)
    requires outcome.Amount? ==> outcome.n <= OpLength(sqe.op)
    ensures ItemDone(sqe, Transferred(outcome, OpLength(sqe.op)), FileAfter(file, sqe, outcome, landed),
                     BuffersAfter(buffers, file, sqe, outcome, landed))
  {
    match sqe.op
    case WriteOp(bytes, _) =>
      var n := Transferred(outcome, |bytes|);
      var landing := Landing(bytes[..n], |bytes|, landed);
      assert landing[..n] == bytes[..n] == bytes[0..0 + n];
      PieceLands(file, Write(bytes, sqe.offset), 0, Write(landing, sqe.offset), n);
    case ReadOp(b, start, length) =>
      ReadLands(file, buffers[b], sqe.offset, start, length, Transferred(outcome, length), landed);
  }

  lemma ReadLands(file: File, buffer: seq<Byte>, offset: nat, start: nat, length: nat, n: nat, landed: seq<Byte>)
    requires start + length <= |buffer| && n <= length && n <= Available(file, offset)
    ensures n > 0 ==>
              Splice(buffer, start, Landing(file[offset..offset + n], length, landed))[start..start + n] == file[offset..offset + n]
  {
    if n > 0 {
      var prefix := file[offset..offset + n];
      var landing := Landing(prefix, length, landed);
      var after := Splice(buffer, start, landing);
      assert after[start..start + n] == after[start..start + |landing|][..n] == prefix;
    }
  }

  /** ... and leaves the unrelated ones alone. */
  lemma ItemSpared(file: File, buffers: Buffers, sqe: Sqe, outcome: Outcome, landed: seq<Byte>, other: Sqe, n: nat)
    requires Unrelated(other, sqe) && ItemDone(other, n, file, buffers)
    ensures ItemDone(other, n, FileAfter(file, sqe, outcome, landed), BuffersAfter(buffers, file, sqe, outcome, landed))
  {
    if sqe.op.WriteOp? {
      var k := Transferred(outcome, |sqe.op.bytes|);
      var landing := Landing(sqe.op.bytes[..k], |sqe.op.bytes|, landed);
      PieceSpares(file, Write(other.op.bytes, other.offset), n, Write(sqe.op.bytes, sqe.offset), 0, Write(landing, sqe.offset));
    }
  }

  ghost predicate Targets(sqes: seq<Sqe>, b: nat) {
    exists i :: 0 <= i < |sqes| && sqes[i].op.ReadOp? && sqes[i].op.buffer == b
  }

  /** No buffer changed but those the requests read into. */
  ghost predicate Spares(before: Buffers, after: Buffers, sqes: seq<Sqe>) {
    |before| == |after| && forall b: nat | b < |before| && !Targets(sqes, b) :: before[b] == after[b]
  }

  lemma SparesOne(file: File, buffers: Buffers, sqes: seq<Sqe>, i: nat, outcome: Outcome, landed: seq<Byte>)
    requires i < |sqes|
    ensures Spares(buffers, BuffersAfter(buffers, file, sqes[i], outcome, landed), sqes)
  {
    assert sqes[i].op.ReadOp? ==> Targets(sqes, sqes[i].op.buffer);
  }

  lemma SparesRefl(a: Buffers, sqes: seq<Sqe>)
    ensures Spares(a, a, sqes)
  {
  }

  lemma SparesTrans(a: Buffers, b: Buffers, c: Buffers, sqes: seq<Sqe>)
    requires Spares(a, b, sqes) && Spares(b, c, sqes)
    ensures Spares(a, c, sqes)
  {
  }

  /** Whichever way a request fails, it vouches for nothing. */
  lemma FailureAlike(file: File, buffers: Buffers, sqe: Sqe, e: Errno, landed: seq<Byte>)
    ensures FileAfter(file, sqe, Failure(e), landed) == FileAfter(file, sqe, Failure(INTR), landed)
    ensures BuffersAfter(buffers, file, sqe, Failure(e), landed) == BuffersAfter(buffers, file, sqe, Failure(INTR), landed)
  {
  }

  lemma ShapeKept(file: File, buffers: Buffers, sqe: Sqe, outcome: Outcome, landed: seq<Byte>)
    ensures SameShape(buffers, BuffersAfter(buffers, file, sqe, outcome, landed))
  {
  }

  /** The kernel's side of a batch and the tracker's record of it. */
  datatype Progress = Progress(
    pending: map<nat, Sqe>, file: File, buffers: Buffers,
    amounts: seq<nat>, errors: seq<Option<Error>>, seen: seq<bool>)
  {
    /** One completion for request `index`, filed. */
    ghost function Filed(sqe: Sqe, index: nat, outcome: Outcome, landed: seq<Byte>): Progress
      requires index < |amounts| == |errors| == |seen|
    {
      Progress(pending - {sqe.token},
               FileAfter(file, sqe, outcome, landed),
               BuffersAfter(buffers, file, sqe, outcome, landed),
               if outcome.Amount? then amounts[index := outcome.n] else amounts,
               if outcome.Failure? then errors[index := Some(CompletionError(outcome.e))] else errors,
               seen[index := true])
    }
  }

  /** Exactly the requests not yet filed are pending, and what is filed has been done. */
  ghost predicate Tracks(sqes: seq<Sqe>, p: Progress) {
    && |sqes| == |p.amounts| == |p.errors| == |p.seen|
    && AllFit(p.buffers, sqes)
    && PendingUnseen(sqes, p)
    && (forall i | 0 <= i < |sqes| :: p.amounts[i] <= OpLength(sqes[i].op))
    && (forall i | 0 <= i < |sqes| && p.errors[i].Some? :: p.amounts[i] == 0)
    && (forall i | 0 <= i < |sqes| && !p.seen[i] :: p.amounts[i] == 0 && p.errors[i].None?)
    && (Independent(sqes) ==> DoneSeen(sqes, p))
  }

  ghost predicate PendingUnseen(sqes: seq<Sqe>, p: Progress)
    requires |sqes| == |p.seen|
  {
    && (forall i | 0 <= i < |sqes| :: sqes[i].token in p.pending <==> !p.seen[i])
    && (forall i | 0 <= i < |sqes| && !p.seen[i] :: p.pending[sqes[i].token] == sqes[i])
    && (forall t | t in p.pending :: exists i :: 0 <= i < |sqes| && sqes[i].token == t)
  }

  ghost predicate DoneSeen(sqes: seq<Sqe>, p: Progress)
    requires |sqes| == |p.amounts| == |p.seen|
  {
    forall i | 0 <= i < |sqes| && p.seen[i] :: ItemDone(sqes[i], p.amounts[i], p.file, p.buffers)
  }

  /** The completion answers the request, and the tracker holds its amount or its error. */
  ghost predicate IsAnswer(event: Event, sqe: Sqe, amount: nat, error: Option<Error>) {
    && event.Completion? && event.request == Some(sqe) && event.cqe.token == sqe.token
    && match event.cqe.outcome
       case Amount(n) => amount == n <= OpLength(sqe.op) && error.None?
       case Failure(e) => amount == 0 && error.Some? && Means(e, error.value)
  }

  /** The events since `before` are completions that answer the requests numbered `order`, none of them
      twice, each as the tracker has it. */
  ghost predicate Answers(sqes: seq<Sqe>, order: seq<nat>, before: seq<Event>, after: seq<Event>,
                          amounts: seq<nat>, errors: seq<Option<Error>>)
    requires |amounts| == |errors| == |sqes|
  {
    && before <= after && |after| == |before| + |order|
    && (forall k | 0 <= k < |order| ::
          order[k] < |sqes| && IsAnswer(after[|before| + k], sqes[order[k]], amounts[order[k]], errors[order[k]]))
    && (forall k, l | 0 <= k < l < |order| :: order[k] != order[l])
  }

  lemma AnswersNone(sqes: seq<Sqe>, log: seq<Event>, amounts: seq<nat>, errors: seq<Option<Error>>)
    requires |amounts| == |errors| == |sqes|
    ensures Answers(sqes, [], log, log, amounts, errors)
  {
  }

  lemma AnswersMore(sqes: seq<Sqe>, order: seq<nat>, before: seq<Event>, log: seq<Event>, later: seq<Event>,
                    amounts: seq<nat>, errors: seq<Option<Error>>, index: nat, amount: nat, error: Option<Error>)
    requires |amounts| == |errors| == |sqes| && Answers(sqes, order, before, log, amounts, errors)
    requires index < |sqes| && index !in order
    requires |later| == |log| + 1 && log <= later && IsAnswer(later[|log|], sqes[index], amount, error)
    ensures Answers(sqes, order + [index], before, later, amounts[index := amount], errors[index := error])
  {
    hide IsAnswer;
    assert forall k | 0 <= k < |log| :: later[k] == log[k];
  }

  lemma AnswersAccount(sqes: seq<Sqe>, order: seq<nat>, before: seq<Event>, after: seq<Event>,
                       amounts: seq<nat>, errors: seq<Option<Error>>)
    requires |amounts| == |errors| == |sqes| && Answers(sqes, order, before, after, amounts, errors)
    ensures Accounts(before, after, None)
  {
    forall k | |before| <= k < |after| ensures !Breaks(after[k]) {
      var i := k - |before|;
      assert IsAnswer(after[|before| + i], sqes[order[i]], amounts[order[i]], errors[order[i]]);
    }
  }

  /** An error in the tracker, other than an interrupt, is the failure of its request. */
  lemma AnswersBlame(sqes: seq<Sqe>, order: seq<nat>, before: seq<Event>, after: seq<Event>,
                     amounts: seq<nat>, errors: seq<Option<Error>>, i: nat)
    requires |amounts| == |errors| == |sqes| && Answers(sqes, order, before, after, amounts, errors)
    requires i < |sqes| && i in order && errors[i].Some? && errors[i].value != OperationInterrupted && !Vectored(sqes[i].op)
    ensures Blames(before, after, errors[i].value, TargetOf(sqes[i].op))
  {
    var k :| 0 <= k < |order| && order[k] == i;
    assert IsAnswer(after[|before| + k], sqes[order[k]], amounts[order[k]], errors[order[k]]);
    assert Fails(after[|before| + k], errors[i].value, TargetOf(sqes[i].op));
  }

  lemma BatchBlames(requests: seq<Request>, sqes: seq<Sqe>, order: seq<nat>, a: seq<Event>, b: seq<Event>, c: seq<Event>,
                    amounts: seq<nat>, errors: seq<Option<Error>>)
    requires |amounts| == |errors| == |sqes| == |requests|
    requires forall i | 0 <= i < |sqes| :: sqes[i].op == requests[i].op && !Vectored(requests[i].op)
    requires Accounts(a, b, None) && Answers(sqes, order, b, c, amounts, errors) && forall i | 0 <= i < |sqes| :: i in order
    ensures Accounts(a, c, None)
    ensures forall i | 0 <= i < |requests| && errors[i].Some? && errors[i].value != OperationInterrupted ::
              Blames(a, c, errors[i].value, TargetOf(requests[i].op))
  {
    hide Accounts, Answers, Blames;
    AnswersAccount(sqes, order, b, c, amounts, errors);
    AccountsTrans(a, b, c, None);
    AccountsGrows(a, b, None);
    AccountsGrows(b, c, None);
    forall i | 0 <= i < |requests| && errors[i].Some? && errors[i].value != OperationInterrupted
      ensures Blames(a, c, errors[i].value, TargetOf(requests[i].op))
    {
      AnswersBlame(sqes, order, b, c, amounts, errors, i);
      BlamesMore(a, b, c, errors[i].value, TargetOf(requests[i].op));
    }
  }

  /** A completion that cannot be filed names no request in flight, or transferred too much. */
  lemma UnfiledBreaks(sqes: seq<Sqe>, p: Progress, cqe: Cqe)
    requires |sqes| == |p.seen| && DistinctTokens(sqes) && PendingUnseen(sqes, p)
    requires forall i | 0 <= i < |sqes| && sqes[i].token == cqe.token && !p.seen[i] ::
               cqe.outcome.Amount? && cqe.outcome.n > OpLength(sqes[i].op)
    ensures Breaks(Completion(cqe, RequestFor(p.pending, cqe.token)))
  {
    if cqe.token in p.pending {
      var i :| 0 <= i < |sqes| && sqes[i].token == cqe.token;
      assert sqes[i].token in p.pending;
    }
  }

  lemma TracksStart(sqes: seq<Sqe>, p: Progress)
    requires |sqes| == |p.amounts| == |p.errors| == |p.seen| && AllFit(p.buffers, sqes) && DistinctTokens(sqes)
    requires p.pending == Accept(map[], sqes)
    requires forall i | 0 <= i < |sqes| :: !p.seen[i] && p.amounts[i] == 0 && p.errors[i].None?
    ensures Tracks(sqes, p)
  {
    AcceptKeys(map[], sqes);
  }

  lemma TracksPending(sqes: seq<Sqe>, p: Progress, i: nat)
    requires Tracks(sqes, p) && i < |sqes| && !p.seen[i]
    ensures sqes[i].token in p.pending && p.pending[sqes[i].token] == sqes[i]
  {
  }

  /** A request granted in full reports no more than was asked. */
  lemma ReportedFits(file: File, sqe: Sqe)
    ensures var r := Reported(file, sqe, Amount(OpLength(sqe.op))); r.Amount? && r.n <= OpLength(sqe.op)
  {
  }

  lemma TracksUnseen(sqes: seq<Sqe>, p: Progress)
    requires Tracks(sqes, p)
    ensures |sqes| == |p.amounts| == |p.errors| == |p.seen| && PendingUnseen(sqes, p)
    ensures forall i | 0 <= i < |sqes| :: p.amounts[i] <= OpLength(sqes[i].op) && (p.errors[i].Some? ==> p.amounts[i] == 0)
    ensures forall i | 0 <= i < |sqes| && !p.seen[i] :: p.amounts[i] == 0 && p.errors[i].None?
  {
  }

  lemma TracksStep(sqes: seq<Sqe>, p: Progress, index: nat, outcome: Outcome, landed: seq<Byte>)
    requires DistinctTokens(sqes) && Tracks(sqes, p)
    requires index < |sqes| && !p.seen[index]
    requires outcome == Reported(p.file, sqes[index], outcome)
    requires outcome.Amount? ==> outcome.n <= OpLength(sqes[index].op)
    ensures Tracks(sqes, p.Filed(sqes[index], index, outcome, landed))
  {
    var q := p.Filed(sqes[index], index, outcome, landed);
    ShapeKept(p.file, p.buffers, sqes[index], outcome, landed);
    assert AllFit(q.buffers, sqes);
    assert PendingUnseen(sqes, q) by {
      PendingStep(sqes, p, index, outcome, landed);
    }
    if Independent(sqes) {
      DoneStep(sqes, p, index, outcome, landed);
    }
  }

  lemma DoneStep(sqes: seq<Sqe>, p: Progress, index: nat, outcome: Outcome, landed: seq<Byte>)
    requires |sqes| == |p.amounts| == |p.errors| == |p.seen| && Independent(sqes) && DoneSeen(sqes, p)
    requires index < |sqes| && p.amounts[index] == 0 && Fits(p.buffers, sqes[index])
    requires outcome == Reported(p.file, sqes[index], outcome)
    requires outcome.Amount? ==> outcome.n <= OpLength(sqes[index].op)
    ensures DoneSeen(sqes, p.Filed(sqes[index], index, outcome, landed))
  {
    var q := p.Filed(sqes[index], index, outcome, landed);
    forall i | 0 <= i < |sqes| && q.seen[i] ensures ItemDone(sqes[i], q.amounts[i], q.file, q.buffers) {
      if i == index {
        ItemLands(p.file, p.buffers, sqes[index], outcome, landed);
      } else {
        assert Unrelated(sqes[i], sqes[index]);
        ItemSpared(p.file, p.buffers, sqes[index], outcome, landed, sqes[i], p.amounts[i]);
      }
    }
  }

  lemma PendingStep(sqes: seq<Sqe>, p: Progress, index: nat, outcome: Outcome, landed: seq<Byte>)
    requires DistinctTokens(sqes) && |sqes| == |p.amounts| == |p.errors| == |p.seen| && PendingUnseen(sqes, p)
    requires index < |sqes|
    ensures PendingUnseen(sqes, p.Filed(sqes[index], index, outcome, landed))
  {
  }

  class Engine {
    const ring: Ring
    const sqPoll: bool
    var nextToken: nat
    var currentInflight: nat
    var active: bool
    var writevSupported: bool

    constructor (ring: Ring, sqPoll: bool, writevSupported: bool)
      requires ring.pending == map[] && ring.prepared == []
      ensures Valid() && active && this.ring == ring && this.writevSupported == writevSupported
    {
      this.ring := ring;
      this.sqPoll := sqPoll;
      this.nextToken := 1;
      this.currentInflight := 0;
      this.active := true;
      this.writevSupported := writevSupported;
    }

    /** Nothing is queued or in flight. */
    ghost predicate Idle()
      reads this, ring
    {
      currentInflight == 0 && ring.pending == map[] && ring.prepared == []
    }

    /** Between calls the engine is idle or has failed for good. */
    ghost predicate Valid()
      reads this, ring
    {
      1 <= nextToken <= U64_MAX && (active ==> Idle())
    }

    method NextToken() returns (token: nat)
      requires 1 <= nextToken <= U64_MAX
      modifies `nextToken
      ensures token == old(nextToken) && nextToken == NextTokenOf(token)
      ensures 1 <= nextToken <= U64_MAX
    {
      token := nextToken;
      nextToken := (nextToken + 1) % (U64_MAX + 1);
      if nextToken == 0 {
        nextToken := 1;
      }
    }

    method Fail()
      modifies `active
      ensures !active
    {
      active := false;
    }

    method CopyCompletion() returns (r: Result<Cqe, Error>, ghost landed: seq<Byte>)
      requires currentInflight > 0
      modifies ring`script, ring`pending, ring`file, ring`buffers, ring`events, `currentInflight
      ensures r.Ok? ==>
                && currentInflight == old(currentInflight) - 1
                && ring.events == old(ring.events) + [Completion(r.value, RequestFor(old(ring.pending), r.value.token))]
      ensures r.Err? ==> currentInflight == old(currentInflight) && r.error == SystemCall && ring.events == old(ring.events) + [Refusal]
      ensures r.Ok? && r.value.token in old(ring.pending) ==>
                var sqe := old(ring.pending)[r.value.token];
                && r.value.outcome == Reported(old(ring.file), sqe, r.value.outcome)
                && ring.pending == old(ring.pending) - {r.value.token}
                && ring.file == FileAfter(old(ring.file), sqe, r.value.outcome, landed)
                && ring.buffers == BuffersAfter(old(ring.buffers), old(ring.file), sqe, r.value.outcome, landed)
      ensures !(r.Ok? && r.value.token in old(ring.pending)) ==>
                ring.pending == old(ring.pending) && ring.file == old(ring.file) && ring.buffers == old(ring.buffers)
      ensures |ring.script| <= |old(ring.script)| && (r.Ok? && r.value.outcome.Failure? ==> |ring.script| < |old(ring.script)|)
      ensures old(ring.Obliges()) && old(ring.pending) != map[] ==>
                && ring.Obliges() && r.Ok? && r.value.token in old(ring.pending)
                && var sqe := old(ring.pending)[r.value.token];
                   r.value.outcome == Reported(old(ring.file), sqe, Amount(OpLength(sqe.op)))
    {
      landed := [];
      while true
        invariant currentInflight == old(currentInflight) && ring.events == old(ring.events)
        invariant old(ring.Obliges()) ==> ring.Obliges()
        invariant ring.pending == old(ring.pending) && ring.file == old(ring.file) && ring.buffers == old(ring.buffers)
        invariant |ring.script| <= |old(ring.script)|
        decreases |ring.script|
      {
        var reply := ring.CopyCqe();
        match reply
        case Interrupted =>
          continue;
        case Finished(cqe, extra) =>
          currentInflight := currentInflight - 1;
          return Ok(cqe), extra;
        case _ =>
          return Err(SystemCall), [];
      }
    }

    /** Waits for what is in flight, then gives the ring up. */
    method FailAfterDrain(ghost f0: File, ghost writes: seq<Write>)
      requires Within(f0, ring.file, writes) && Pieces(ring.pending, writes)
      modifies ring`script, ring`pending, ring`file, ring`buffers, ring`events, `currentInflight, `active
      ensures !active && old(ring.events) <= ring.events
      ensures Within(f0, ring.file, writes)
      ensures SameShape(old(ring.buffers), ring.buffers)
      ensures |ring.script| <= |old(ring.script)|
    {
      while currentInflight != 0
        invariant old(ring.events) <= ring.events
        invariant Within(f0, ring.file, writes) && Pieces(ring.pending, writes)
        invariant SameShape(old(ring.buffers), ring.buffers)
        invariant |ring.script| <= |old(ring.script)|
      {
        ghost var before, file := ring.pending, ring.file;
        var r, landed := CopyCompletion();
        if r.Err? {
          break;
        }
        if r.value.token in before {
          FileAfterWithin(f0, file, writes, before[r.value.token], r.value.outcome, landed);
        }
      }
      Fail();
    }

    /** Gets all `count` queued requests taken by the kernel, or fails. */
    method SubmitBatch(count: nat, ghost f0: File, ghost writes: seq<Write>) returns (r: Result<(), Error>)
      requires active && currentInflight == 0 && ring.pending == map[] && |ring.prepared| == count
      requires Within(f0, ring.file, writes)
      requires forall i | 0 <= i < count :: PieceOf(ring.prepared[i], writes)
      modifies ring, `currentInflight, `active
      ensures r.Ok? ==>
                && active && currentInflight == count
                && ring.prepared == [] && ring.pending == Accept(map[], old(ring.prepared))
                && ring.file == old(ring.file) && ring.buffers == old(ring.buffers)
      ensures r.Err? ==> !active && (r.error == SystemCall || r.error == IncompleteIoUringSubmission)
      ensures Accounts(old(ring.events), ring.events, Ending(active, r))
      ensures r.Ok? ==> OnlyTook(old(ring.events), ring.events)
      ensures old(ring.Obliges()) ==> ring.Obliges() && r.Ok?
      ensures Within(f0, ring.file, writes)
      ensures SameShape(old(ring.buffers), ring.buffers)
      ensures |ring.script| <= |old(ring.script)|
    {
      hide PieceOf, Within, SameShape, Accounts, OnlyTook, Accept;
      if sqPoll {
        r := SubmitPolled(count, f0, writes);
      } else {
        r := SubmitCounted(count, f0, writes);
      }
    }

    /** With a polling kernel thread all that is queued is taken at once. */
    method SubmitPolled(count: nat, ghost f0: File, ghost writes: seq<Write>) returns (r: Result<(), Error>)
      requires active && currentInflight == 0 && ring.pending == map[] && |ring.prepared| == count
      requires Within(f0, ring.file, writes)
      requires forall i | 0 <= i < count :: PieceOf(ring.prepared[i], writes)
      modifies ring, `currentInflight, `active
      ensures r.Ok? ==>
                && active && currentInflight == count
                && ring.prepared == [] && ring.pending == Accept(map[], old(ring.prepared))
                && ring.file == old(ring.file) && ring.buffers == old(ring.buffers)
      ensures r.Err? ==> !active && (r.error == SystemCall || r.error == IncompleteIoUringSubmission)
      ensures Accounts(old(ring.events), ring.events, Ending(active, r))
      ensures r.Ok? ==> OnlyTook(old(ring.events), ring.events)
      ensures old(ring.Obliges()) ==> ring.Obliges() && r.Ok?
      ensures Within(f0, ring.file, writes)
      ensures SameShape(old(ring.buffers), ring.buffers)
      ensures |ring.script| <= |old(ring.script)|
    {
      hide PieceOf, Pieces, Within, SameShape, Accounts, Gave, OnlyTook;
      OnlyTookNone(ring.events);
      ghost var sqes := ring.prepared;
      ShapeRefl(ring.buffers);
      AccountsNone(ring.events);
      AcceptPrefixPieces(sqes, 0, writes);
      assert sqes[..0] == [];
      while true
        invariant active && currentInflight == 0 && ring.pending == map[] && ring.prepared == sqes
        invariant ring.file == old(ring.file) && ring.buffers == old(ring.buffers) && ring.events == old(ring.events)
        invariant |ring.script| <= |old(ring.script)| && (old(ring.Obliges()) ==> ring.Obliges())
        decreases |ring.script|
      {
        var reply := ring.Enter(true);
        if reply.Interrupted? {
          continue;
        }
        if reply.Refused? {
          FailAfterDrain(f0, writes);
          FatalFails(old(ring.events), old(ring.events), Refusal, ring.events);
          return Err(SystemCall);
        }
        assert sqes[..|sqes|] == sqes;
        currentInflight := currentInflight + count;
        return Ok(());
      }
    }

    /** Without one the kernel says how many it took. */
    method SubmitCounted(count: nat, ghost f0: File, ghost writes: seq<Write>) returns (r: Result<(), Error>)
      requires active && currentInflight == 0 && ring.pending == map[] && |ring.prepared| == count
      requires Within(f0, ring.file, writes)
      requires forall i | 0 <= i < count :: PieceOf(ring.prepared[i], writes)
      modifies ring, `currentInflight, `active
      ensures r.Ok? ==>
                && active && currentInflight == count
                && ring.prepared == [] && ring.pending == Accept(map[], old(ring.prepared))
                && ring.file == old(ring.file) && ring.buffers == old(ring.buffers)
      ensures r.Err? ==> !active && (r.error == SystemCall || r.error == IncompleteIoUringSubmission)
      ensures Accounts(old(ring.events), ring.events, Ending(active, r))
      ensures r.Ok? ==> OnlyTook(old(ring.events), ring.events)
      ensures old(ring.Obliges()) ==> ring.Obliges() && r.Ok?
      ensures Within(f0, ring.file, writes)
      ensures SameShape(old(ring.buffers), ring.buffers)
      ensures |ring.script| <= |old(ring.script)|
    {
      hide PieceOf, Pieces, Within, SameShape, Accounts, Gave, OnlyTook, Accept;
      OnlyTookNone(ring.events);
      ghost var sqes := ring.prepared;
      var submitted := 0;
      ShapeRefl(ring.buffers);
      AccountsNone(ring.events);
      AcceptNone(sqes);
      while submitted < count
        invariant submitted <= count == |sqes|
        invariant active && currentInflight == submitted
        invariant ring.prepared == sqes[submitted..] && ring.pending == Accept(map[], sqes[..submitted])
        invariant ring.file == old(ring.file) && ring.buffers == old(ring.buffers)
        invariant |ring.script| <= |old(ring.script)| && (old(ring.Obliges()) ==> ring.Obliges())
        invariant Accounts(old(ring.events), ring.events, None) && OnlyTook(old(ring.events), ring.events)
        decreases |ring.script|, count - submitted
      {
        AcceptPrefixPieces(sqes, submitted, writes);
        ghost var left, log := count - submitted, ring.events;
        var reply := ring.Enter(false);
        if reply.Interrupted? {
          continue;
        }
        if reply.Refused? {
          FailAfterDrain(f0, writes);
          FatalFails(old(ring.events), log, Refusal, ring.events);
          return Err(SystemCall);
        }
        var amount := reply.amount;
        ghost var n := Min(amount, left);
        AcceptMore(sqes, submitted, n);
        if amount == 0 || amount > count - submitted {
          AcceptPrefixPieces(sqes, submitted + n, writes);
          FailAfterDrain(f0, writes);
          FatalFails(old(ring.events), log, Took(amount, left), ring.events);
          return Err(IncompleteIoUringSubmission);
        }
        OnlyTookMore(old(ring.events), log, Took(amount, left));
        AccountsOne(log, Took(amount, left));
        AccountsTrans(old(ring.events), log, ring.events, None);
        submitted := submitted + amount;
        currentInflight := currentInflight + amount;
      }
      assert sqes[..|sqes|] == sqes;
      return Ok(());
    }

    /** Waits for the only request in flight. */
    method Await(vectored: bool, ghost f0: File, ghost writes: seq<Write>, ghost sqe: Sqe, token: nat)
      returns (r: Result<nat, Error>, ghost landed: seq<Byte>)
      requires active && currentInflight == 1 && ring.pending == map[token := sqe] && ring.prepared == []
      requires Within(f0, ring.file, writes) && PieceOf(sqe, writes) && vectored == Vectored(sqe.op)
      modifies ring`script, ring`pending, ring`file, ring`buffers, ring`events, `currentInflight, `active
      ensures active ==> Idle()
      ensures r.Ok? ==>
                && active
                && Amount(r.value) == Reported(old(ring.file), sqe, Amount(r.value))
                && ring.file == FileAfter(old(ring.file), sqe, Amount(r.value), landed)
                && ring.buffers == BuffersAfter(old(ring.buffers), old(ring.file), sqe, Amount(r.value), landed)
      ensures r.Err? && active ==>
                && ring.file == FileAfter(old(ring.file), sqe, Failure(INTR), landed)
                && ring.buffers == BuffersAfter(old(ring.buffers), old(ring.file), sqe, Failure(INTR), landed)
      ensures r.Err? && !vectored ==> !r.error.WritevNotSupported?
      ensures r.Err? && (r.error.OperationInterrupted? || r.error.WritevNotSupported?) ==> active
      ensures Within(f0, ring.file, writes)
      ensures SameShape(old(ring.buffers), ring.buffers)
      ensures |ring.script| <= |old(ring.script)| && (r.Err? && active ==> |ring.script| < |old(ring.script)|)
      ensures r.Ok? ==> OneAmount(old(ring.events), ring.events, sqe, r.value)
      ensures r.Err? ==> Accounts(old(ring.events), ring.events, Ending(active, r))
      ensures r.Err? && active && !r.error.OperationInterrupted? && !r.error.WritevNotSupported? ==>
                Blames(old(ring.events), ring.events, r.error, TargetOf(sqe.op))
      ensures old(ring.Obliges()) ==>
                ring.Obliges() && r.Ok? && Amount(r.value) == Reported(old(ring.file), sqe, Amount(OpLength(sqe.op)))
      ensures r.Err? && active ==> (r.error.WritevNotSupported? <==> Declined(old(ring.events), ring.events))
    {
      hide Accounts, Gave, Blames, Declined, Within, SameShape, FileAfter, BuffersAfter, Reported, OneAmount, PieceOf;
      ghost var log, file, buffers := ring.events, ring.file, ring.buffers;
      assert Pieces(ring.pending, writes);
      AccountsNone(log);
      assert token in ring.pending;
      var completion, extra := CopyCompletion();
      landed := extra;
      if completion.Err? {
        FailAfterDrain(f0, writes);
        FatalFails(log, log, Refusal, ring.events);
        return Err(completion.error), [];
      }
      if completion.value.token != token {
        FailAfterDrain(f0, writes);
        FatalFails(log, log, Completion(completion.value, None), ring.events);
        return Err(InvalidIoUringCompletion), landed;
      }
      FileAfterWithin(f0, file, writes, sqe, completion.value.outcome, landed);
      ShapeKept(file, buffers, sqe, completion.value.outcome, landed);
      CompletionCounts(log, completion.value, sqe);
      match completion.value.outcome
      case Failure(e) =>
        FailureAlike(file, buffers, sqe, e, landed);
        if vectored && e.OPNOTSUPP? {
          return Err(WritevNotSupported), landed;
        }
        return Err(CompletionError(e)), landed;
      case Amount(n) =>
        return Ok(n), landed;
    }

    /** Submits the one queued request and waits for it: the amount it transferred, or why not.  An
        error that leaves the engine active is the request's own. */
    method Complete(vectored: bool, ghost f0: File, ghost writes: seq<Write>, ghost sqe: Sqe)
      returns (r: Result<nat, Error>, ghost landed: seq<Byte>)
      requires active && currentInflight == 0 && ring.pending == map[] && ring.prepared == [sqe]
      requires Within(f0, ring.file, writes) && PieceOf(sqe, writes) && vectored == Vectored(sqe.op)
      modifies ring, `currentInflight, `active
      ensures active ==> Idle()
      ensures r.Ok? ==>
                && active
                && Amount(r.value) == Reported(old(ring.file), sqe, Amount(r.value))
                && ring.file == FileAfter(old(ring.file), sqe, Amount(r.value), landed)
                && ring.buffers == BuffersAfter(old(ring.buffers), old(ring.file), sqe, Amount(r.value), landed)
      ensures r.Err? && active ==>
                && ring.file == FileAfter(old(ring.file), sqe, Failure(INTR), landed)
                && ring.buffers == BuffersAfter(old(ring.buffers), old(ring.file), sqe, Failure(INTR), landed)
      ensures r.Err? && !vectored ==> !r.error.WritevNotSupported?
      ensures r.Err? && (r.error.OperationInterrupted? || r.error.WritevNotSupported?) ==> active
      ensures Within(f0, ring.file, writes)
      ensures SameShape(old(ring.buffers), ring.buffers)
      ensures |ring.script| <= |old(ring.script)| && (r.Err? && active ==> |ring.script| < |old(ring.script)|)
      ensures r.Ok? ==> OneAmount(old(ring.events), ring.events, sqe, r.value)
      ensures r.Err? ==> Accounts(old(ring.events), ring.events, Ending(active, r))
      ensures r.Err? && active && !r.error.OperationInterrupted? && !r.error.WritevNotSupported? ==>
                Blames(old(ring.events), ring.events, r.error, TargetOf(sqe.op))
      ensures old(ring.Obliges()) ==>
                ring.Obliges() && r.Ok? && Amount(r.value) == Reported(old(ring.file), sqe, Amount(OpLength(sqe.op)))
      ensures r.Err? && active ==> (r.error.WritevNotSupported? <==> Declined(old(ring.events), ring.events))
    {
      hide Accounts, Gave, Blames, Declined, OnlyTook, Within, SameShape, FileAfter, BuffersAfter, Reported, OneAmount, PieceOf;
      landed := [];
      var token := ring.prepared[0].token;
      var submitted := SubmitBatch(1, f0, writes);
      if submitted.Err? {
        return Err(submitted.error), [];
      }
      ghost var log := ring.events;
      assert Accept(map[], [sqe]) == map[token := sqe] by {
        assert [sqe][1..] == [];
      }
      r, landed := Await(vectored, f0, writes, sqe, token);
      if r.Err? {
        LogMore(old(ring.events), log, ring.events, active, r, TargetOf(sqe.op));
        if active {
          TookNotDeclined(old(ring.events), log);
          AccountsGrows(old(ring.events), log, None);
          AccountsGrows(log, ring.events, None);
          DeclinedMore(old(ring.events), log, ring.events);
        }
      } else {
        OneAmountMore(old(ring.events), log, ring.events, sqe, r.value);
      }
    }

 
    ghost function Snapshot(tracker: BatchTracker): Progress
      reads this, ring, tracker
    {
      Progress(ring.pending, ring.file, ring.buffers, tracker.amounts, tracker.errors, tracker.seen)
    }

    /** Waits for one completion; a failed wait gives the ring up. */
    method CopyChecked(ghost f0: File, ghost writes: seq<Write>) returns (r: Result<Cqe, Error>, ghost landed: seq<Byte>)
      requires currentInflight > 0 && active
      requires Within(f0, ring.file, writes) && Pieces(ring.pending, writes)
      modifies ring`script, ring`pending, ring`file, ring`buffers, ring`events, `currentInflight, `active
      ensures r.Ok? ==>
                && active && currentInflight == old(currentInflight) - 1
                && ring.events == old(ring.events) + [Completion(r.value, RequestFor(old(ring.pending), r.value.token))]
      ensures r.Err? ==> Accounts(old(ring.events), ring.events, Some(r.error))
      ensures old(ring.Obliges()) && old(ring.pending) != map[] ==>
                && ring.Obliges() && r.Ok? && r.value.token in old(ring.pending)
                && var sqe := old(ring.pending)[r.value.token];
                   r.value.outcome == Reported(old(ring.file), sqe, Amount(OpLength(sqe.op)))
      ensures r.Ok? && r.value.token in old(ring.pending) ==>
                var sqe := old(ring.pending)[r.value.token];
                && r.value.outcome == Reported(old(ring.file), sqe, r.value.outcome)
                && ring.pending == old(ring.pending) - {r.value.token}
                && ring.file == FileAfter(old(ring.file), sqe, r.value.outcome, landed)
                && ring.buffers == BuffersAfter(old(ring.buffers), old(ring.file), sqe, r.value.outcome, landed)
      ensures r.Ok? ==> Pieces(ring.pending, writes)
      ensures r.Err? ==> !active
      ensures Within(f0, ring.file, writes)
      ensures SameShape(old(ring.buffers), ring.buffers)
      ensures |ring.script| <= |old(ring.script)|
    {
      ghost var pending, file, buffers := ring.pending, ring.file, ring.buffers;
      r, landed := CopyCompletion();
      if r.Err? {
        FailAfterDrain(f0, writes);
        AccountsNone(old(ring.events));
        FatalFails(old(ring.events), old(ring.events), Refusal, ring.events);
      } else if r.value.token in pending {
        FileAfterWithin(f0, file, writes, pending[r.value.token], r.value.outcome, landed);
        ShapeKept(file, buffers, pending[r.value.token], r.value.outcome, landed);
      }
    }

    /** One wait: the completion is filed under a request not filed before, or the engine fails. */
    method CollectOne(tracker: BatchTracker, ghost sqes: seq<Sqe>, ghost f0: File, ghost writes: seq<Write>)
      returns (r: Result<(), Error>, ghost index: nat)
      requires tracker.Valid() && |sqes| == |tracker.tokens| && currentInflight > 0 && active
      requires DistinctTokens(sqes) && Tracks(sqes, Snapshot(tracker))
      requires forall i | 0 <= i < |sqes| ::
                 tracker.tokens[i] == sqes[i].token && tracker.lengths[i] == OpLength(sqes[i].op)
      requires Within(f0, ring.file, writes) && Pieces(ring.pending, writes)
      modifies ring`script, ring`pending, ring`file, ring`buffers, ring`events, `currentInflight, `active
      modifies tracker`amounts, tracker`errors, tracker`seen
      ensures tracker.Valid()
      ensures r.Ok? ==>
                && active && currentInflight == old(currentInflight) - 1
                && index < |sqes| && !old(tracker.seen)[index] && tracker.seen == old(tracker.seen)[index := true]
                && |ring.events| == |old(ring.events)| + 1 && old(ring.events) <= ring.events
                && tracker.amounts == old(tracker.amounts)[index := tracker.amounts[index]]
                && tracker.errors == old(tracker.errors)[index := tracker.errors[index]]
                && IsAnswer(ring.events[|old(ring.events)|], sqes[index], tracker.amounts[index], tracker.errors[index])
                && Tracks(sqes, Snapshot(tracker)) && Pieces(ring.pending, writes)
                && Spares(old(ring.buffers), ring.buffers, sqes)
      ensures r.Err? ==> !active && Accounts(old(ring.events), ring.events, Some(r.error))
      ensures old(ring.Obliges()) && old(ring.pending) != map[] ==>
                ring.Obliges() && r.Ok? && tracker.errors[index].None?
      ensures Within(f0, ring.file, writes)
      ensures SameShape(old(ring.buffers), ring.buffers)
      ensures |ring.script| <= |old(ring.script)|
    {
      hide Tracks, Spares, Within, SameShape, Pieces, Accounts, PendingUnseen, FileAfter, BuffersAfter, Reported, CompletionError, Means, OpLength;
      ghost var before := Snapshot(tracker);
      TracksUnseen(sqes, before);
      index := 0;
      var completion, landed := CopyChecked(f0, writes);
      if completion.Err? {
        return Err(completion.error), 0;
      }
      if completion.value.token in before.pending {
        ReportedFits(before.file, before.pending[completion.value.token]);
      }
      var filed, ok := tracker.Record(completion.value);
      if !ok {
        ghost var buffers := ring.buffers;
        UnfiledBreaks(sqes, before, completion.value);
        FailAfterDrain(f0, writes);
        ShapeTrans(old(ring.buffers), buffers, ring.buffers);
        AccountsNone(old(ring.events));
        FatalFails(old(ring.events), old(ring.events), Completion(completion.value, RequestFor(before.pending, completion.value.token)), ring.events);
        return Err(InvalidIoUringCompletion), 0;
      }
      TracksPending(sqes, before, filed);
      if completion.value.outcome.Failure? {
        ErrorMeans(completion.value.outcome.e);
      }
      SparesOne(before.file, before.buffers, sqes, filed, completion.value.outcome, landed);
      TracksStep(sqes, before, filed, completion.value.outcome, landed);
      assert Snapshot(tracker) == before.Filed(sqes[filed], filed, completion.value.outcome, landed);
      return Ok(()), filed;
    }

    /** Waits for every request of a submitted batch.  On success the completions were a permutation
        of the batch, `order` being the request each answered, and each answer says what it did. */
    method CollectBatch(tracker: BatchTracker, ghost sqes: seq<Sqe>, ghost f0: File, ghost writes: seq<Write>)
      returns (r: Result<(), Error>, ghost order: seq<nat>)
      requires tracker.Valid() && |sqes| == |tracker.tokens| == currentInflight
      requires active && ring.prepared == [] && ring.pending == Accept(map[], sqes)
      requires DistinctTokens(sqes) && AllFit(ring.buffers, sqes)
      requires forall i | 0 <= i < |sqes| ::
                 && tracker.tokens[i] == sqes[i].token && tracker.lengths[i] == OpLength(sqes[i].op)
                 && !tracker.seen[i] && tracker.amounts[i] == 0 && tracker.errors[i] == None
      requires Within(f0, ring.file, writes) && forall i | 0 <= i < |sqes| :: PieceOf(sqes[i], writes)
      modifies ring`script, ring`pending, ring`file, ring`buffers, ring`events, `currentInflight, `active
      modifies tracker`amounts, tracker`errors, tracker`seen
      ensures tracker.Valid()
      ensures r.Ok? ==> active && Idle() && Tracks(sqes, Snapshot(tracker)) && Spares(old(ring.buffers), ring.buffers, sqes)
      ensures r.Ok? ==> forall i | 0 <= i < |sqes| :: tracker.seen[i]
      ensures r.Ok? ==> |order| == |sqes| && Answers(sqes, order, old(ring.events), ring.events, tracker.amounts, tracker.errors)
      ensures r.Ok? ==> forall i | 0 <= i < |sqes| :: i in order
      ensures r.Err? ==> !active && Accounts(old(ring.events), ring.events, Some(r.error))
      ensures old(ring.Obliges()) ==> ring.Obliges() && r.Ok? && forall i | 0 <= i < |sqes| :: tracker.errors[i].None?
      ensures Within(f0, ring.file, writes)
      ensures SameShape(old(ring.buffers), ring.buffers)
      ensures |ring.script| <= |old(ring.script)|
    {
      hide Answers, IsAnswer, Tracks, Spares, SameShape, Within, Pieces, PieceOf, Accept, Accounts;
      var waited := 0;
      order := [];
      AnswersNone(sqes, ring.events, tracker.amounts, tracker.errors);
      SparesRefl(ring.buffers, sqes);
      AcceptPieces(map[], sqes, writes);
      TracksStart(sqes, Snapshot(tracker));
      CountNone(tracker.seen);
      ShapeRefl(ring.buffers);
      while waited < |tracker.tokens|
        invariant waited <= |tracker.tokens| == |sqes| && tracker.Valid()
        invariant active && currentInflight == |sqes| - waited
        invariant Within(f0, ring.file, writes) && Pieces(ring.pending, writes)
        invariant SameShape(old(ring.buffers), ring.buffers)
        invariant |ring.script| <= |old(ring.script)|
        invariant Count(tracker.seen) == waited == |order|
        invariant Answers(sqes, order, old(ring.events), ring.events, tracker.amounts, tracker.errors)
        invariant forall i: nat | i < |sqes| :: i in order <==> tracker.seen[i]
        invariant old(ring.Obliges()) ==> ring.Obliges() && forall i | 0 <= i < |sqes| :: tracker.errors[i].None?
        invariant Tracks(sqes, Snapshot(tracker))
        invariant Spares(old(ring.buffers), ring.buffers, sqes)
      {
        ghost var seen, buffers, log := tracker.seen, ring.buffers, ring.events;
        ghost var amounts, errors := tracker.amounts, tracker.errors;
        UnseenPending(sqes, Snapshot(tracker));
        var one, index := CollectOne(tracker, sqes, f0, writes);
        ShapeTrans(old(ring.buffers), buffers, ring.buffers);
        if one.Err? {
          AnswersAccount(sqes, order, old(ring.events), log, amounts, errors);
          AccountsTrans(old(ring.events), log, ring.events, Some(one.error));
          return one, [];
        }
        CountSet(seen, index);
        AnswersMore(sqes, order, old(ring.events), log, ring.events, amounts, errors, index, tracker.amounts[index], tracker.errors[index]);
        order := order + [index];
        SparesTrans(old(ring.buffers), buffers, ring.buffers, sqes);
        waited := waited + 1;
      }
      CountAll(tracker.seen);
      TracksAll(sqes, Snapshot(tracker));
      return Ok(()), order;
    }

    // -------------------------------------------------------------------------------------------
    // Writes
    // -------------------------------------------------------------------------------------------

    /** Queues one request of an idle, active engine. */
    method Prepare(op: Op, offset: nat) returns (ok: bool, ghost sqe: Sqe)
      requires 1 <= nextToken <= U64_MAX && active
      modifies ring`script, ring`prepared, ring`events, `nextToken, `active
      ensures 1 <= nextToken <= U64_MAX
      ensures ok <==> active
      ensures ok ==>
                && sqe == Sqe(old(nextToken), op, offset) && nextToken == NextTokenOf(old(nextToken))
                && ring.prepared == old(ring.prepared) + [sqe] && ring.events == old(ring.events)
      ensures !ok ==> Accounts(old(ring.events), ring.events, Some(SystemCall))
      ensures |ring.script| <= |old(ring.script)|
      ensures old(ring.Obliges()) ==> ring.Obliges() && ok
    {
      var token := NextToken();
      sqe := Sqe(token, op, offset);
      ok := ring.Queue(Sqe(token, op, offset));
      if !ok {
        AccountsOne(old(ring.events), Refusal);
        Fail();
      }
    }

    /** One round of `WriteAllLocked`: how many more bytes it wrote; none when interrupted. */
    method WriteOnce(bytes: seq<Byte>, offset: nat, index: nat, ghost f0: File) returns (r: Result<nat, Error>)
      requires Valid() && index < |bytes|
      requires Within(f0, ring.file, [Write(bytes, offset)]) && Landed(ring.file, Write(bytes, offset), index)
      modifies ring, `nextToken, `currentInflight, `active
      ensures Valid()
      ensures r.Ok? ==> active && index + r.value <= |bytes| && Landed(ring.file, Write(bytes, offset), index + r.value)
      ensures |ring.script| <= |old(ring.script)| && (r == Ok(0) ==> |ring.script| < |old(ring.script)|)
      ensures Within(f0, ring.file, [Write(bytes, offset)])
      ensures SameShape(old(ring.buffers), ring.buffers)
      ensures !old(active) ==> unchanged(this, ring) && r == Err(IoUringFailed)
      ensures old(active) ==> Accounts(old(ring.events), ring.events, Ending(active, r))
      ensures r.Err? && active ==> Blames(old(ring.events), ring.events, r.error, None)
      ensures old(active && ring.Obliges()) ==> ring.Obliges() && r.Ok?
    {
      hide Accounts, Gave, Blames, Within, FileAfter, BuffersAfter;
      ShapeRefl(ring.buffers);
      if !active {
        return Err(IoUringFailed);
      }
      ghost var w := Write(bytes, offset);
      var length := Min(|bytes| - index, MAX_REQUEST_LEN);
      var part := bytes[index..index + length];
      var ok, sqe := Prepare(WriteOp(part, false), offset + index);
      if !ok {
        return Err(SystemCall);
      }
      ghost var file, buffers, log := ring.file, ring.buffers, ring.events;
      OwnPiece(w, sqe, index);
      var amount, landed := Complete(false, f0, [w], sqe);
      if amount.Err? {
        if amount.error.OperationInterrupted? {
          PieceOfWriteLands(file, w, index, sqe, Failure(INTR), landed);
          return Ok(0);
        }
        return Err(amount.error);
      }
      PieceOfWriteLands(file, w, index, sqe, Amount(amount.value), landed);
      if amount.value == 0 || amount.value > length {
        ghost var after, more := ring.buffers, ring.events;
        FailAfterDrain(f0, [w]);
        GaveMore(log, more, ring.events, InvalidIoUringCompletion);
        ShapeTrans(buffers, after, ring.buffers);
        return Err(InvalidIoUringCompletion);
      }
      return Ok(amount.value);
    }

    /** Writes all the bytes, however short or interrupted the single writes come back. */
    method WriteAllLocked(bytes: seq<Byte>, offset: nat) returns (r: Result<(), Error>)
      requires Valid()
      modifies ring, `nextToken, `currentInflight, `active
      ensures Valid()
      ensures r.Ok? ==> ring.file == Apply(old(ring.file), Write(bytes, offset)) && (old(active) ==> active)
      ensures Within(old(ring.file), ring.file, [Write(bytes, offset)])
      ensures SameShape(old(ring.buffers), ring.buffers)
      ensures !old(active) ==> unchanged(this, ring) && r == if bytes == [] then Ok(()) else Err(IoUringFailed)
      ensures old(active) ==> Accounts(old(ring.events), ring.events, Ending(active, r))
      ensures r.Err? && active ==> Blames(old(ring.events), ring.events, r.error, None)
      ensures old(active && ring.Obliges()) ==> ring.Obliges() && r.Ok?
    {
      hide Accounts, Blames;
      ghost var f0, w := ring.file, Write(bytes, offset);
      AccountsNone(ring.events);
      var index: nat := 0;
      WithinRefl(f0, [w]);
      ShapeRefl(ring.buffers);
      while index < |bytes|
        invariant index <= |bytes| && Valid() && (old(active) ==> active)
        invariant Within(f0, ring.file, [w]) && Landed(ring.file, w, index)
        invariant SameShape(old(ring.buffers), ring.buffers)
        invariant !old(active) ==> unchanged(this, ring) && index == 0
        invariant old(active) ==> Accounts(old(ring.events), ring.events, None)
        invariant old(active && ring.Obliges()) ==> ring.Obliges()
        decreases |ring.script|, |bytes| - index
      {
        ghost var buffers, log := ring.buffers, ring.events;
        var amount := WriteOnce(bytes, offset, index, f0);
        ShapeTrans(old(ring.buffers), buffers, ring.buffers);
        if old(active) {
          LogMore(old(ring.events), log, ring.events, active, amount, None);
        }
        if amount.Err? {
          return Err(amount.error);
        }
        index := index + amount.value;
      }
      OneLanded(f0, ring.file, w);
      return Ok(());
    }

    /** One vectored request for the iovecs from `first` on. */
    method WritevOnce(iovecs: array<seq<Byte>>, first: nat, offset: nat, ghost f0: File, ghost w: Write, ghost done: nat)
      returns (r: Result<nat, Error>)
      requires Valid() && first < iovecs.Length && forall i | first <= i < iovecs.Length :: iovecs[i] != []
      requires done <= |w.bytes| && Concat(iovecs[first..]) == w.bytes[done..] && offset == w.offset + done
      requires Within(f0, ring.file, [w]) && Landed(ring.file, w, done)
      modifies ring, `nextToken, `currentInflight, `active
      ensures Valid()
      ensures r.Ok? ==> active && 0 < r.value
      ensures r.Ok? && r.value <= |w.bytes| - done ==> Landed(ring.file, w, done + r.value)
      ensures r.Err? && (r.error.OperationInterrupted? || r.error.WritevNotSupported?) ==> active && Landed(ring.file, w, done)
      ensures |ring.script| <= |old(ring.script)| && (r.Err? && active ==> |ring.script| < |old(ring.script)|)
      ensures Within(f0, ring.file, [w])
      ensures SameShape(old(ring.buffers), ring.buffers)
      ensures !old(active) ==> unchanged(this, ring) && r == Err(IoUringFailed)
      ensures old(active) && r.Ok? && r.value <= |w.bytes| - done ==> Accounts(old(ring.events), ring.events, None)
      ensures old(active) && r.Ok? && r.value > |w.bytes| - done ==> Gave(old(ring.events), ring.events, InvalidIoUringCompletion)
      ensures old(active) && r.Err? ==> Accounts(old(ring.events), ring.events, Ending(active, r))
      ensures r.Err? && active && !r.error.OperationInterrupted? && !r.error.WritevNotSupported? ==>
                Blames(old(ring.events), ring.events, r.error, None)
      ensures old(active && ring.Obliges()) ==> ring.Obliges() && r.Ok? && r.value <= |w.bytes| - done
      ensures old(active) && active ==>
                old(ring.events) <= ring.events && (r == Err(WritevNotSupported) <==> Declined(old(ring.events), ring.events))
    {
      hide Accounts, Gave, Blames, Declined, Within, FileAfter, BuffersAfter;
      ShapeRefl(ring.buffers);
      if !active {
        return Err(IoUringFailed);
      }
      ConcatFrom(iovecs[..], first);
      assert iovecs[..][first..] == iovecs[first..];
      var joined := Concat(iovecs[first..]);
      var ok, sqe := Prepare(WriteOp(joined, true), offset);
      if !ok {
        return Err(SystemCall);
      }
      ghost var file, buffers, log := ring.file, ring.buffers, ring.events;
      OwnPiece(w, sqe, done);
      var amount, landed := Complete(true, f0, [w], sqe);
      if amount.Err? {
        if amount.error.OperationInterrupted? || amount.error.WritevNotSupported? {
          PieceOfWriteLands(file, w, done, sqe, Failure(INTR), landed);
        }
        AccountsGrows(log, ring.events, Ending(active, amount));
        return amount;
      }
      PieceOfWriteLands(file, w, done, sqe, Amount(amount.value), landed);
      if amount.value == 0 {
        ghost var after, more := ring.buffers, ring.events;
        FailAfterDrain(f0, [w]);
        GaveMore(log, more, ring.events, InvalidIoUringCompletion);
        ShapeTrans(buffers, after, ring.buffers);
        return Err(InvalidIoUringCompletion);
      }
      return amount;
    }

    /** The fallback once the kernel turns out not to support vectored writes: what is left of the
        iovecs, one by one. */
    method WriteScalars(iovecs: seq<seq<Byte>>, offset: nat, ghost f0: File, ghost w: Write, ghost done: nat)
      returns (r: Result<(), Error>)
      requires Valid() && active && w.End() <= U64_MAX
      requires done <= |w.bytes| && Concat(iovecs) == w.bytes[done..] && offset == w.offset + done
      requires Within(f0, ring.file, [w]) && Landed(ring.file, w, done)
      modifies ring, `nextToken, `currentInflight, `active
      ensures Valid()
      ensures r.Ok? ==> active && Landed(ring.file, w, |w.bytes|)
      ensures Within(f0, ring.file, [w])
      ensures SameShape(old(ring.buffers), ring.buffers)
      ensures Accounts(old(ring.events), ring.events, Ending(active, r))
      ensures r.Err? && active ==> Blames(old(ring.events), ring.events, r.error, None)
      ensures old(ring.Obliges()) ==> ring.Obliges() && r.Ok?
    {
      hide Within, Landed, SameShape, Apply, Accounts, Blames;
      AccountsNone(ring.events);
      var scalarOffset: nat := offset;
      var i: nat := 0;
      ghost var landed: nat := done;
      ShapeRefl(ring.buffers);
      while i < |iovecs|
        invariant i <= |iovecs| && Valid() && active
        invariant landed <= |w.bytes| && Concat(iovecs[i..]) == w.bytes[landed..] && scalarOffset == w.offset + landed
        invariant Within(f0, ring.file, [w]) && Landed(ring.file, w, landed)
        invariant SameShape(old(ring.buffers), ring.buffers)
        invariant Accounts(old(ring.events), ring.events, None) && (old(ring.Obliges()) ==> ring.Obliges())
      {
        ghost var file, buffers, log := ring.file, ring.buffers, ring.events;
        NextPiece(iovecs, i, w, landed);
        var one := WriteAllLocked(iovecs[i], scalarOffset);
        ShapeTrans(old(ring.buffers), buffers, ring.buffers);
        LogMore(old(ring.events), log, ring.events, active, one, None);
        WithinPiece(f0, file, ring.file, [w], 0, landed, Write(iovecs[i], scalarOffset));
        if one.Err? {
          return one;
        }
        PieceLands(file, w, landed, Write(iovecs[i], scalarOffset), |iovecs[i]|);
        landed := landed + |iovecs[i]|;
        scalarOffset := scalarOffset + |iovecs[i]|;  // at most the end of the batch: no overflow
        i := i + 1;
      }
      return Ok(());
    }

    /** The loop of `WriteAllVectoredLocked` over the iovecs of one joined write: resumes after short
        and interrupted requests, and goes on with scalar writes from the point where vectored ones
        stop being supported. */
    method WriteIovecs(iovecs: array<seq<Byte>>, start: nat, ghost w: Write) returns (r: Result<(), Error>)
      requires Valid() && iovecs.Length > 0 && forall i | 0 <= i < iovecs.Length :: iovecs[i] != []
      requires Concat(iovecs[..]) == w.bytes && w.offset == start && w.End() <= U64_MAX
      modifies ring, iovecs, `nextToken, `currentInflight, `active, `writevSupported
      ensures Valid()
      ensures r.Ok? ==> active && Landed(ring.file, w, |w.bytes|)
      ensures Within(old(ring.file), ring.file, [w])
      ensures SameShape(old(ring.buffers), ring.buffers)
      ensures !old(active) ==> unchanged(this, ring) && r == Err(IoUringFailed)
      ensures old(active) ==> Accounts(old(ring.events), ring.events, Ending(active, r))
      ensures r.Err? && active ==> Blames(old(ring.events), ring.events, r.error, None)
      ensures old(active && ring.Obliges()) ==> ring.Obliges() && r.Ok?
      ensures writevSupported ==> old(writevSupported)
      ensures old(writevSupported) && !writevSupported ==> Declined(old(ring.events), ring.events)
      ensures old(active) && active && writevSupported ==> !Declined(old(ring.events), ring.events)
    {
      hide Within, SameShape, Apply, Landed, Accounts, Gave, Blames, Declined, Concat;
      ConcatNone();
      DeclinedNone(ring.events);
      AccountsNone(ring.events);
      ghost var f0 := ring.file;
      var first: nat := 0;
      var offset: nat := start;
      ghost var done: nat := 0;
      WithinRefl(f0, [w]);
      ShapeRefl(ring.buffers);
      LandedNone(f0, w);
      assert iovecs[0..] == iovecs[..];
      while first < iovecs.Length
        invariant first <= iovecs.Length && Valid()
        invariant first > 0 ==> active
        invariant !old(active) ==> unchanged(this, ring) && first == 0
        invariant done <= |w.bytes| && Concat(iovecs[first..]) == w.bytes[done..] && offset == w.offset + done
        invariant Within(f0, ring.file, [w]) && Landed(ring.file, w, done)
        invariant SameShape(old(ring.buffers), ring.buffers)
        invariant old(active) ==> active && Accounts(old(ring.events), ring.events, None)
        invariant old(active && ring.Obliges()) ==> ring.Obliges()
        invariant writevSupported == old(writevSupported) && (old(active) ==> !Declined(old(ring.events), ring.events))
        invariant forall i | first <= i < iovecs.Length :: iovecs[i] != []
        decreases |ring.script|, |w.bytes| - done
      {
        ghost var buffers, log := ring.buffers, ring.events;
        var amount := WritevOnce(iovecs, first, offset, f0, w, done);
        ShapeTrans(old(ring.buffers), buffers, ring.buffers);
        buffers := ring.buffers;
        ghost var more := ring.events;
        if old(active) && active {
          AccountsGrows(old(ring.events), log, None);
          DeclinedMore(old(ring.events), log, more);
        }
        if amount.Err? {
          if old(active) {
            LogMore(old(ring.events), log, more, active, amount, None);
          }
          if amount.error.OperationInterrupted? {
            continue;
          }
          if amount.error.WritevNotSupported? {
            writevSupported := false;
            r := WriteScalars(iovecs[first..], offset, f0, w, done);
            ShapeTrans(old(ring.buffers), buffers, ring.buffers);
            LogMore(old(ring.events), more, ring.events, active, r, None);
            AccountsGrows(more, ring.events, Ending(active, r));
            DeclinedMore(old(ring.events), more, ring.events);
            return r;
          }
          return Err(amount.error);
        }
        if offset + amount.value > U64_MAX {
          FailAfterDrain(f0, [w]);
          ShapeTrans(old(ring.buffers), buffers, ring.buffers);
          GaveLater(old(ring.events), log, more, ring.events, InvalidIoUringCompletion);
          return Err(InvalidIoUringCompletion);
        }
        offset := offset + amount.value;
        var consumed;
        first, consumed := ConsumeIovecs(iovecs, first, amount.value);
        if !consumed {
          FailAfterDrain(f0, [w]);
          ShapeTrans(old(ring.buffers), buffers, ring.buffers);
          GaveLater(old(ring.events), log, more, ring.events, InvalidIoUringCompletion);
          return Err(InvalidIoUringCompletion);
        }
        AccountsTrans(old(ring.events), log, more, None);
        assert w.bytes[done..][amount.value..] == w.bytes[done + amount.value..];
        done := done + amount.value;
      }
      assert iovecs[first..] == [];
      return Ok(());
    }

    /** Writes a contiguous batch with vectored requests. */
    method WriteAllVectoredLocked(writes: seq<Write>) returns (r: Result<(), Error>)
      requires Valid() && ContiguousWrites(writes) && |writes| <= QUEUE_ENTRIES
      requires writes[|writes| - 1].End() <= U64_MAX
      modifies ring, `nextToken, `currentInflight, `active, `writevSupported
      ensures Valid()
      ensures r.Ok? ==> active && ring.file == ApplyAll(old(ring.file), writes)
      ensures Within(old(ring.file), ring.file, writes)
      ensures SameShape(old(ring.buffers), ring.buffers)
      ensures !old(active) ==> unchanged(this, ring) && r == Err(IoUringFailed)
      ensures old(active) ==> Accounts(old(ring.events), ring.events, Ending(active, r))
      ensures r.Err? && active ==> Blames(old(ring.events), ring.events, r.error, None)
      ensures old(active && ring.Obliges()) ==> ring.Obliges() && r.Ok?
      ensures writevSupported ==> old(writevSupported)
      ensures old(writevSupported) && !writevSupported ==> Declined(old(ring.events), ring.events)
      ensures old(active) && active && writevSupported ==> !Declined(old(ring.events), ring.events)
    {
      hide Within, SameShape, Apply, ApplyAll, Joined, Landed, Accounts, Blames, Declined;
      ghost var f0, w := ring.file, Joined(writes);
      var iovecs := new seq<Byte>[|writes|](i requires 0 <= i < |writes| => writes[i].bytes);
      JoinedEnd(writes);
      JoinedParts(writes, iovecs[..]);
      r := WriteIovecs(iovecs, writes[0].offset, w);
      WithinJoined(f0, ring.file, writes);
      if r.Ok? {
        OneLanded(f0, ring.file, w);
        ApplyJoined(f0, writes);
      }
    }

    // -------------------------------------------------------------------------------------------
    // Batches
    // -------------------------------------------------------------------------------------------

    /** Queues a batch of requests under fresh tokens. */
    method QueueBatch(requests: seq<Request>)
      returns (r: Result<(), Error>, tokens: seq<nat>, lengths: seq<nat>, ghost sqes: seq<Sqe>)
      requires Valid() && 0 < |requests| <= QUEUE_ENTRIES
      modifies ring`script, ring`prepared, ring`events, `nextToken, `active
      ensures 1 <= nextToken <= U64_MAX
      ensures r.Err? ==> !active
      ensures r.Ok? ==>
                && active && old(active) && ring.prepared == sqes && |sqes| == |requests|
                && (forall i | 0 <= i < |sqes| :: sqes[i].op == requests[i].op && sqes[i].offset == requests[i].offset)
                && DistinctTokens(sqes)
                && |tokens| == |lengths| == |sqes|
                && forall i | 0 <= i < |sqes| :: tokens[i] == sqes[i].token && lengths[i] == OpLength(sqes[i].op)
      ensures |ring.script| <= |old(ring.script)|
      ensures !old(active) ==> unchanged(this, ring) && r == Err(IoUringFailed)
      ensures r.Ok? ==> ring.events == old(ring.events)
      ensures old(active) && r.Err? ==> Accounts(old(ring.events), ring.events, Some(r.error))
      ensures old(active && ring.Obliges()) ==> ring.Obliges() && r.Ok?
    {
      hide Accounts;
      tokens, lengths, sqes := [], [], [];
      ghost var start := nextToken;
      var i := 0;
      TokenAtStart(start);
      while i < |requests|
        invariant i <= |requests| && 1 <= nextToken <= U64_MAX && (i > 0 ==> active) && (active ==> old(active))
        invariant active ==> ring.prepared == sqes && nextToken == TokenAt(start, i)
        invariant i == |sqes| == |tokens| == |lengths|
        invariant forall j | 0 <= j < i :: sqes[j] == Sqe(TokenAt(start, j), requests[j].op, requests[j].offset)
        invariant forall j | 0 <= j < i :: tokens[j] == sqes[j].token && lengths[j] == OpLength(sqes[j].op)
        invariant |ring.script| <= |old(ring.script)|
        invariant !old(active) ==> unchanged(this, ring)
        invariant ring.events == old(ring.events) && (old(active) ==> active) && (old(active && ring.Obliges()) ==> ring.Obliges())
      {
        if !active {
          return Err(IoUringFailed), [], [], [];
        }
        var token := nextToken;
        var ok, sqe := Prepare(requests[i].op, requests[i].offset);
        if !ok {
          return Err(SystemCall), [], [], [];
        }
        TokenAtNext(start, i);
        tokens, lengths, sqes := tokens + [token], lengths + [OpLength(requests[i].op)], sqes + [sqe];
        i := i + 1;
      }
      TokensDistinct(start, sqes);
      return Ok(()), tokens, lengths, sqes;
    }

    /** A whole batch: queued, submitted and answered.  For each request the amount transferred, or
        the error it met. */
    method RunBatch(requests: seq<Request>, ghost f0: File, ghost writes: seq<Write>)
      returns (r: Result<(), Error>, amounts: seq<nat>, errors: seq<Option<Error>>)
      requires Valid() && 0 < |requests| <= QUEUE_ENTRIES
      requires Within(f0, ring.file, writes) && forall i | 0 <= i < |requests| :: !Vectored(requests[i].op)
      requires forall i | 0 <= i < |requests| :: PieceOf(requests[i].Untagged(), writes) && Fits(ring.buffers, requests[i].Untagged())
      modifies ring, `nextToken, `currentInflight, `active
      ensures Valid()
      ensures r.Err? ==> !active
      ensures r.Ok? ==> active && |amounts| == |errors| == |requests|
      ensures r.Ok? ==> forall i | 0 <= i < |requests| :: amounts[i] <= OpLength(requests[i].op)
      ensures r.Ok? ==> forall i | 0 <= i < |requests| && errors[i].Some? :: amounts[i] == 0
      ensures r.Ok? && IndependentRequests(requests) ==>
                forall i | 0 <= i < |requests| :: ItemDone(requests[i].Untagged(), amounts[i], ring.file, ring.buffers)
      ensures r.Ok? ==> Spares(old(ring.buffers), ring.buffers, seq(|requests|, i requires 0 <= i < |requests| => requests[i].Untagged()))
      ensures Within(f0, ring.file, writes)
      ensures SameShape(old(ring.buffers), ring.buffers)
      ensures !old(active) ==> unchanged(this, ring) && r == Err(IoUringFailed)
      ensures old(active) ==> Accounts(old(ring.events), ring.events, Ending(active, r))
      ensures r.Ok? ==> forall i | 0 <= i < |requests| && errors[i].Some? && errors[i].value != OperationInterrupted ::
                          Blames(old(ring.events), ring.events, errors[i].value, TargetOf(requests[i].op))
      ensures old(active && ring.Obliges()) ==> ring.Obliges() && r.Ok? && forall i | 0 <= i < |requests| :: errors[i].None?
    {
      hide Within, SameShape, PieceOf, ItemDone, Unrelated, Spares, Accounts, Blames, Answers, Tracks, Accept, OnlyTook, PendingUnseen;
      ShapeRefl(ring.buffers);
      amounts, errors := [], [];
      var queued, tokens, lengths, sqes := QueueBatch(requests);
      if queued.Err? {
        return queued, [], [];
      }
      RequestsAsSqes(requests, sqes, ring.buffers, writes);
      r := SubmitBatch(|requests|, f0, writes);
      if r.Err? {
        return;
      }
      ghost var log := ring.events;
      var tracker := new BatchTracker(tokens, lengths);
      ghost var order;
      r, order := CollectBatch(tracker, sqes, f0, writes);
      if r.Err? {
        AccountsTrans(old(ring.events), log, ring.events, Some(r.error));
        return;
      }
      BatchBlames(requests, sqes, order, old(ring.events), log, ring.events, tracker.amounts, tracker.errors);
      amounts, errors := tracker.amounts, tracker.errors;
      TracksUnseen(sqes, Snapshot(tracker));
      SparesRequests(old(ring.buffers), ring.buffers, requests, sqes);
      if IndependentRequests(requests) {
        TracksDone(requests, sqes, Snapshot(tracker));
      }
    }

    /** After a batch of writes: each short or interrupted one is finished on its own. */
    method FinishWrites(batch: seq<Write>, amounts: seq<nat>, errors: seq<Option<Error>>, ghost f0: File)
      returns (r: Result<(), Error>)
      requires Valid() && active && |amounts| == |errors| == |batch|
      requires forall i | 0 <= i < |batch| :: amounts[i] <= |batch[i].bytes|
      requires forall i | 0 <= i < |batch| && errors[i].Some? :: amounts[i] == 0
      requires Disjoint(batch) ==> forall i | 0 <= i < |batch| :: Landed(ring.file, batch[i], amounts[i])
      requires Within(f0, ring.file, batch)
      modifies ring, `nextToken, `currentInflight, `active
      ensures Valid()
      ensures r.Ok? ==> active
      ensures r.Ok? && Disjoint(batch) ==> ring.file == ApplyAll(f0, batch)
      ensures Within(f0, ring.file, batch)
      ensures SameShape(old(ring.buffers), ring.buffers)
      ensures Accounts(old(ring.events), ring.events, Ending(active, r))
      ensures r.Err? && active ==>
                || Blames(old(ring.events), ring.events, r.error, None)
                || exists i :: 0 <= i < |batch| && errors[i] == Some(r.error) && r.error != OperationInterrupted
      ensures old(ring.Obliges()) && (forall i | 0 <= i < |batch| :: errors[i].None?) ==> ring.Obliges() && r.Ok?
      ensures (forall i | 0 <= i < |batch| :: errors[i].None? && amounts[i] == |batch[i].bytes|) ==> r.Ok? && unchanged(ring)
    {
      hide Within, SameShape, Landed, Apply, ApplyAll, Disjoint, Accounts, Blames;
      AccountsNone(ring.events);
      ShapeRefl(ring.buffers);
      var i := 0;
      while i < |batch|
        invariant i <= |batch| && Valid() && active
        invariant Disjoint(batch) ==>
                    forall j | 0 <= j < |batch| :: Landed(ring.file, batch[j], if j < i then |batch[j].bytes| else amounts[j])
        invariant Within(f0, ring.file, batch)
        invariant SameShape(old(ring.buffers), ring.buffers)
        invariant Accounts(old(ring.events), ring.events, None) && (old(ring.Obliges()) ==> ring.Obliges())
        invariant (forall i | 0 <= i < |batch| :: errors[i].None? && amounts[i] == |batch[i].bytes|) ==> unchanged(ring)
      {
        ghost var file, buffers, log := ring.file, ring.buffers, ring.events;
        if errors[i].Some? && errors[i].value != OperationInterrupted {
          return Err(errors[i].value);
        }
        var done := if errors[i].Some? then 0 else amounts[i];
        if done < |batch[i].bytes| {
          ghost var rest := Write(batch[i].bytes[done..], batch[i].offset + done);
          var one := WriteAllLocked(batch[i].bytes[done..], batch[i].offset + done);
          ShapeTrans(old(ring.buffers), buffers, ring.buffers);
          LogMore(old(ring.events), log, ring.events, active, one, None);
          WithinPiece(f0, file, ring.file, batch, i, done, rest);
          if one.Err? {
            return one;
          }
          if Disjoint(batch) {
            RestLands(file, batch, i, done);
          }
        }
        i := i + 1;
      }
      if Disjoint(batch) {
        AllLanded(f0, ring.file, batch);
      }
      return Ok(());
    }

    /** One batch of scalar writes, answered in any order. */
    method WriteBatch(batch: seq<Write>) returns (r: Result<(), Error>)
      requires Valid() && 0 < |batch| <= QUEUE_ENTRIES
      modifies ring, `nextToken, `currentInflight, `active
      ensures Valid()
      ensures r.Ok? ==> active
      ensures r.Ok? && Disjoint(batch) ==> ring.file == ApplyAll(old(ring.file), batch)
      ensures Within(old(ring.file), ring.file, batch)
      ensures SameShape(old(ring.buffers), ring.buffers)
      ensures !old(active) ==> unchanged(this, ring) && r == Err(IoUringFailed)
      ensures old(active) ==> Accounts(old(ring.events), ring.events, Ending(active, r))
      ensures r.Err? && active ==> Blames(old(ring.events), ring.events, r.error, None)
      ensures old(active && ring.Obliges()) ==> ring.Obliges() && r.Ok?
    {
      hide Within, SameShape, Landed, Apply, ApplyAll, Disjoint, PieceOf, ItemDone, IndependentRequests, Accounts, Blames;
      ghost var f0 := ring.file;
      WithinRefl(f0, batch);
      var requests := WriteRequests(batch);
      WriteRequestsFacts(batch, ring.buffers);
      var amounts, errors;
      r, amounts, errors := RunBatch(requests, f0, batch);
      if r.Err? {
        return;
      }
      ghost var buffers, log := ring.buffers, ring.events;
      if Disjoint(batch) {
        WritesDone(batch, amounts, ring.file, ring.buffers);
      }
      r := FinishWrites(batch, amounts, errors, f0);
      ShapeTrans(old(ring.buffers), buffers, ring.buffers);
      LogMore(old(ring.events), log, ring.events, active, r, None);
      if r.Err? {
        AccountsGrows(old(ring.events), log, None);
        AccountsGrows(log, ring.events, Ending(active, r));
        BlamesMore(old(ring.events), log, ring.events, r.error, None);
      }
    }

    /** One batch, vectored if it can be. */
    method WriteSome(batch: seq<Write>) returns (r: Result<(), Error>)
      requires Valid() && 0 < |batch| <= QUEUE_ENTRIES && batch[|batch| - 1].End() <= U64_MAX
      modifies ring, `nextToken, `currentInflight, `active, `writevSupported
      ensures Valid()
      ensures r.Ok? ==> active
      ensures r.Ok? && Disjoint(batch) ==> ring.file == ApplyAll(old(ring.file), batch)
      ensures Within(old(ring.file), ring.file, batch)
      ensures SameShape(old(ring.buffers), ring.buffers)
      ensures !old(active) ==> unchanged(this, ring) && r == Err(IoUringFailed)
      ensures old(active) ==> Accounts(old(ring.events), ring.events, Ending(active, r))
      ensures r.Err? && active ==> Blames(old(ring.events), ring.events, r.error, None)
      ensures old(active && ring.Obliges()) ==> ring.Obliges() && r.Ok?
      ensures writevSupported ==> old(writevSupported)
      ensures old(writevSupported) && !writevSupported ==> Declined(old(ring.events), ring.events)
    {
      hide Within, SameShape, Apply, ApplyAll, Disjoint, ContiguousWrites, Accounts, Blames, Declined;
      if writevSupported && ContiguousWrites(batch) {
        r := WriteAllVectoredLocked(batch);
      } else {
        r := WriteBatch(batch);
      }
    }

    /** Writes every one of the writes.  If they do not overlap and the call succeeds, the file is
        what writing them one by one makes it; whatever happens, no byte outside them changes. */
    method WriteAllManyAt(writes: seq<Write>) returns (r: Result<(), Error>)
      requires Valid()
      modifies ring, `nextToken, `currentInflight, `active, `writevSupported
      ensures Valid()
      ensures WriteFault(writes).Some? ==> r == Err(WriteFault(writes).value) && ring.file == old(ring.file)
      ensures r.Ok? && Disjoint(writes) ==> ring.file == ApplyAll(old(ring.file), writes)
      ensures Within(old(ring.file), ring.file, writes)
      ensures SameShape(old(ring.buffers), ring.buffers)
      ensures !old(active) ==> unchanged(this, ring)
      ensures !old(active) && WriteFault(writes).None? && writes != [] ==> r == Err(IoUringFailed)
      ensures r.Ok? && old(active) ==> active
      ensures old(active) ==> Accounts(old(ring.events), ring.events, Ending(active, r))
      ensures r.Err? && active ==> WriteFault(writes).Some? || Blames(old(ring.events), ring.events, r.error, None)
      ensures old(active && ring.Obliges()) && WriteFault(writes).None? ==> ring.Obliges() && r.Ok?
      ensures writevSupported ==> old(writevSupported)
      ensures old(writevSupported) && !writevSupported ==> Declined(old(ring.events), ring.events)
    {
      hide Within, SameShape, Apply, ApplyAll, Disjoint, WriteFault, Accounts, Blames, Declined;
      var fault := CheckWrites(writes);
      if fault.Some? {
        WithinRefl(ring.file, writes);
        ShapeRefl(ring.buffers);
        AccountsNone(ring.events);
        return Err(fault.value);
      }
      r := WriteBatches(writes);
    }

    /** The batches of writes without fault, one after the other. */
    method WriteBatches(writes: seq<Write>) returns (r: Result<(), Error>)
      requires Valid() && forall i | 0 <= i < |writes| :: |writes[i].bytes| <= MAX_REQUEST_LEN && writes[i].End() <= U64_MAX
      modifies ring, `nextToken, `currentInflight, `active, `writevSupported
      ensures Valid()
      ensures r.Ok? && Disjoint(writes) ==> ring.file == ApplyAll(old(ring.file), writes)
      ensures Within(old(ring.file), ring.file, writes)
      ensures SameShape(old(ring.buffers), ring.buffers)
      ensures !old(active) ==> unchanged(this, ring) && r == if writes == [] then Ok(()) else Err(IoUringFailed)
      ensures r.Ok? && old(active) ==> active
      ensures old(active) ==> Accounts(old(ring.events), ring.events, Ending(active, r))
      ensures r.Err? && active ==> Blames(old(ring.events), ring.events, r.error, None)
      ensures old(active && ring.Obliges()) ==> ring.Obliges() && r.Ok?
      ensures writevSupported ==> old(writevSupported)
      ensures old(writevSupported) && !writevSupported ==> Declined(old(ring.events), ring.events)
    {
      hide Within, SameShape, Apply, ApplyAll, Disjoint, WriteFault, Accounts, Blames, Declined;
      AccountsNone(ring.events);
      ghost var f0 := ring.file;
      ShapeRefl(ring.buffers);
      var index := 0;
      assert writes[..0] == [] && writes[..0] + writes == writes;
      WithinRefl(f0, writes[..0]);
      NoWrites(f0);
      while index < |writes|
        invariant index <= |writes| && Valid()
        invariant Within(f0, ring.file, writes[..index])
        invariant Disjoint(writes) ==> ring.file == ApplyAll(f0, writes[..index])
        invariant SameShape(old(ring.buffers), ring.buffers)
        invariant !old(active) ==> unchanged(this, ring) && index == 0
        invariant old(active) ==> active && Accounts(old(ring.events), ring.events, None)
        invariant old(active && ring.Obliges()) ==> ring.Obliges()
        invariant writevSupported ==> old(writevSupported)
        invariant old(writevSupported) && !writevSupported ==> Declined(old(ring.events), ring.events)
      {
        var count := Min(|writes| - index, QUEUE_ENTRIES);
        var batch := writes[index..index + count];
        ghost var file, buffers, log := ring.file, ring.buffers, ring.events;
        r := WriteSome(batch);
        ShapeTrans(old(ring.buffers), buffers, ring.buffers);
        if old(active) {
          LogMore(old(ring.events), log, ring.events, active, r, None);
          AccountsGrows(old(ring.events), log, None);
          AccountsGrows(log, ring.events, Ending(active, r));
          DeclinedMore(old(ring.events), log, ring.events);
        }
        NextBatch(f0, file, ring.file, writes, index, index + count);
        if r.Err? {
          return;
        }
        index := index + count;
      }
      assert writes[..index] == writes;
      return Ok(());
    }

    // -------------------------------------------------------------------------------------------
    // Reads
    // -------------------------------------------------------------------------------------------

    /** One round of `ReadAtLocked`: how many bytes it read, or nothing when interrupted. */
    method ReadOnce(b: nat, start: nat, length: nat, offset: nat) returns (r: Result<Option<nat>, Error>)
      requires Valid() && b < |ring.buffers| && start + length <= |ring.buffers[b]| && length > 0
      modifies ring, `nextToken, `currentInflight, `active
      ensures Valid() && ring.file == old(ring.file)
      ensures SameShape(old(ring.buffers), ring.buffers)
      ensures r.Ok? ==> active
      ensures |ring.script| <= |old(ring.script)| && (r == Ok(None) ==> |ring.script| < |old(ring.script)|)
      ensures active ==> OnlyFrom(old(ring.buffers), ring.buffers, b, start)
      ensures r.Ok? && r.value.Some? ==>
                && r.value.value <= length
                && (r.value.value == 0 ==> Available(ring.file, offset) == 0)
                && Filled(ring.buffers[b], start, ring.file, offset, r.value.value)
      ensures !old(active) ==> unchanged(this, ring) && r == Err(IoUringFailed)
      ensures old(active) ==> Accounts(old(ring.events), ring.events, Ending(active, r))
      ensures r.Err? && active ==> Blames(old(ring.events), ring.events, r.error, Some(b))
      ensures old(active && ring.Obliges()) ==> ring.Obliges() && r.Ok?
    {
      hide Accounts, Gave, Blames, Within, FileAfter, BuffersAfter;
      ghost var f0 := ring.file;
      WithinRefl(f0, []);
      ShapeRefl(ring.buffers);
      if !active {
        return Err(IoUringFailed);
      }
      var ok, sqe := Prepare(ReadOp(b, start, length), offset);
      if !ok {
        return Err(SystemCall);
      }
      ghost var buffers, log := ring.buffers, ring.events;
      var amount, landed := Complete(false, f0, [], sqe);
      WithinNone(f0, ring.file);
      if amount.Err? {
        if active {
          ReadAnswered(f0, buffers, sqe, Failure(INTR), landed);
        }
        if amount.error.OperationInterrupted? {
          return Ok(None);
        }
        return Err(amount.error);
      }
      ReadAnswered(f0, buffers, sqe, Amount(amount.value), landed);
      if amount.value > length {
        ghost var after, more := ring.buffers, ring.events;
        FailAfterDrain(f0, []);
        GaveMore(log, more, ring.events, InvalidIoUringCompletion);
        WithinNone(f0, ring.file);
        ShapeTrans(buffers, after, ring.buffers);
        return Err(InvalidIoUringCompletion);
      }
      return Ok(Some(amount.value));
    }

    /** Fills the buffer from `start` on with the file's bytes from `offset` on, up to the end of the
        buffer or of the file; the number of bytes read. */
    method ReadAtLocked(b: nat, start: nat, offset: nat) returns (r: Result<nat, Error>)
      requires Valid() && b < |ring.buffers| && start <= |ring.buffers[b]|
      modifies ring, `nextToken, `currentInflight, `active
      ensures Valid() && ring.file == old(ring.file)
      ensures SameShape(old(ring.buffers), ring.buffers)
      ensures active ==> OnlyFrom(old(ring.buffers), ring.buffers, b, start)
      ensures r.Ok? ==>
                && (old(active) ==> active)
                && r.value == Min(|ring.buffers[b]| - start, Available(ring.file, offset))
                && Filled(ring.buffers[b], start, ring.file, offset, r.value)
      ensures !old(active) ==> unchanged(this, ring) && r == if start == |ring.buffers[b]| then Ok(0) else Err(IoUringFailed)
      ensures old(active) ==> Accounts(old(ring.events), ring.events, Ending(active, r))
      ensures r.Err? && active ==> Blames(old(ring.events), ring.events, r.error, Some(b))
      ensures old(active && ring.Obliges()) ==> ring.Obliges() && r.Ok?
    {
      hide Accounts, Blames;
      AccountsNone(ring.events);
      var index: nat := 0;
      var length := |ring.buffers[b]| - start;
      while index < length
        invariant index <= length && Valid() && ring.file == old(ring.file) && (old(active) ==> active)
        invariant SameShape(old(ring.buffers), ring.buffers)
        invariant !old(active) ==> unchanged(this, ring) && index == 0
        invariant OnlyFrom(old(ring.buffers), ring.buffers, b, start)
        invariant Filled(ring.buffers[b], start, ring.file, offset, index)
        invariant old(active) ==> Accounts(old(ring.events), ring.events, None)
        invariant old(active && ring.Obliges()) ==> ring.Obliges()
        decreases |ring.script|, length - index
      {
        var requestLength := Min(length - index, MAX_REQUEST_LEN);
        ghost var buffers, log := ring.buffers, ring.events;
        var round := ReadOnce(b, start + index, requestLength, offset + index);
        ShapeTrans(old(ring.buffers), buffers, ring.buffers);
        if old(active) {
          LogMore(old(ring.events), log, ring.events, active, round, Some(b));
        }
        if active {
          OnlyFromTrans(old(ring.buffers), buffers, ring.buffers, b, start, start + index);
        }
        if round.Err? {
          return Err(round.error);
        }
        FilledKept(buffers, ring.buffers, b, start, ring.file, offset, index);
        if round.value.None? {
          continue;
        }
        if round.value.value == 0 {
          break;
        }
        FilledMore(ring.buffers[b], start, ring.file, offset, index, round.value.value);
        index := index + round.value.value;
      }
      return Ok(index);
    }

    /** After a batch of reads: one result, with an interrupted or short read finished on its own. */
    method FinishRead(b: nat, offset: nat, amount: nat, error: Option<Error>) returns (r: Result<ReadResult, Error>)
      requires Valid() && active && b < |ring.buffers| && amount <= |ring.buffers[b]|
      requires error.None? ==> Filled(ring.buffers[b], 0, ring.file, offset, amount)
      modifies ring, `nextToken, `currentInflight, `active
      ensures Valid() && ring.file == old(ring.file)
      ensures SameShape(old(ring.buffers), ring.buffers)
      ensures r.Ok? ==> active && OnlyFrom(old(ring.buffers), ring.buffers, b, 0)
      ensures r.Err? ==> !active
      ensures r.Ok? ==> ReadOk(r.value, ring.buffers[b], ring.file, offset)
      ensures r.Ok? && error.Some? && error.value != OperationInterrupted ==> r.value.failure == error
      ensures Accounts(old(ring.events), ring.events, Ending(active, r))
      ensures r.Ok? && r.value.failure.Some? ==>
                || Blames(old(ring.events), ring.events, r.value.failure.value, Some(b))
                || (error == r.value.failure && error.value != OperationInterrupted)
      ensures old(ring.Obliges()) && error.None? ==> ring.Obliges() && r.Ok? && r.value.failure.None?
    {
      hide Accounts, Blames;
      AccountsNone(ring.events);
      if error.Some? {
        if error.value != OperationInterrupted {
          return Ok(ReadResult(0, error));
        }
        var again := ReadAtLocked(b, 0, offset);
        if again.Err? {
          return if active then Ok(ReadResult(0, Some(again.error))) else Err(again.error);
        }
        return Ok(ReadResult(again.value, None));
      }
      if amount == |ring.buffers[b]| {
        return Ok(ReadResult(amount, None));
      }
      ghost var before := ring.buffers;
      var rest := ReadAtLocked(b, amount, offset + amount);
      if rest.Err? {
        return if active then Ok(ReadResult(amount, Some(rest.error))) else Err(rest.error);
      }
      FilledKept(before, ring.buffers, b, 0, ring.file, offset, amount);
      FilledMore(ring.buffers[b], 0, ring.file, offset, amount, rest.value);
      return Ok(ReadResult(amount + rest.value, None));
    }

    /** After a batch of reads: the results, with the interrupted and short reads finished on their own. */
    method FinishReads(first: nat, offsets: seq<nat>, amounts: seq<nat>, errors: seq<Option<Error>>)
      returns (r: Result<(), Error>, results: seq<ReadResult>)
      requires Valid() && active && first + |offsets| <= |ring.buffers| && |amounts| == |errors| == |offsets|
      requires forall j | 0 <= j < |offsets| :: Filled(ring.buffers[first + j], 0, ring.file, offsets[j], amounts[j])
      modifies ring, `nextToken, `currentInflight, `active
      ensures Valid() && ring.file == old(ring.file)
      ensures SameShape(old(ring.buffers), ring.buffers)
      ensures r.Ok? ==> active && |results| == |offsets|
      ensures r.Ok? ==> forall i | 0 <= i < |offsets| :: ReadOk(results[i], ring.buffers[first + i], ring.file, offsets[i])
      ensures r.Ok? ==> forall b | 0 <= b < |ring.buffers| && !(first <= b < first + |offsets|) ::
                          ring.buffers[b] == old(ring.buffers)[b]
      ensures Accounts(old(ring.events), ring.events, Ending(active, r))
      ensures r.Err? ==> !active
      ensures r.Ok? ==> forall i | 0 <= i < |offsets| && results[i].failure.Some? ::
                          || Blames(old(ring.events), ring.events, results[i].failure.value, Some(first + i))
                          || (errors[i] == results[i].failure && errors[i].value != OperationInterrupted)
      ensures old(ring.Obliges()) && (forall i | 0 <= i < |offsets| :: errors[i].None?) ==>
                ring.Obliges() && r.Ok? && forall i | 0 <= i < |offsets| :: results[i].failure.None?
    {
      hide Accounts, Blames, ReadOk;
      ghost var f0, buffers0 := ring.file, ring.buffers;
      AccountsNone(ring.events);
      ShapeRefl(ring.buffers);
      results := [];
      var i := 0;
      while i < |offsets|
        invariant i <= |offsets| && |results| == i
        invariant Valid() && active && ring.file == f0
        invariant SameShape(buffers0, ring.buffers)
        invariant Accounts(old(ring.events), ring.events, None)
        invariant forall j | 0 <= j < i && results[j].failure.Some? ::
                    || Blames(old(ring.events), ring.events, results[j].failure.value, Some(first + j))
                    || (errors[j] == results[j].failure && errors[j].value != OperationInterrupted)
        invariant old(ring.Obliges()) && (forall j | 0 <= j < |offsets| :: errors[j].None?) ==>
                    ring.Obliges() && forall j | 0 <= j < i :: results[j].failure.None?
        invariant forall j | 0 <= j < i :: ReadOk(results[j], ring.buffers[first + j], f0, offsets[j])
        invariant forall j | i <= j < |offsets| :: Filled(ring.buffers[first + j], 0, f0, offsets[j], amounts[j])
        invariant forall b | 0 <= b < |ring.buffers| && !(first <= b < first + |offsets|) :: ring.buffers[b] == buffers0[b]
      {
        ghost var buffers, log := ring.buffers, ring.events;
        var one := FinishRead(first + i, offsets[i], amounts[i], errors[i]);
        ShapeTrans(buffers0, buffers, ring.buffers);
        AccountsTrans(old(ring.events), log, ring.events, Ending(active, one));
        BlamesKept(old(ring.events), log, ring.events, Ending(active, one));
        if one.Err? {
          return Err(one.error), [];
        }
        results := results + [one.value];
        i := i + 1;
      }
      return Ok(()), results;
    }

    /** One batch of reads, into the buffers from `first` on. */
    method ReadBatch(first: nat, offsets: seq<nat>) returns (r: Result<(), Error>, results: seq<ReadResult>)
      requires Valid() && 0 < |offsets| <= QUEUE_ENTRIES && first + |offsets| <= |ring.buffers|
      modifies ring, `nextToken, `currentInflight, `active
      ensures Valid() && ring.file == old(ring.file)
      ensures SameShape(old(ring.buffers), ring.buffers)
      ensures r.Ok? ==> active && |results| == |offsets|
      ensures r.Ok? ==> forall i | 0 <= i < |offsets| :: ReadOk(results[i], ring.buffers[first + i], ring.file, offsets[i])
      ensures r.Ok? ==> forall b | 0 <= b < |ring.buffers| && !(first <= b < first + |offsets|) ::
                          ring.buffers[b] == old(ring.buffers)[b]
      ensures !old(active) ==> unchanged(this, ring) && r == Err(IoUringFailed)
      ensures old(active) ==> Accounts(old(ring.events), ring.events, Ending(active, r))
      ensures r.Err? ==> !active
      ensures r.Ok? ==> forall i | 0 <= i < |offsets| && results[i].failure.Some? ::
                          Blames(old(ring.events), ring.events, results[i].failure.value, Some(first + i))
      ensures old(active && ring.Obliges()) ==> ring.Obliges() && r.Ok? && forall i | 0 <= i < |offsets| :: results[i].failure.None?
    {
      hide ItemDone, PieceOf, IndependentRequests, Spares, Accounts, Blames, ReadOk;
      ghost var f0, buffers0 := ring.file, ring.buffers;
      WithinRefl(f0, []);
      ShapeRefl(ring.buffers);
      var requests := ReadRequests(first, offsets, ring.buffers);
      ReadRequestsFacts(first, offsets, ring.buffers);
      var amounts, errors;
      r, amounts, errors := RunBatch(requests, f0, []);
      WithinNone(f0, ring.file);
      if r.Err? {
        return r, [];
      }
      ghost var buffers, log := ring.buffers, ring.events;
      ReadsDone(first, offsets, buffers0, ring.buffers, amounts, ring.file);
      r, results := FinishReads(first, offsets, amounts, errors);
      ShapeTrans(buffers0, buffers, ring.buffers);
      AccountsTrans(old(ring.events), log, ring.events, Ending(active, r));
      BlamesKept(old(ring.events), log, ring.events, Ending(active, r));
    }

    /** Reads into every buffer, `ring.buffers[i]` from `offsets[i]` on.  A result without a failure
        holds exactly the file's bytes up to the end of the buffer or of the file. */
    method ReadManyAt(offsets: seq<nat>, slots: seq<ReadResult>) returns (r: Result<(), Error>, results: seq<ReadResult>)
      requires Valid() && |offsets| == |ring.buffers|
      modifies ring, `nextToken, `currentInflight, `active
      ensures Valid() && ring.file == old(ring.file)
      ensures SameShape(old(ring.buffers), ring.buffers)
      ensures |results| == |slots|
      ensures |offsets| != |slots| ==> r == Err(InvalidReadBatch) && results == slots && ring.buffers == old(ring.buffers)
      ensures |offsets| == |slots| && ReadFault(offsets, old(ring.buffers)).Some? ==>
                r == Err(ReadFault(offsets, old(ring.buffers)).value) && results == slots && ring.buffers == old(ring.buffers)
      ensures r.Ok? ==>
                |results| == |offsets| && forall i | 0 <= i < |offsets| :: ReadOk(results[i], ring.buffers[i], ring.file, offsets[i])
      ensures !old(active) ==> unchanged(this, ring)
      ensures !old(active) && |offsets| == |slots| > 0 && ReadFault(offsets, old(ring.buffers)).None? ==> r == Err(IoUringFailed)
      ensures r.Ok? && old(active) ==> active
      ensures old(active) ==> Accounts(old(ring.events), ring.events, Ending(active, r))
      ensures r.Err? && active ==> |offsets| != |slots| || ReadFault(offsets, old(ring.buffers)).Some?
      ensures r.Ok? ==> forall i | 0 <= i < |offsets| && results[i].failure.Some? ::
                          Blames(old(ring.events), ring.events, results[i].failure.value, Some(i))
      ensures old(active && ring.Obliges()) && |offsets| == |slots| && ReadFault(offsets, old(ring.buffers)).None? ==>
                ring.Obliges() && r.Ok? && forall i | 0 <= i < |offsets| :: results[i].failure.None?
    {
      hide Accounts, Blames, ReadOk, ReadFault;
      if |offsets| != |slots| {
        AccountsNone(ring.events);
        ShapeRefl(ring.buffers);
        return Err(InvalidReadBatch), slots;
      }
      var fault := CheckReads(offsets, ring.buffers);
      if fault.Some? {
        AccountsNone(ring.events);
        ShapeRefl(ring.buffers);
        return Err(fault.value), slots;
      }
      r, results := ReadBatches(offsets);
    }

    /** The batches of reads without fault, one after the other. */
    method ReadBatches(offsets: seq<nat>) returns (r: Result<(), Error>, results: seq<ReadResult>)
      requires Valid() && |offsets| == |ring.buffers|
      modifies ring, `nextToken, `currentInflight, `active
      ensures Valid() && ring.file == old(ring.file)
      ensures SameShape(old(ring.buffers), ring.buffers)
      ensures |results| == |offsets|
      ensures r.Ok? ==> forall i | 0 <= i < |offsets| :: ReadOk(results[i], ring.buffers[i], ring.file, offsets[i])
      ensures !old(active) ==> unchanged(this, ring) && r == if offsets == [] then Ok(()) else Err(IoUringFailed)
      ensures r.Ok? && old(active) ==> active
      ensures r.Err? ==> !active
      ensures old(active) ==> Accounts(old(ring.events), ring.events, Ending(active, r))
      ensures r.Ok? ==> Blamed(results, old(ring.events), ring.events)
      ensures old(active && ring.Obliges()) ==> ring.Obliges() && r.Ok? && forall i | 0 <= i < |offsets| :: results[i].failure.None?
    {
      hide Accounts, Blames, Blamed, ReadOk, SameShape;
      AccountsNone(ring.events);
      ShapeRefl(ring.buffers);
      ghost var f0, buffers0 := ring.file, ring.buffers;
      results := seq(|offsets|, _ => ReadResult(0, None));
      NoneBlamed(results, ring.events);
      var index := 0;
      while index < |offsets|
        invariant index <= |offsets| == |results| == |ring.buffers| && Valid() && ring.file == f0
        invariant SameShape(buffers0, ring.buffers)
        invariant old(active) ==> active && Accounts(old(ring.events), ring.events, None)
        invariant Blamed(results, old(ring.events), ring.events)
        invariant old(active && ring.Obliges()) ==> ring.Obliges() && forall i | 0 <= i < index :: results[i].failure.None?
        invariant !old(active) ==> unchanged(this, ring) && index == 0
        invariant forall i | 0 <= i < index :: ReadOk(results[i], ring.buffers[i], f0, offsets[i])
      {
        var count := Min(|offsets| - index, QUEUE_ENTRIES);
        ghost var buffers, log := ring.buffers, ring.events;
        var batch, part := ReadBatch(index, offsets[index..index + count]);
        ShapeTrans(buffers0, buffers, ring.buffers);
        ShapeCount(buffers0, ring.buffers);
        if old(active) {
          AccountsTrans(old(ring.events), log, ring.events, Ending(active, batch));
        }
        if batch.Err? {
          return Err(batch.error), results;
        }
        ghost var before := results;
        results := results[..index] + part + results[index + count..];
        BatchOk(index, count, offsets, before, part, results, buffers, ring.buffers, f0);
        AccountsGrows(old(ring.events), log, None);
        AccountsGrows(log, ring.events, None);
        MoreBlamed(index, before, part, old(ring.events), log, ring.events);
        index := index + count;
      }
      return Ok(()), results;
    }

    // -------------------------------------------------------------------------------------------
    // Any calls
    // -------------------------------------------------------------------------------------------

    ghost function Now(): Moment
      reads this, ring
    {
      Moment(active, ring.file, ring.events)
    }

    /** Any calls in any order, with the moments between them.  Once the engine is inactive it stays so: no
        later call reaches the kernel or changes the file, and every call that asks for anything fails. */
    method Serve(calls: seq<Call>) returns (replies: seq<Result<(), Error>>, ghost moments: seq<Moment>)
      requires Valid() && forall i | 0 <= i < |calls| && calls[i].ReadCall? :: |calls[i].offsets| == |ring.buffers|
      modifies ring, `nextToken, `currentInflight, `active, `writevSupported
      ensures Valid() && |replies| == |calls| && |moments| == |calls| + 1
      ensures moments[0] == old(Now()) && moments[|calls|] == Now()
      ensures forall k | 0 <= k < |calls| :: Served(calls[k], replies[k], moments[k], moments[k + 1])
      ensures forall i, k | 0 <= i <= k <= |calls| && !moments[i].active :: moments[k] == moments[i]
      ensures !old(active) ==> unchanged(this, ring)
    {
      hide Valid, Served, SameShape;
      replies, moments := [], [Now()];
      ghost var buffers0 := ring.buffers;
      ShapeRefl(ring.buffers);
      while |replies| < |calls|
        invariant |replies| <= |calls| && Valid() && |moments| == |replies| + 1
        invariant moments[0] == old(Now()) && moments[|replies|] == Now()
        invariant SameShape(buffers0, ring.buffers)
        invariant forall k | 0 <= k < |replies| :: Served(calls[k], replies[k], moments[k], moments[k + 1])
        invariant forall i, k | 0 <= i <= k <= |replies| && !moments[i].active :: moments[k] == moments[i]
        invariant !old(active) ==> unchanged(this, ring)
        decreases |calls| - |replies|
      {
        ghost var buffers := ring.buffers;
        ShapeCount(buffers0, buffers);
        var reply := ServeOne(calls[|replies|]);
        ShapeTrans(buffers0, buffers, ring.buffers);
        replies, moments := replies + [reply], moments + [Now()];
      }
    }

    method ServeOne(call: Call) returns (reply: Result<(), Error>)
      requires Valid() && (call.ReadCall? ==> |call.offsets| == |ring.buffers|)
      modifies ring, `nextToken, `currentInflight, `active, `writevSupported
      ensures Valid() && Served(call, reply, old(Now()), Now())
      ensures !old(active) ==> unchanged(this, ring)
      ensures SameShape(old(ring.buffers), ring.buffers)
    {
      hide Valid, SameShape, Within, ApplyAll, Disjoint, WriteFault, ReadFault, ReadOk, Accounts, Blames;
      match call {
        case WriteCall(writes) =>
          reply := WriteAllManyAt(writes);
        case ReadCall(offsets, slots) =>
          var results;
          reply, results := ReadManyAt(offsets, slots);
      }
    }
  }

  datatype Call = WriteCall(writes: seq<Write>) | ReadCall(offsets: seq<nat>, slots: seq<ReadResult>)

  datatype Moment = Moment(active: bool, file: File, log: seq<Event>)

  /** What a call does.  A write that succeeds has written everything, a read nothing.  A call fails only
      for its arguments, for the failure of one of its requests, or because the engine gives up, each with
      its own error; one that asks for anything fails if the engine was inactive, and changes nothing. */
  ghost predicate Served(call: Call, reply: Result<(), Error>, before: Moment, after: Moment) {
    && (!before.active ==> after == before)
    && (before.active ==> Accounts(before.log, after.log, Ending(after.active, reply)) && (reply.Ok? ==> after.active))
    && match call
       case WriteCall(writes) =>
         && Within(before.file, after.file, writes)
         && (reply.Ok? && Disjoint(writes) ==> after.file == ApplyAll(before.file, writes))
         && (WriteFault(writes).Some? ==> reply == Err(WriteFault(writes).value) && after.file == before.file)
         && (!before.active && WriteFault(writes).None? && writes != [] ==> reply == Err(IoUringFailed))
         && (after.active && WriteFault(writes).None? && reply.Err? ==> Blames(before.log, after.log, reply.error, None))
       case ReadCall(offsets, slots) =>
         && after.file == before.file
         && (!before.active && offsets != [] ==> reply.Err?)
         && (after.active && reply.Err? ==> reply.error.InvalidReadBatch? || reply.error.RequestTooLarge? || reply.error.OffsetOverflow?)
  }

  lemma ShapeCount(a: Buffers, b: Buffers)
    requires SameShape(a, b)
    ensures |a| == |b|
  {
  }

  datatype ReadResult = ReadResult(amount: nat, failure: Option<Error>)

  /** Unless it reports a failure, the result counts the file's bytes up to the end of the buffer or
      of the file, and they are in the buffer. */
  ghost predicate ReadOk(result: ReadResult, buffer: seq<Byte>, file: File, offset: nat) {
    result.failure.None? ==>
      result.amount == Min(|buffer|, Available(file, offset)) && Filled(buffer, 0, file, offset, result.amount)
  }

  /** Every failure reported is that of a request into the result's own buffer. */
  ghost predicate Blamed(results: seq<ReadResult>, before: seq<Event>, after: seq<Event>) {
    forall i | 0 <= i < |results| && results[i].failure.Some? :: Blames(before, after, results[i].failure.value, Some(i))
  }

  lemma NoneBlamed(results: seq<ReadResult>, log: seq<Event>)
    requires forall i | 0 <= i < |results| :: results[i].failure.None?
    ensures Blamed(results, log, log)
  {
  }

  lemma MoreBlamed(index: nat, results: seq<ReadResult>, part: seq<ReadResult>, a: seq<Event>, b: seq<Event>, c: seq<Event>)
    requires a <= b && b <= c && index + |part| <= |results| && Blamed(results, a, b)
    requires forall i | 0 <= i < |part| && part[i].failure.Some? :: Blames(b, c, part[i].failure.value, Some(index + i))
    ensures Blamed(results[..index] + part + results[index + |part|..], a, c)
  {
    hide Blames;
    var after := results[..index] + part + results[index + |part|..];
    forall i | 0 <= i < |after| && after[i].failure.Some? ensures Blames(a, c, after[i].failure.value, Some(i)) {
      BlamesMore(a, b, c, after[i].failure.value, Some(i));
      if index <= i < index + |part| {
        assert after[i] == part[i - index] && Some(index + (i - index)) == Some(i);
      }
    }
  }

  lemma BatchOk(index: nat, count: nat, offsets: seq<nat>, before: seq<ReadResult>, part: seq<ReadResult>,
                after: seq<ReadResult>, buffers: Buffers, buffers': Buffers, file: File)
    requires index + count <= |offsets| == |before| == |buffers| == |buffers'| && |part| == count
    requires after == before[..index] + part + before[index + count..]
    requires forall i | 0 <= i < index :: ReadOk(before[i], buffers[i], file, offsets[i])
    requires forall i | 0 <= i < count :: ReadOk(part[i], buffers'[index + i], file, offsets[index..index + count][i])
    requires forall b | 0 <= b < |buffers| && !(index <= b < index + count) :: buffers'[b] == buffers[b]
    ensures |after| == |offsets| && forall i | 0 <= i < index + count :: ReadOk(after[i], buffers'[i], file, offsets[i])
  {
    forall i | 0 <= i < index + count ensures ReadOk(after[i], buffers'[i], file, offsets[i]) {
      if i >= index {
        assert ReadOk(part[i - index], buffers'[index + (i - index)], file, offsets[index..index + count][i - index]);
      }
    }
  }

  function ReadRequests(first: nat, offsets: seq<nat>, buffers: Buffers): (requests: seq<Request>)
    requires first + |offsets| <= |buffers|
    ensures |requests| == |offsets|
    ensures forall i | 0 <= i < |offsets| ::
              requests[i] == Request(ReadOp(first + i, 0, |buffers[first + i]|), offsets[i])
  {
    seq(|offsets|, i requires 0 <= i < |offsets| => Request(ReadOp(first + i, 0, |buffers[first + i]|), offsets[i]))
  }

  lemma ReadRequestsFacts(first: nat, offsets: seq<nat>, buffers: Buffers)
    requires first + |offsets| <= |buffers|
    ensures var requests := ReadRequests(first, offsets, buffers);
            && IndependentRequests(requests)
            && forall i | 0 <= i < |requests| :: PieceOf(requests[i].Untagged(), []) && Fits(buffers, requests[i].Untagged())
  {
  }

  lemma ReadsDone(first: nat, offsets: seq<nat>, before: Buffers, after: Buffers, amounts: seq<nat>, file: File)
    requires first + |offsets| <= |before| && SameShape(before, after) && |amounts| == |offsets|
    requires var requests := ReadRequests(first, offsets, before);
             && (forall i | 0 <= i < |requests| :: ItemDone(requests[i].Untagged(), amounts[i], file, after))
             && Spares(before, after, seq(|requests|, i requires 0 <= i < |requests| => requests[i].Untagged()))
    ensures forall i | 0 <= i < |offsets| :: Filled(after[first + i], 0, file, offsets[i], amounts[i])
    ensures forall b | 0 <= b < |after| && !(first <= b < first + |offsets|) :: after[b] == before[b]
  {
    hide ItemDone, Spares, Filled, SameShape;
    var requests := ReadRequests(first, offsets, before);
    var sqes := seq(|requests|, i requires 0 <= i < |requests| => requests[i].Untagged());
    forall i | 0 <= i < |offsets| ensures first + i < |after| && Filled(after[first + i], 0, file, offsets[i], amounts[i]) {
      assert ItemDone(requests[i].Untagged(), amounts[i], file, after);
      ReadDone(requests[i].Untagged(), amounts[i], file, after);
    }
    forall b | 0 <= b < |after| && !(first <= b < first + |offsets|) ensures b < |before| && after[b] == before[b] {
      SparedUntargeted(before, after, sqes, b);
    }
  }

  lemma ReadDone(sqe: Sqe, n: nat, file: File, buffers: Buffers)
    requires sqe.op.ReadOp? && ItemDone(sqe, n, file, buffers)
    ensures sqe.op.buffer < |buffers| && Filled(buffers[sqe.op.buffer], sqe.op.start, file, sqe.offset, n)
  {
  }

  lemma SparedUntargeted(before: Buffers, after: Buffers, sqes: seq<Sqe>, b: nat)
    requires Spares(before, after, sqes) && b < |after|
    requires forall i | 0 <= i < |sqes| :: !(sqes[i].op.ReadOp? && sqes[i].op.buffer == b)
    ensures b < |before| && after[b] == before[b]
  {
    assert !Targets(sqes, b);
  }

  /** None of the ranges, each an offset and a length, is longer than 32 bits tell or ends beyond 64 bits, or
      the fault is that of the first that is. */
  ghost predicate FirstFault(ranges: seq<(nat, nat)>, fault: Option<Error>) {
    if fault.None? then
      forall i | 0 <= i < |ranges| :: Sound(ranges[i])
    else
      exists i :: && 0 <= i < |ranges| && !Sound(ranges[i]) && (forall j | 0 <= j < i :: Sound(ranges[j]))
                  && fault.value == if ranges[i].1 > 0xFFFF_FFFF then RequestTooLarge else OffsetOverflow
  }

  predicate Sound(range: (nat, nat)) {
    range.1 <= 0xFFFF_FFFF && range.0 + range.1 <= 0xFFFF_FFFF_FFFF_FFFF
  }

  /** The first read that is too long or runs past the last offset, if any. */
  function ReadFault(offsets: seq<nat>, buffers: Buffers): (fault: Option<Error>)
    requires |offsets| == |buffers|
    ensures fault.Some? ==> fault.value.RequestTooLarge? || fault.value.OffsetOverflow?
  {
    if offsets == [] then None
    else if |buffers[0]| > MAX_REQUEST_LEN then Some(RequestTooLarge)
    else if offsets[0] + |buffers[0]| > U64_MAX then Some(OffsetOverflow)
    else ReadFault(offsets[1..], buffers[1..])
  }

  method CheckReads(offsets: seq<nat>, buffers: Buffers) returns (fault: Option<Error>)
    requires |offsets| == |buffers|
    ensures fault == ReadFault(offsets, buffers)
    ensures FirstFault(seq(|offsets|, i requires 0 <= i < |offsets| => (offsets[i], |buffers[i]|)), fault)
    ensures fault.None? <==>
            forall i | 0 <= i < |buffers| :: |buffers[i]| <= MAX_REQUEST_LEN && offsets[i] + |buffers[i]| <= U64_MAX
  {
    ghost var ranges := seq(|offsets|, i requires 0 <= i < |offsets| => (offsets[i], |buffers[i]|));
    var i := 0;
    while i < |offsets|
      invariant i <= |offsets| && ReadFault(offsets, buffers) == ReadFault(offsets[i..], buffers[i..])
      invariant forall j | 0 <= j < i :: |buffers[j]| <= MAX_REQUEST_LEN && offsets[j] + |buffers[j]| <= U64_MAX
    {
      assert ranges[i] == (offsets[i], |buffers[i]|);
      assert offsets[i..][1..] == offsets[i + 1..] && buffers[i..][1..] == buffers[i + 1..];
      if |buffers[i]| > MAX_REQUEST_LEN {
        return Some(RequestTooLarge);
      }
      if offsets[i] + |buffers[i]| > U64_MAX {
        return Some(OffsetOverflow);
      }
      i := i + 1;
    }
    return None;
  }

  /** `n` bytes of the file from `offset` on are in the buffer from `start` on. */
  ghost predicate Filled(buffer: seq<Byte>, start: nat, file: File, offset: nat, n: nat) {
    && start + n <= |buffer| && n <= Available(file, offset)
    && (n > 0 ==> buffer[start..start + n] == file[offset..offset + n])
  }

  /** Only buffer `b` changed, and only from `start` on. */
  ghost predicate OnlyFrom(before: Buffers, after: Buffers, b: nat, start: nat) {
    && SameShape(before, after)
    && (forall i | 0 <= i < |before| && i != b :: before[i] == after[i])
    && (b < |before| ==> forall k | 0 <= k < start && k < |before[b]| :: before[b][k] == after[b][k])
  }

  lemma OnlyFromTrans(a: Buffers, b: Buffers, c: Buffers, i: nat, start: nat, later: nat)
    requires OnlyFrom(a, b, i, start) && OnlyFrom(b, c, i, later) && start <= later
    ensures OnlyFrom(a, c, i, start)
  {
  }

  lemma FilledKept(before: Buffers, after: Buffers, b: nat, start: nat, file: File, offset: nat, n: nat)
    requires b < |before| && OnlyFrom(before, after, b, start + n) && Filled(before[b], start, file, offset, n)
    ensures b < |after| && Filled(after[b], start, file, offset, n)
  {
    assert after[b][start..start + n] == before[b][start..start + n];
  }

  lemma FilledMore(buffer: seq<Byte>, start: nat, file: File, offset: nat, n: nat, m: nat)
    requires Filled(buffer, start, file, offset, n) && Filled(buffer, start + n, file, offset + n, m)
    ensures Filled(buffer, start, file, offset, n + m)
  {
    if n > 0 && m > 0 {
      assert buffer[start..start + n + m] == buffer[start..start + n] + buffer[start + n..start + n + m];
      assert file[offset..offset + n + m] == file[offset..offset + n] + file[offset + n..offset + n + m];
    }
  }

  /** A read changes its buffer from its start on, and nothing else. */
  lemma ReadTouches(file: File, buffers: Buffers, sqe: Sqe, outcome: Outcome, landed: seq<Byte>)
    requires sqe.op.ReadOp? && Fits(buffers, sqe)
    ensures OnlyFrom(buffers, BuffersAfter(buffers, file, sqe, outcome, landed), sqe.op.buffer, sqe.op.start)
  {
    hide Landing;
    var ReadOp(b, start, length) := sqe.op;
    var n := Min(Transferred(outcome, length), Available(file, sqe.offset));
    var prefix := if n == 0 then [] else file[sqe.offset..sqe.offset + n];
    var after := Splice(buffers[b], start, Landing(prefix, length, landed));
    forall k | 0 <= k < start ensures after[k] == buffers[b][k] {
      assert after[..start][k] == buffers[b][..start][k];
    }
  }

  lemma ReadAnswered(file: File, buffers: Buffers, sqe: Sqe, outcome: Outcome, landed: seq<Byte>)
    requires sqe.op.ReadOp? && Fits(buffers, sqe)
    ensures var after := BuffersAfter(buffers, file, sqe, outcome, landed);
            && OnlyFrom(buffers, after, sqe.op.buffer, sqe.op.start)
            && (outcome.Amount? && outcome.n <= sqe.op.length && outcome == Reported(file, sqe, outcome) ==>
                  && Filled(after[sqe.op.buffer], sqe.op.start, file, sqe.offset, outcome.n)
                  && (outcome.n == 0 && sqe.op.length > 0 ==> Available(file, sqe.offset) == 0))
  {
    hide Landing, Splice, OnlyFrom;
    ReadTouches(file, buffers, sqe, outcome, landed);
    var ReadOp(b, start, length) := sqe.op;
    var n := Min(Transferred(outcome, length), Available(file, sqe.offset));
    ReadLands(file, buffers[b], sqe.offset, start, length, n, landed);
  }

  /** The checks before anything is queued: the first write at fault decides the error. */
  method CheckWrites(writes: seq<Write>) returns (fault: Option<Error>)
    ensures fault == WriteFault(writes)
    ensures FirstFault(seq(|writes|, i requires 0 <= i < |writes| => (writes[i].offset, |writes[i].bytes|)), fault)
    ensures fault.None? <==> forall i | 0 <= i < |writes| :: |writes[i].bytes| <= MAX_REQUEST_LEN && writes[i].End() <= U64_MAX
  {
    ghost var ranges := seq(|writes|, i requires 0 <= i < |writes| => (writes[i].offset, |writes[i].bytes|));
    var i := 0;
    while i < |writes|
      invariant i <= |writes| && WriteFault(writes) == WriteFault(writes[i..])
      invariant forall j | 0 <= j < i :: |writes[j].bytes| <= MAX_REQUEST_LEN && writes[j].End() <= U64_MAX
    {
      assert ranges[i] == (writes[i].offset, |writes[i].bytes|);
      WriteFaultStep(writes, i);
      if |writes[i].bytes| > MAX_REQUEST_LEN {
        return Some(RequestTooLarge);
      }
      if writes[i].End() > U64_MAX {
        return Some(OffsetOverflow);
      }
      i := i + 1;
    }
    return None;
  }

  lemma NoWrites(f: File)
    ensures ApplyAll(f, []) == f
  {
  }

  /** The tail of one write, written exactly, completes it and spares the others. */
  lemma RestLands(file: File, batch: seq<Write>, i: nat, done: nat)
    requires i < |batch| && done <= |batch[i].bytes| && Disjoint(batch) && Landed(file, batch[i], done)
    ensures var rest := Write(batch[i].bytes[done..], batch[i].offset + done);
            && Landed(Apply(file, rest), batch[i], |batch[i].bytes|)
            && forall j, e: nat | 0 <= j < |batch| && j != i && Landed(file, batch[j], e) ::
                 Landed(Apply(file, rest), batch[j], e)
  {
    var rest := Write(batch[i].bytes[done..], batch[i].offset + done);
    PieceLands(file, batch[i], done, rest, |rest.bytes|);
    forall j, e: nat | 0 <= j < |batch| && j != i && Landed(file, batch[j], e)
      ensures Landed(Apply(file, rest), batch[j], e)
    {
      if j < i {
        assert !Overlap(batch[j], batch[i]);
      } else {
        assert !Overlap(batch[i], batch[j]);
        assert !Overlap(batch[j], batch[i]);
      }
      PieceSpares(file, batch[j], e, batch[i], done, rest);
    }
  }

  function WriteRequests(batch: seq<Write>): (requests: seq<Request>)
    ensures |requests| == |batch|
    ensures forall i | 0 <= i < |batch| :: requests[i] == Request(WriteOp(batch[i].bytes, false), batch[i].offset)
  {
    seq(|batch|, i requires 0 <= i < |batch| => Request(WriteOp(batch[i].bytes, false), batch[i].offset))
  }

  lemma WriteRequestsFacts(batch: seq<Write>, buffers: Buffers)
    ensures forall i | 0 <= i < |batch| ::
              PieceOf(WriteRequests(batch)[i].Untagged(), batch) && Fits(buffers, WriteRequests(batch)[i].Untagged())
  {
    forall i | 0 <= i < |batch| ensures PieceOf(WriteRequests(batch)[i].Untagged(), batch) {
      assert IsPiece(batch[i], Write(batch[i].bytes, batch[i].offset), 0);
    }
  }

  lemma WritesDone(batch: seq<Write>, amounts: seq<nat>, file: File, buffers: Buffers)
    requires Disjoint(batch) && |amounts| == |batch|
    requires IndependentRequests(WriteRequests(batch)) ==>
               forall i | 0 <= i < |batch| :: ItemDone(WriteRequests(batch)[i].Untagged(), amounts[i], file, buffers)
    ensures forall i | 0 <= i < |batch| :: Landed(file, batch[i], amounts[i])
  {
    var requests := WriteRequests(batch);
    forall i, j | 0 <= i < |requests| && 0 <= j < |requests| && i != j
      ensures Unrelated(requests[i].Untagged(), requests[j].Untagged())
    {
      assert !Overlap(batch[i], batch[j]) by {
        if i < j {
          assert !Overlap(batch[i], batch[j]);
        } else {
          assert !Overlap(batch[j], batch[i]);
        }
      }
    }
    forall i | 0 <= i < |batch| ensures Landed(file, batch[i], amounts[i]) {
      assert ItemDone(requests[i].Untagged(), amounts[i], file, buffers);
    }
  }

  /** The first write that is too long or runs past the last offset, if any. */
  function WriteFault(writes: seq<Write>): Option<Error> {
    if writes == [] then None
    else if |writes[0].bytes| > MAX_REQUEST_LEN then Some(RequestTooLarge)
    else if writes[0].End() > U64_MAX then Some(OffsetOverflow)
    else WriteFault(writes[1..])
  }

  lemma WriteFaultStep(writes: seq<Write>, i: nat)
    requires i < |writes|
    ensures WriteFault(writes[i..]) ==
            if |writes[i].bytes| > MAX_REQUEST_LEN then Some(RequestTooLarge)
            else if writes[i].End() > U64_MAX then Some(OffsetOverflow)
            else WriteFault(writes[i + 1..])
  {
    assert writes[i..][1..] == writes[i + 1..];
  }

  /** A batch after the writes before it. */
  lemma NextBatch(f0: File, f: File, g: File, writes: seq<Write>, lo: nat, hi: nat)
    requires lo <= hi <= |writes|
    requires Within(f0, f, writes[..lo]) && Within(f, g, writes[lo..hi])
    ensures Within(f0, g, writes[..hi]) && Within(f0, g, writes)
    ensures Disjoint(writes) ==> Disjoint(writes[lo..hi])
    ensures ApplyAll(ApplyAll(f0, writes[..lo]), writes[lo..hi]) == ApplyAll(f0, writes[..hi])
  {
    assert writes[..lo] + writes[lo..hi] == writes[..hi];
    assert writes[..hi] + writes[hi..] == writes;
    WithinConcat(f0, f, g, writes[..lo], writes[lo..hi]);
    WithinMore(f0, g, writes[..hi], writes[hi..]);
    ApplyAllConcat(f0, writes[..lo], writes[lo..hi]);
    if Disjoint(writes) {
      DisjointSlice(writes, lo, hi);
    }
  }

  datatype Request = Request(op: Op, offset: nat) {
    function Untagged(): Sqe { Sqe(0, op, offset) }
  }

  ghost predicate IndependentRequests(requests: seq<Request>) {
    forall i, j | 0 <= i < |requests| && 0 <= j < |requests| && i != j :: Unrelated(requests[i].Untagged(), requests[j].Untagged())
  }

  /** What is said of a request does not depend on its token. */
  lemma RequestsAsSqes(requests: seq<Request>, sqes: seq<Sqe>, buffers: Buffers, writes: seq<Write>)
    requires |sqes| == |requests|
    requires forall i | 0 <= i < |sqes| :: sqes[i].op == requests[i].op && sqes[i].offset == requests[i].offset
    requires forall i | 0 <= i < |requests| :: PieceOf(requests[i].Untagged(), writes) && Fits(buffers, requests[i].Untagged())
    ensures forall i | 0 <= i < |sqes| :: PieceOf(sqes[i], writes)
    ensures AllFit(buffers, sqes)
  {
    forall i | 0 <= i < |sqes| ensures PieceOf(sqes[i], writes) && Fits(buffers, sqes[i]) {
      assert PieceOf(requests[i].Untagged(), writes);
    }
  }

  lemma SparesRequests(before: Buffers, after: Buffers, requests: seq<Request>, sqes: seq<Sqe>)
    requires |sqes| == |requests| && Spares(before, after, sqes)
    requires forall i | 0 <= i < |sqes| :: sqes[i].op == requests[i].op
    ensures Spares(before, after, seq(|requests|, i requires 0 <= i < |requests| => requests[i].Untagged()))
  {
    var untagged := seq(|requests|, i requires 0 <= i < |requests| => requests[i].Untagged());
    assert forall i | 0 <= i < |sqes| :: untagged[i].op == sqes[i].op;
    forall b: nat | b < |before| && !Targets(untagged, b) ensures before[b] == after[b] {
      assert !Targets(sqes, b);
    }
  }

  lemma TracksDone(requests: seq<Request>, sqes: seq<Sqe>, p: Progress)
    requires |sqes| == |requests| && IndependentRequests(requests) && Tracks(sqes, p)
    requires forall i | 0 <= i < |sqes| :: sqes[i].op == requests[i].op && sqes[i].offset == requests[i].offset
    requires forall i | 0 <= i < |sqes| :: p.seen[i]
    ensures forall i | 0 <= i < |requests| :: ItemDone(requests[i].Untagged(), p.amounts[i], p.file, p.buffers)
  {
    forall i, j | 0 <= i < |sqes| && 0 <= j < |sqes| && i != j ensures Unrelated(sqes[i], sqes[j]) {
      assert Unrelated(requests[i].Untagged(), requests[j].Untagged());
    }
    forall i | 0 <= i < |requests| ensures ItemDone(requests[i].Untagged(), p.amounts[i], p.file, p.buffers) {
      assert ItemDone(sqes[i], p.amounts[i], p.file, p.buffers);
    }
  }

  /** The k-th token from `start`: tokens run through 1 .. 2^64 - 1 and start over at 1. */
  function TokenAt(start: nat, k: nat): nat
    requires 1 <= start <= U64_MAX
  {
    1 + (start - 1 + k) % U64_MAX
  }

  lemma TokenAtStart(start: nat)
    requires 1 <= start <= U64_MAX
    ensures TokenAt(start, 0) == start
  {
  }

  lemma TokenAtNext(start: nat, k: nat)
    requires 1 <= start <= U64_MAX
    ensures NextTokenOf(TokenAt(start, k)) == TokenAt(start, k + 1)
  {
  }

  lemma TokensDistinct(start: nat, sqes: seq<Sqe>)
    requires 1 <= start <= U64_MAX && |sqes| <= QUEUE_ENTRIES
    requires forall i | 0 <= i < |sqes| :: sqes[i].token == TokenAt(start, i)
    ensures DistinctTokens(sqes)
  {
  }

  /** More than one write, none empty, each starting where the one before ends. */
  predicate ContiguousWrites(writes: seq<Write>) {
    && |writes| > 1
    && (forall i | 0 <= i < |writes| :: writes[i].bytes != [])
    && (forall i | 0 <= i < |writes| - 1 :: writes[i].End() <= U64_MAX)
    && Adjacent(writes)
  }

  /** Drops `amount` bytes from the front of the iovecs, in place; false when they hold fewer. */
  method ConsumeIovecs(iovecs: array<seq<Byte>>, first: nat, amount: nat) returns (next: nat, ok: bool)
    requires first <= iovecs.Length
    modifies iovecs
    ensures first <= next <= iovecs.Length
    ensures ok <==> amount <= |Concat(old(iovecs[first..]))|
    ensures ok ==> Concat(iovecs[next..]) == Concat(old(iovecs[first..]))[amount..]
    ensures (forall i | first <= i < iovecs.Length :: old(iovecs[i]) != []) ==> forall i | next <= i < iovecs.Length :: iovecs[i] != []
  {
    hide Concat;
    ghost var all := Concat(iovecs[first..]);
    var remaining: nat := amount;
    next := first;
    while remaining != 0 && next < iovecs.Length
      invariant first <= next <= iovecs.Length && remaining <= amount && amount - remaining <= |all|
      invariant Concat(iovecs[next..]) == all[amount - remaining..]
      invariant (forall i | first <= i < iovecs.Length :: old(iovecs[i]) != []) ==> forall i | next <= i < iovecs.Length :: iovecs[i] != []
      decreases iovecs.Length - next, remaining
    {
      ghost var before := iovecs[..];
      assert before[next..] == iovecs[next..] && before[next + 1..] == iovecs[next + 1..];
      DropPart(before, next, remaining, all, amount - remaining);
      if remaining < |iovecs[next]| {
        iovecs[next] := iovecs[next][remaining..];
        assert before[next := before[next][remaining..]][next..] == iovecs[next..];
        remaining := 0;
      } else {
        remaining := remaining - |iovecs[next]|;
        next := next + 1;
      }
    }
    ok := remaining == 0;
    if !ok {
      ConcatNone();
      assert iovecs[next..] == [];
    }
  }

  lemma ConcatNone()
    ensures Concat([]) == []
  {
  }

  /** Dropping bytes from the part at `next`, or the whole part, drops them from what is left of `all`. */
  lemma DropPart(parts: seq<seq<Byte>>, next: nat, amount: nat, all: seq<Byte>, taken: nat)
    requires next < |parts| && taken <= |all| && Concat(parts[next..]) == all[taken..]
    ensures taken + |parts[next]| <= |all| && Concat(parts[next + 1..]) == all[taken + |parts[next]|..]
    ensures amount < |parts[next]| ==> Concat(parts[next := parts[next][amount..]][next..]) == all[taken + amount..]
  {
    hide Concat;
    ConcatFrom(parts, next);
    assert all[taken..][|parts[next]|..] == all[taken + |parts[next]|..];
    if amount < |parts[next]| {
      var rest := parts[next := parts[next][amount..]];
      ConcatFrom(rest, next);
      assert rest[next + 1..] == parts[next + 1..];
      assert all[taken..][amount..] == all[taken + amount..];
    }
  }

  lemma LandedNone(file: File, w: Write)
    ensures Landed(file, w, 0)
  {
  }

  lemma JoinedParts(writes: seq<Write>, iovecs: seq<seq<Byte>>)
    requires writes != [] && |iovecs| == |writes| && forall i | 0 <= i < |writes| :: iovecs[i] == writes[i].bytes
    ensures Joined(writes).offset == writes[0].offset && Joined(writes).bytes == Concat(iovecs)
  {
    assert iovecs == Parts(writes);
  }

  lemma NextPiece(iovecs: seq<seq<Byte>>, i: nat, w: Write, done: nat)
    requires i < |iovecs| && done <= |w.bytes| && Concat(iovecs[i..]) == w.bytes[done..]
    ensures done + |iovecs[i]| <= |w.bytes| && iovecs[i] == w.bytes[done..done + |iovecs[i]|]
    ensures Concat(iovecs[i + 1..]) == w.bytes[done + |iovecs[i]|..]
  {
    ConcatFrom(iovecs, i);
    var n := |iovecs[i]|;
    assert w.bytes[done..][..n] == w.bytes[done..done + n];
    assert w.bytes[done..][n..] == w.bytes[done + n..];
  }

  lemma OwnPiece(w: Write, sqe: Sqe, d: nat)
    requires sqe.op.WriteOp? && IsPiece(w, Write(sqe.op.bytes, sqe.offset), d)
    ensures PieceOf(sqe, [w])
  {
    assert [w][0] == w;
  }

  /** The next part of a write, once answered, extends what has landed by the amount answered. */
  lemma PieceOfWriteLands(file: File, w: Write, done: nat, sqe: Sqe, outcome: Outcome, landed: seq<Byte>)
    requires Landed(file, w, done) && sqe.op.WriteOp?
    requires IsPiece(w, Write(sqe.op.bytes, sqe.offset), done)
    requires sqe.op.bytes == w.bytes[done..done + |sqe.op.bytes|]
    ensures Landed(FileAfter(file, sqe, outcome, landed), w, done + Transferred(outcome, |sqe.op.bytes|))
  {
    var n := Transferred(outcome, |sqe.op.bytes|);
    var landing := Landing(sqe.op.bytes[..n], |sqe.op.bytes|, landed);
    assert w.bytes[done..done + |sqe.op.bytes|][..n] == w.bytes[done..done + n];
    assert landing[..n] == sqe.op.bytes[..n];
    PieceLands(file, w, done, Write(landing, sqe.offset), n);
  }

  lemma ShapeRefl(a: Buffers)
    ensures SameShape(a, a)
  {
  }

  lemma ShapeTrans(a: Buffers, b: Buffers, c: Buffers)
    requires SameShape(a, b) && SameShape(b, c)
    ensures SameShape(a, c)
  {
  }

  /** With everything filed, nothing is pending. */
  lemma TracksAll(sqes: seq<Sqe>, p: Progress)
    requires Tracks(sqes, p) && forall i | 0 <= i < |sqes| :: p.seen[i]
    ensures p.pending == map[]
  {
  }

  function Count(seen: seq<bool>): (n: nat)
    ensures n <= |seen|
  {
    if seen == [] then 0 else (if seen[0] then 1 else 0) + Count(seen[1..])
  }

  lemma {:induction false} CountNone(seen: seq<bool>)
    requires forall i | 0 <= i < |seen| :: !seen[i]
    ensures Count(seen) == 0
    decreases |seen|
  {
    if seen != [] {
      CountNone(seen[1..]);
    }
  }

  lemma {:induction false} CountSet(seen: seq<bool>, i: nat)
    requires i < |seen| && !seen[i]
    ensures Count(seen[i := true]) == Count(seen) + 1
    decreases |seen|
  {
    if i == 0 {
      assert seen[0 := true][1..] == seen[1..];
    } else {
      assert seen[i := true][1..] == seen[1..][i - 1 := true];
      CountSet(seen[1..], i - 1);
    }
  }

  /** Fewer filed than there are leaves one. */
  lemma {:induction false} CountSome(seen: seq<bool>) returns (i: nat)
    requires Count(seen) < |seen|
    ensures i < |seen| && !seen[i]
    decreases |seen|
  {
    if seen[0] {
      var rest := CountSome(seen[1..]);
      i := rest + 1;
    } else {
      i := 0;
    }
  }

  lemma UnseenPending(sqes: seq<Sqe>, p: Progress)
    requires Tracks(sqes, p) && Count(p.seen) < |sqes|
    ensures p.pending != map[]
  {
    var i := CountSome(p.seen);
    assert sqes[i].token in p.pending;
  }

  /** As many filed as there are is all of them. */
  lemma {:induction false} CountAll(seen: seq<bool>)
    requires Count(seen) == |seen|
    ensures forall i | 0 <= i < |seen| :: seen[i]
    decreases |seen|
  {
    if seen != [] {
      CountAll(seen[1..]);
      assert forall i | 0 < i < |seen| :: seen[i] == seen[1..][i - 1];
    }
  }
}
