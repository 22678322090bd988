/** A block-device endpoint on its owner thread.  Device calls and callbacks may re-enter it: inside a
    device call, inside the release of a completed I/O and inside a callback, requests may complete, be
    retried, be submitted, and the endpoint may be closed or its device removed, nested to any depth.
    A script stands for what the device and the callbacks do. */
module BdevEndpoint {
  import opened Wrappers
  import opened Bytes

  const EPERM: int := -1
  const EIO: int := -5
  const EBADF: int := -9
  const ENOMEM: int := -12
  const EBUSY: int := -16
  const ENODEV: int := -19
  const EINVAL: int := -22
  const ERANGE: int := -34

  // ---------------------------------------------------------------------------------------------
  // The requests, on paper
  // ---------------------------------------------------------------------------------------------

  /** Every request ever made, by number: those with the device, those parked until the device has
      memory, those in the hands of a call on the stack, the callbacks made and with what status, and
      what the submissions that have returned answered. */
  datatype Ledger = Ledger(
    inflight: set<nat>, parked: set<nat>, held: set<nat>,
    calls: multiset<nat>, results: map<nat, int>, answers: map<nat, int>, next: nat)
  {
    predicate Live(id: nat) { id in inflight || id in parked || id in held }

    /** Live, or called back once. */
    predicate Accounted(id: nat) { Live(id) || calls[id] == 1 }

    function Count(): nat { |inflight| + |parked| + |held| }
  }

  ghost predicate Sound(l: Ledger) {
    && l.inflight !! l.parked && l.inflight !! l.held && l.parked !! l.held
    && (forall id: nat | l.Live(id) :: id < l.next && l.calls[id] == 0)
    && (forall id: nat :: l.calls[id] <= 1 && (l.calls[id] == 1 ==> id < l.next && id in l.results))
    && (forall id | id in l.answers :: id < l.next && (l.answers[id] == 0 <==> l.Accounted(id)))
  }

  /** What any activity, however nested, does to the ledger. */
  ghost predicate Later(l: Ledger, m: Ledger) {
    && m.held == l.held && l.next <= m.next
    && (forall id: nat | l.Accounted(id) :: m.Accounted(id))
    && (forall id: nat | id < l.next && !l.Accounted(id) :: !m.Accounted(id))
    && (forall id | id in l.answers :: id in m.answers && m.answers[id] == l.answers[id])
    && (forall id | l.calls[id] == 1 :: m.calls[id] == 1 && (id in l.results ==> id in m.results && m.results[id] == l.results[id]))
    && (forall id: nat | id < l.next && id !in l.answers :: id !in m.answers)
  }

  lemma LaterTransitive(l: Ledger, m: Ledger, n: Ledger)
    requires Later(l, m) && Later(m, n)
    ensures Later(l, n)
  {
  }

  // The moves of one request.

  function Made(l: Ledger): Ledger {
    l.(held := l.held + {l.next}, next := l.next + 1)
  }

  function Given(l: Ledger, id: nat): Ledger {
    l.(held := l.held - {id}, inflight := l.inflight + {id})
  }

  function Parked(l: Ledger, id: nat): Ledger {
    l.(held := l.held - {id}, parked := l.parked + {id})
  }

  function Taken(l: Ledger, id: nat): Ledger {
    l.(inflight := l.inflight - {id}, parked := l.parked - {id}, held := l.held + {id})
  }

  function CalledBack(l: Ledger, id: nat, status: int): Ledger {
    l.(held := l.held - {id}, calls := l.calls[id := l.calls[id] + 1], results := l.results[id := status])
  }

  function Dropped(l: Ledger, id: nat): Ledger {
    l.(held := l.held - {id})
  }

  function Answered(l: Ledger, id: nat, rc: int): Ledger {
    l.(answers := l.answers[id := rc])
  }

  lemma MadeSound(l: Ledger)
    requires Sound(l)
    ensures Sound(Made(l)) && Made(l).Count() == l.Count() + 1 && l.next !in l.answers && !l.Accounted(l.next)
  {
    assert !l.Live(l.next);
    var m := Made(l);
    assert forall i: nat :: m.Live(i) <==> l.Live(i) || i == l.next;
    assert l.held !! {l.next} && l.inflight !! {l.next} && l.parked !! {l.next};
  }

  lemma GivenSound(l: Ledger, id: nat)
    requires Sound(l) && id in l.held
    ensures Sound(Given(l, id)) && Given(l, id).Count() == l.Count() && Given(l, id).Accounted(id)
  {
    assert id !in l.inflight;
    assert forall i: nat :: Given(l, id).Live(i) <==> l.Live(i);
  }

  lemma ParkedSound(l: Ledger, id: nat)
    requires Sound(l) && id in l.held
    ensures Sound(Parked(l, id)) && Parked(l, id).Count() == l.Count() && Parked(l, id).Accounted(id)
  {
    assert id !in l.parked;
    assert forall i: nat :: Parked(l, id).Live(i) <==> l.Live(i);
  }

  lemma Without(s: set<nat>, id: nat)
    ensures id in s ==> |s - {id}| == |s| - 1
    ensures id !in s ==> s - {id} == s && |s + {id}| == |s| + 1
  {
  }

  lemma TakenCount(l: Ledger, id: nat)
    requires Sound(l) && (id in l.inflight || id in l.parked)
    ensures Taken(l, id).Count() == l.Count() && id !in l.held
  {
    assert id !in l.held && (id in l.inflight ==> id !in l.parked);
    Without(l.inflight, id);
    Without(l.parked, id);
    Without(l.held, id);
  }

  lemma TakenSound(l: Ledger, id: nat)
    requires Sound(l) && (id in l.inflight || id in l.parked)
    ensures Sound(Taken(l, id)) && Taken(l, id).Count() == l.Count() && id !in l.held
  {
    TakenCount(l, id);
    var m := Taken(l, id);
    assert forall i: nat :: m.Live(i) <==> l.Live(i);
    assert forall i: nat :: m.Accounted(i) <==> l.Accounted(i);
    assert m.calls == l.calls && m.results == l.results && m.answers == l.answers && m.next == l.next;
  }

  lemma CalledBackSound(l: Ledger, id: nat, status: int)
    requires Sound(l) && id in l.held
    ensures var m := CalledBack(l, id, status);
            Sound(m) && m.Count() == l.Count() - 1 && m.calls[id] == 1 && m.results[id] == status
  {
    assert l.Live(id);
    var m := CalledBack(l, id, status);
    assert forall i: nat :: m.Live(i) <==> l.Live(i) && i != id;
    assert forall i: nat :: m.Accounted(i) <==> l.Accounted(i);
  }

  /** A refused submission is forgotten: it was never accounted for outside its call. */
  lemma RefusedSound(l: Ledger, id: nat, rc: int)
    requires Sound(l) && id in l.held && id !in l.answers && rc != 0
    ensures Sound(Answered(Dropped(l, id), id, rc)) && Answered(Dropped(l, id), id, rc).Count() == l.Count() - 1
  {
    assert l.Live(id);
    var m := Answered(Dropped(l, id), id, rc);
    assert forall i: nat :: m.Live(i) <==> l.Live(i) && i != id;
  }

  lemma AcceptedSound(l: Ledger, id: nat)
    requires Sound(l) && l.Accounted(id) && id !in l.answers
    ensures Sound(Answered(l, id, 0)) && Answered(l, id, 0).Count() == l.Count()
  {
    assert forall i: nat :: Answered(l, id, 0).Live(i) <==> l.Live(i);
    assert l.Live(id) || l.calls[id] == 1;
  }

  // Activity seen from the calls around it.

  lemma LaterSame(l: Ledger)
    ensures Later(l, l)
  {
  }

  lemma LaterHeld(l: Ledger, m: Ledger)
    requires Later(l, m)
    ensures m.held == l.held
  {
  }

  lemma HeldCounts(l: Ledger)
    ensures l.held != {} ==> l.Count() > 0
  {
  }

  /** Parking a request and giving it to the device are the same to everyone else. */
  lemma ParkedLater(l: Ledger, id: nat)
    requires Sound(l) && id in l.held
    ensures Later(Given(l, id), Parked(l, id))
  {
    assert forall i: nat :: Given(l, id).Live(i) <==> Parked(l, id).Live(i);
  }

  lemma AcceptedLater(l: Ledger, m: Ledger)
    requires Sound(l) && Later(Given(Made(l), l.next), m)
    ensures m.Accounted(l.next) && l.next !in m.answers && Later(l, Answered(m, l.next, 0))
  {
    MadeSound(l);
    var given := Given(Made(l), l.next);
    assert given.Accounted(l.next);
    assert !l.Live(l.next);
    assert given.held == l.held;
    var n := Answered(m, l.next, 0);
    assert forall i: nat :: n.Accounted(i) <==> m.Accounted(i);
    assert forall i: nat | i < l.next :: given.Accounted(i) <==> l.Accounted(i);
  }

  lemma RefusedLater(l: Ledger, m: Ledger, rc: int)
    requires Sound(l) && Later(Made(l), m)
    ensures l.next in m.held && l.next !in m.answers && Later(l, Answered(Dropped(m, l.next), l.next, rc))
  {
    MadeSound(l);
    assert !l.Live(l.next);
    assert Made(l).held - {l.next} == l.held;
    var n := Answered(Dropped(m, l.next), l.next, rc);
    assert forall i: nat | i != l.next :: n.Accounted(i) <==> m.Accounted(i);
    assert forall i: nat | i < l.next :: Made(l).Accounted(i) <==> l.Accounted(i);
  }

  lemma TakenLater(l: Ledger, id: nat)
    requires Sound(l) && (id in l.inflight || id in l.parked)
    ensures Later(l, Given(Taken(l, id), id))
  {
    var m := Given(Taken(l, id), id);
    assert m.held == l.held;
    assert forall i: nat :: m.Live(i) <==> l.Live(i);
  }

  lemma FinishedLater(l: Ledger, id: nat, m: Ledger, status: int)
    requires Sound(l) && (id in l.inflight || id in l.parked) && Later(Taken(l, id), m) && Sound(m)
    ensures id in m.held && Later(l, CalledBack(m, id, status))
  {
    TakenSound(l, id);
    CalledBackSound(m, id, status);
    var taken, n := Taken(l, id), CalledBack(m, id, status);
    assert taken.held - {id} == l.held;
    assert m.Live(id);
    assert forall i: nat :: taken.Live(i) <==> l.Live(i);
    assert forall i: nat :: n.Accounted(i) <==> m.Accounted(i);
  }

  // ---------------------------------------------------------------------------------------------
  // The endpoint
  // ---------------------------------------------------------------------------------------------

  /** What the device and the callbacks do next. */
  datatype Choice =
    | Completes(id: nat, success: bool, aio: int) // the device completes a request
    | Retries(id: nat)                            // the device has memory for a parked request
    | Submits(allocates: bool)                    // a callback submits a request
    | Closes                                      // a callback closes the endpoint
    | Removes                                     // the device goes away
    | Answers(rc: int)                            // the answer to a device call
    | Ends                                        // the activity inside this call is over

  /** The answer to device call `k` from here, if the script has one there; otherwise the call fails. */
  function AnswerAt(script: seq<Choice>, k: nat): int {
    if k < |script| && script[k].Answers? then script[k].rc else -5
  }

  /** What issuing a request is answered: by the device, or if that is out of memory by its waiting list. */
  function IssueStatus(script: seq<Choice>): int {
    if AnswerAt(script, 0) == -12 then AnswerAt(script, 1) else AnswerAt(script, 0)
  }

  /** The status a completion carries. */
  function CompletionStatus(success: bool, aio: int, removed: bool): (status: int)
    ensures status == 0 <==> success
    ensures status <= 0
    ensures !success && removed ==> status == -19
    ensures !success && !removed ==> status == aio || (aio >= 0 && status == -5)
  {
    if success then 0 else if removed then ENODEV else if aio >= 0 then EIO else aio
  }

  class Endpoint {
    var outstanding: nat
    var removed: bool
    /** What the device and the callers know. */
    var ledger: Ledger
    var script: seq<Choice>
    /** Cleared by the free in close: every access to the fields above needs it set. */
    var alive: bool

    /** The count is the number of live requests, and a closed endpoint has none. */
    ghost predicate Valid()
      reads this
    {
      Sound(ledger) && outstanding == ledger.Count() && (!alive ==> ledger.Count() == 0)
    }

    constructor (script: seq<Choice>)
      ensures Valid() && alive && !removed && this.script == script
      ensures ledger == Ledger({}, {}, {}, multiset{}, map[], map[], 0)
    {
      outstanding, removed, this.script := 0, false, script;
      alive, ledger := true, Ledger({}, {}, {}, multiset{}, map[], map[], 0);
    }

    method NextAnswer() returns (rc: int)
      modifies this`script
      ensures |script| <= old(|script|) && (old(script) != [] ==> script == old(script)[1..])
      ensures rc == AnswerAt(old(script), 0) && AnswerAt(script, 0) == AnswerAt(old(script), 1)
    {
      rc := EIO;
      if script != [] {
        if script[0].Answers? {
          rc := script[0].rc;
        }
        script := script[1..];
      }
    }

    /** Closes the endpoint unless a request is live. */
    method Close(onOwner: bool) returns (rc: int)
      requires Valid() && alive
      modifies this`alive
      ensures Valid()
      ensures rc == 0 <==> onOwner && ledger.Count() == 0
      ensures rc == 0 <==> !alive
      ensures rc == if !onOwner then -1 else if ledger.Count() != 0 then -16 else 0
    {
      if !onOwner {
        return EPERM;
      }
      if outstanding != 0 {
        return EBUSY;
      }
      alive := false;
      return 0;
    }

    /** Whatever happens inside a device call, a release or a callback. */
    method Activity()
      requires Valid()
      modifies this
      ensures Valid() && Later(old(ledger), ledger) && |script| <= old(|script|)
      ensures old(ledger).held != {} && old(alive) ==> alive
      ensures old(script) != [] && old(alive) ==> |script| < old(|script|)
      decreases |script|, 1
    {
      hide Sound, Later;
      LaterSame(ledger);
      while script != [] && !script[0].Ends? && alive
        invariant Valid() && Later(old(ledger), ledger) && |script| <= old(|script|)
        invariant old(ledger).held != {} && old(alive) ==> alive
        invariant (script == old(script) && alive == old(alive)) || |script| < old(|script|)
        decreases |script|
      {
        ghost var before := ledger;
        LaterSame(ledger);
        LaterHeld(old(ledger), ledger);
        HeldCounts(ledger);
        var choice := script[0];
        script := script[1..];
        match choice {
          case Completes(id, success, aio) =>
            if id in ledger.inflight {
              Complete(id, success, aio);
            }
          case Retries(id) =>
            if id in ledger.parked {
              Retry(id);
            }
          case Submits(allocates) =>
            var rc := Submit(allocates);
          case Closes =>
            var rc := Close(true);
          case Removes =>
            Remove();
          case _ =>
        }
        LaterTransitive(old(ledger), before, ledger);
      }
      if script != [] && script[0].Ends? {
        script := script[1..];
      }
    }

    /** SPDK takes the device away. */
    method Remove()
      modifies this`removed
      ensures removed
    {
      removed := true;
    }

    /** Calls the device with a request in hand. */
    method CallDevice(id: nat) returns (rc: int)
      requires Valid() && alive && id in ledger.held
      modifies this
      ensures Valid() && |script| <= old(|script|)
      ensures rc == 0 ==> Later(Given(old(ledger), id), ledger)
      ensures rc == 0 && old(ledger).held != {id} ==> alive
      ensures rc != 0 ==> ledger == old(ledger) && alive && removed == old(removed)
      ensures rc == AnswerAt(old(script), 0) && (rc != 0 ==> AnswerAt(script, 0) == AnswerAt(old(script), 1))
      decreases |script|, 2
    {
      hide Sound, Later;
      rc := NextAnswer();
      if rc != 0 {
        return;
      }
      GivenSound(ledger, id);
      ledger := Given(ledger, id);
      Activity();
    }

    /** Issues a request, parking it if the device is out of memory. */
    method Issue(id: nat) returns (rc: int)
      requires Valid() && alive && id in ledger.held
      modifies this
      ensures Valid() && |script| <= old(|script|)
      ensures rc == 0 ==> Later(Given(old(ledger), id), ledger)
      ensures rc == 0 && old(ledger).held != {id} ==> alive
      ensures rc != 0 ==> ledger == old(ledger) && alive
      ensures rc == IssueStatus(old(script))
      ensures rc == 0 && AnswerAt(old(script), 0) == -12 ==> ledger == Parked(old(ledger), id)
      decreases |script|, 3
    {
      hide Sound, Later;
      rc := CallDevice(id);
      if rc != ENOMEM {
        return;
      }
      rc := NextAnswer();
      if rc == 0 {
        ParkedSound(ledger, id);
        ParkedLater(ledger, id);
        ledger := Parked(ledger, id);
      }
    }

    /** Calls back, once, for a request that is over. */
    method Finish(id: nat, status: int)
      requires Valid() && alive && id in ledger.held
      modifies this
      ensures Valid() && |script| <= old(|script|)
      ensures Later(CalledBack(old(ledger), id, status), ledger)
      ensures old(ledger).held != {id} ==> alive
      decreases |script|, 2
    {
      hide Sound, Later;
      CalledBackSound(ledger, id, status);
      outstanding := outstanding - 1;
      ledger := CalledBack(ledger, id, status);
      Activity();
    }

    /** The device has completed a request. */
    method Complete(id: nat, success: bool, aio: int)
      requires Valid() && alive && id in ledger.inflight
      modifies this
      ensures Valid() && |script| <= old(|script|) && Later(old(ledger), ledger)
      ensures ledger.calls[id] == 1 && id in ledger.results
      ensures ledger.results[id] == CompletionStatus(success, aio, old(removed))
      ensures old(ledger).held != {} ==> alive
      decreases |script|, 3
    {
      hide Sound, Later;
      var status := 0;
      if !success {
        status := aio;
        if status >= 0 {
          status := EIO;
        }
        if removed {
          status := ENODEV;
        }
      }
      TakenSound(ledger, id);
      ledger := Taken(ledger, id);
      ghost var taken := ledger;
      Activity();
      FinishedLater(old(ledger), id, ledger, status);
      LaterHeld(taken, ledger);
      ghost var before := ledger;
      CalledBackSound(ledger, id, status);
      Finish(id, status);
      LaterTransitive(old(ledger), CalledBack(before, id, status), ledger);
      LaterCalls(CalledBack(before, id, status), ledger, id);
    }

    /** The device has memory for a parked request. */
    method Retry(id: nat)
      requires Valid() && alive && id in ledger.parked
      modifies this
      ensures Valid() && |script| <= old(|script|) && Later(old(ledger), ledger)
      ensures old(ledger).held != {} ==> alive
      ensures old(removed) || IssueStatus(old(script)) != 0 ==>
                && ledger.calls[id] == 1 && id in ledger.results
                && ledger.results[id] == if old(removed) then -19 else IssueStatus(old(script))
      decreases |script|, 4
    {
      hide Sound, Later;
      TakenSound(ledger, id);
      TakenLater(ledger, id);
      ledger := Taken(ledger, id);
      ghost var taken := ledger;
      LaterSame(taken);
      var rc := ENODEV;
      if !removed {
        rc := Issue(id);
      }
      if rc != 0 {
        FinishedLater(old(ledger), id, taken, rc);
        Finish(id, rc);
        LaterTransitive(old(ledger), CalledBack(taken, id, rc), ledger);
        CalledBackSound(taken, id, rc);
        LaterCalls(CalledBack(taken, id, rc), ledger, id);
      } else {
        LaterTransitive(old(ledger), Given(taken, id), ledger);
      }
    }

    /** Submits a request.  A zero answer means it is live or was called back already; any other that
        it never will be. */
    method Submit(allocates: bool) returns (rc: int)
      requires Valid() && alive
      modifies this
      ensures Valid() && |script| <= old(|script|) && Later(old(ledger), ledger)
      ensures old(ledger).held != {} ==> alive
      ensures allocates ==> old(ledger).next in ledger.answers && ledger.answers[old(ledger).next] == rc
      ensures allocates ==> (rc == 0 <==> ledger.Accounted(old(ledger).next))
      ensures !allocates ==> ledger == old(ledger)
      ensures rc == if allocates then IssueStatus(old(script)) else -12
      decreases |script|, 4
    {
      hide Sound, Later;
      LaterSame(ledger);
      if !allocates {
        return ENOMEM;
      }
      var id := ledger.next;
      MadeSound(ledger);
      outstanding := outstanding + 1;
      ledger := Made(ledger);
      ghost var made := ledger;
      LaterSame(made);
      rc := Issue(id);
      if rc != 0 {
        RefusedLater(old(ledger), ledger, rc);
        RefusedSound(ledger, id, rc);
        outstanding := outstanding - 1;
        ledger := Answered(Dropped(ledger, id), id, rc);
      } else {
        AcceptedLater(old(ledger), ledger);
        AcceptedSound(ledger, id);
        ledger := Answered(ledger, id, 0);
      }
      AnswerIs(ledger, id);
    }
  }

  lemma LaterCalls(l: Ledger, m: Ledger, id: nat)
    requires Later(l, m) && l.calls[id] == 1 && id in l.results
    ensures m.calls[id] == 1 && id in m.results && m.results[id] == l.results[id]
  {
  }

  lemma AnswerIs(l: Ledger, id: nat)
    requires Sound(l) && id in l.answers
    ensures l.answers[id] == 0 <==> l.Accounted(id)
  {
  }

  /** In any state of the endpoint: a submission that answered zero is live with no callback yet, or
      over with exactly one; one that answered otherwise has none and is not live. */
  lemma CalledBackOnce(endpoint: Endpoint, id: nat)
    requires endpoint.Valid() && id in endpoint.ledger.answers
    ensures endpoint.ledger.answers[id] == 0 ==>
              endpoint.ledger.calls[id] == if endpoint.ledger.Live(id) then 0 else 1
    ensures endpoint.ledger.answers[id] != 0 ==> endpoint.ledger.calls[id] == 0 && !endpoint.ledger.Live(id)
    ensures !endpoint.alive && endpoint.ledger.answers[id] == 0 ==> endpoint.ledger.calls[id] == 1
  {
    var l := endpoint.ledger;
    assert l.answers[id] == 0 <==> l.Accounted(id);
    assert l.calls[id] <= 1;
    assert l.Count() == 0 ==> l.inflight == {} && l.parked == {} && l.held == {};
  }

  // ---------------------------------------------------------------------------------------------
  // Ranges and buffers
  // ---------------------------------------------------------------------------------------------

  const UINTPTR_MAX: nat := U64_MAX

  datatype Geometry = Geometry(capacity: nat, blockSize: nat, writeUnit: nat, alignment: nat)

  /** The machine's bounds on a geometry taken from a device. */
  predicate RealGeometry(g: Geometry) {
    0 < g.blockSize <= U32_MAX && g.capacity <= U64_MAX && g.writeUnit <= U32_MAX && g.alignment <= U32_MAX
  }

  /** Accepts exactly the whole, aligned blocks of the device, in write units if they are written. */
  function ValidateRange(g: Geometry, onOwner: bool, removed: bool, writable: bool,
                         buffer: Option<nat>, offset: nat, length: nat, write: bool): (rc: int)
    requires RealGeometry(g) && offset <= U64_MAX && length <= U64_MAX
    ensures rc == 0 <==>
              && onOwner && !removed && buffer.Some? && 0 < length && offset + length <= g.capacity
              && offset % g.blockSize == 0 && length % g.blockSize == 0
              && (g.alignment > 1 ==> buffer.value % g.alignment == 0)
              && (write ==> writable && g.writeUnit > 0
                            && offset / g.blockSize % g.writeUnit == 0 && length / g.blockSize % g.writeUnit == 0)
    ensures rc == -1 <==> !onOwner
    ensures rc == -19 <==> onOwner && removed
    ensures rc == -34 <==> && onOwner && !removed && buffer.Some? && 0 < length
                           && offset % g.blockSize == 0 && length % g.blockSize == 0 && offset + length > g.capacity
    ensures rc == -9 <==> && onOwner && !removed && buffer.Some? && 0 < length && write && !writable
                          && offset % g.blockSize == 0 && length % g.blockSize == 0 && offset + length <= g.capacity
                          && (g.alignment > 1 ==> buffer.value % g.alignment == 0)
    ensures rc in [0, -1, -9, -19, -22, -34]
  {
    if !onOwner then EPERM
    else if removed then ENODEV
    else if buffer.None? || length == 0 || offset % g.blockSize != 0 || length % g.blockSize != 0 then EINVAL
    else if offset > g.capacity || length > g.capacity - offset then ERANGE
    else if g.alignment > 1 && buffer.value % g.alignment != 0 then EINVAL
    else if !write then 0
    else if !writable then EBADF
    else if g.writeUnit == 0 || offset / g.blockSize % g.writeUnit != 0 || length / g.blockSize % g.writeUnit != 0 then EINVAL
    else 0
  }

  /** How far the memory at an address is translated in one piece: only over mapped bytes, and not at
      all exactly where the byte itself is not mapped. */
  ghost predicate Translates(extent: nat -> nat, mapped: nat -> bool) {
    forall a: nat :: (extent(a) == 0 <==> !mapped(a)) && forall b | a <= b < a + extent(a) :: mapped(b)
  }

  /** Walks a buffer piece by piece.  It is DMA capable exactly if every byte of it is mapped. */
  method BufferIsDmaCapable(g: Geometry, onOwner: bool, buffer: Option<nat>, length: nat,
                            extent: nat -> nat, ghost mapped: nat -> bool) returns (capable: bool)
    requires RealGeometry(g) && Translates(extent, mapped)
    requires length <= U64_MAX && (buffer.Some? ==> buffer.value <= UINTPTR_MAX)
    ensures capable <==>
              && onOwner && buffer.Some? && 0 < length && buffer.value + length <= UINTPTR_MAX
              && (g.alignment > 1 ==> buffer.value % g.alignment == 0)
              && forall b | buffer.value <= b < buffer.value + length :: mapped(b)
  {
    if buffer.None? || length == 0 || !onOwner {
      return false;
    }
    var address := buffer.value;
    if (g.alignment > 1 && address % g.alignment != 0) || length > UINTPTR_MAX - address {
      return false;
    }
    var remaining := length;
    while remaining > 0
      invariant 0 <= remaining <= length && address + remaining == buffer.value + length
      invariant forall b | buffer.value <= b < address :: mapped(b)
    {
      var translated := extent(address);
      if translated == 0 {
        return false;
      }
      if translated > remaining {
        translated := remaining;
      }
      address := address + translated;
      remaining := remaining - translated;
    }
    return true;
  }
}
