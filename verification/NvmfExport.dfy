/** An NVMe-oF export on an SPDK target: creating it step by step with rollback, and closing it so that
    a failed close can be tried again.  SPDK's answers come from a script; an answer that arrives in a
    callback is taken where the callback runs, since the calling thread waits for the whole chain.
    Where the code aborts, so does the model. */
module NvmfExport {

  const EIO: int := -5
  const ENOENT: int := -2
  const ENOMEM: int := -12
  const EEXIST: int := -17
  const ENODEV: int := -19
  const EINVAL: int := -22
  const EDEADLK: int := -35
  const EINPROGRESS: int := -115

  // ---------------------------------------------------------------------------------------------
  // What SPDK's answers lead to
  // ---------------------------------------------------------------------------------------------

  /** SPDK's answer number `k`; it fails when it has no more. */
  function At(answers: seq<int>, k: nat): int {
    if k < |answers| then answers[k] else -5
  }

  function Drop(answers: seq<int>, n: nat): seq<int> {
    if n <= |answers| then answers[n..] else []
  }

  lemma DropTwice(answers: seq<int>, m: nat, n: nat)
    ensures Drop(Drop(answers, m), n) == Drop(answers, m + n)
    ensures At(Drop(answers, m), n) == At(answers, m + n)
  {
  }

  function Count(a: bool): nat {
    if a then 1 else 0
  }

  /** Gone, or never there. */
  predicate Removes(rc: int) {
    rc == 0 || rc == -2
  }

  /** Gone, or on its way with a callback. */
  predicate Destroys(rc: int) {
    rc == 0 || rc == -115
  }

  /** Whether taking down a stopped subsystem goes wrong, by the answers to removing its listener and the
      target's, if there are any, and to destroying it. */
  predicate TakeDownFails(answers: seq<int>, listener: bool, listening: bool) {
    || (listener && !Removes(At(answers, 0)))
    || (listening && !Removes(At(answers, Count(listener))))
    || !Destroys(At(answers, Count(listener) + Count(listening)))
  }

  /** The same with the stop before it, which answers twice. */
  predicate RollBackFails(answers: seq<int>, listener: bool, listening: bool) {
    At(answers, 0) != 0 || At(answers, 1) != 0 || TakeDownFails(Drop(answers, 2), listener, listening)
  }

  datatype End = Ends(status: int) | Aborts

  /** The first of the answers to the seven calls that create an export that is not 0; 7 if all are. */
  function FirstFailure(answers: seq<int>, k: nat): (n: nat)
    requires k <= 7
    ensures k <= n <= 7 && (forall j | k <= j < n :: At(answers, j) == 0) && (n < 7 ==> At(answers, n) != 0)
    decreases 7 - k
  {
    if k == 7 || At(answers, k) != 0 then k else FirstFailure(answers, k + 1)
  }

  /** How creating an export ends.  The calls are: create the subsystem, add the namespace, allow the host,
      listen, add the listener, start, and the start's callback.  The first that fails decides the status;
      what was done before it is rolled back, and if that fails the process aborts. */
  function CreateEnd(answers: seq<int>, targetExists: bool, nqnTaken: bool): End {
    var k := FirstFailure(answers, 0);
    if !targetExists then Ends(-19)
    else if nqnTaken then Ends(-17)
    else if k == 7 then Ends(0)
    else if k == 0 then Ends(-22)
    else if RollBackFails(Drop(answers, k + 1), k >= 5, k >= 4) then Aborts
    else Ends(if k == 1 then -19 else At(answers, k))
  }

  /** An export is created exactly if the target is there, the name is free and SPDK grants all seven calls;
      the process aborts only in a roll-back. */
  lemma CreateEndMeans(answers: seq<int>, targetExists: bool, nqnTaken: bool)
    ensures CreateEnd(answers, targetExists, nqnTaken) == Ends(0) <==>
              targetExists && !nqnTaken && forall k | 0 <= k < 7 :: At(answers, k) == 0
    ensures CreateEnd(answers, targetExists, nqnTaken).Aborts? ==>
              && targetExists && !nqnTaken && At(answers, 0) == 0
              && exists k :: 0 < k < 7 && At(answers, k) != 0 && RollBackFails(Drop(answers, k + 1), k >= 5, k >= 4)
  {
    var k := FirstFailure(answers, 0);
    assert k < 7 ==> At(answers, k) != 0;
  }

  /** How closing ends, from a subsystem that is to be stopped or is not: the first answer that is not what
      it should be, or 0. */
  function CloseStatus(answers: seq<int>, stops: bool, listener: bool, listening: bool, subsystem: bool): int {
    if stops && At(answers, 0) != 0 then At(answers, 0)
    else if stops && At(answers, 1) != 0 then At(answers, 1)
    else TakeDownStatus(if stops then Drop(answers, 2) else answers, listener, listening, subsystem)
  }

  function TakeDownStatus(answers: seq<int>, listener: bool, listening: bool, subsystem: bool): int {
    var a, b := Count(listener), Count(listener) + Count(listening);
    if listener && !Removes(At(answers, 0)) then At(answers, 0)
    else if listening && !Removes(At(answers, a)) then At(answers, a)
    else if subsystem && !Destroys(At(answers, b)) then At(answers, b)
    else 0
  }

  /** A close succeeds exactly if every call it has to make is granted. */
  lemma CloseStatusMeans(answers: seq<int>, stops: bool, listener: bool, listening: bool, subsystem: bool)
    ensures CloseStatus(answers, stops, listener, listening, subsystem) == 0 <==>
              && (stops ==> At(answers, 0) == 0 && At(answers, 1) == 0)
              && (listener ==> Removes(At(answers, 2 * Count(stops))))
              && (listening ==> Removes(At(answers, 2 * Count(stops) + Count(listener))))
              && (subsystem ==> Destroys(At(answers, 2 * Count(stops) + Count(listener) + Count(listening))))
  {
    forall n: nat ensures At(Drop(answers, 2), n) == At(answers, 2 + n) {
      DropTwice(answers, 2, n);
    }
  }

  /** The target and the runtime, as far as this export changes them. */
  class Target {
    /** SPDK's coming answers. */
    var answers: seq<int>
    var subsystem: bool  // the export's subsystem exists
    var running: bool    // and is started
    var listener: bool   // and has the export's listener
    var listening: bool  // the target listens on the export's account
    var leases: nat      // on the runtime

    constructor (answers: seq<int>)
      ensures this.answers == answers && Clear() && leases == 0
    {
      this.answers, subsystem, running, listener, listening, leases := answers, false, false, false, false, 0;
    }

    /** Nothing of the export is left. */
    ghost predicate Clear()
      reads this
    {
      !subsystem && !running && !listener && !listening
    }

    method Answer() returns (rc: int)
      modifies this`answers
      ensures rc == At(old(answers), 0) && answers == Drop(old(answers), 1)
    {
      rc := EIO;
      if answers != [] {
        rc, answers := answers[0], answers[1..];
      }
    }

    /** The next answer, which is number `n` of the script. */
    method AnswerAt(ghost script: seq<int>, ghost n: nat) returns (rc: int)
      requires answers == Drop(script, n)
      modifies this`answers
      ensures rc == At(script, n) && answers == Drop(script, n + 1)
    {
      DropTwice(script, n, 0);
      DropTwice(script, n, 1);
      rc := Answer();
    }

    method Stop() returns (rc: int)
      modifies this`answers, this`running
      ensures rc == 0 ==> !running && answers == Drop(old(answers), 2)
      ensures rc != 0 ==> running == old(running)
      ensures rc == if At(old(answers), 0) != 0 then At(old(answers), 0) else At(old(answers), 1)
    {
      DropTwice(answers, 1, 0);
      DropTwice(answers, 1, 1);
      rc := Answer();
      if rc == 0 {
        // The callback carries the outcome.
        rc := Answer();
      }
      if rc == 0 {
        running := false;
      }
    }

    method RemoveListener() returns (rc: int)
      modifies this`answers, this`listener
      ensures rc == 0 || rc == ENOENT ==> !listener
      ensures rc != 0 && rc != ENOENT ==> listener == old(listener)
      ensures rc == At(old(answers), 0) && answers == Drop(old(answers), 1)
    {
      rc := Answer();
      if rc == 0 || rc == ENOENT {
        listener := false;
      }
    }

    method StopListen() returns (rc: int)
      modifies this`answers, this`listening
      ensures rc == 0 || rc == ENOENT ==> !listening
      ensures rc != 0 && rc != ENOENT ==> listening == old(listening)
      ensures rc == At(old(answers), 0) && answers == Drop(old(answers), 1)
    {
      rc := Answer();
      if rc == 0 || rc == ENOENT {
        listening := false;
      }
    }

    /** Destroys the subsystem now, or later with a callback. */
    method Destroy() returns (rc: int)
      modifies this`answers, this`subsystem
      ensures rc == 0 || rc == EINPROGRESS ==> !subsystem
      ensures rc != 0 && rc != EINPROGRESS ==> subsystem == old(subsystem)
      ensures rc == At(old(answers), 0)
    {
      rc := Answer();
      if rc == 0 || rc == EINPROGRESS {
        subsystem := false;
      }
    }
  }

  /** A command on its way through the callbacks. */
  class Command {
    /** Times its completion was signalled. */
    var completions: nat
    var status: int
    var createStatus: int
    var aborted: bool

    constructor ()
      ensures completions == 0 && !aborted
    {
      completions, status, createStatus, aborted := 0, 0, 0, false;
    }

    method Complete(status: int)
      modifies this`completions, this`status
      ensures completions == old(completions) + 1 && this.status == status
    {
      this.status, completions := status, completions + 1;
    }
  }

  class Export {
    const target: Target
    var subsystem: bool
    var targetListenerStarted: bool
    var subsystemListenerAdded: bool
    var subsystemStopped: bool
    var freed: bool

    constructor (target: Target)
      ensures this.target == target && !freed
      ensures !subsystem && !targetListenerStarted && !subsystemListenerAdded && !subsystemStopped
    {
      this.target := target;
      subsystem, targetListenerStarted, subsystemListenerAdded, subsystemStopped, freed := false, false, false, false, false;
    }

    /** The handle knows what it has in the target. */
    ghost predicate Owns()
      reads this, target
    {
      && subsystem == target.subsystem && targetListenerStarted == target.listening && subsystemListenerAdded == target.listener
      && (target.running || target.listener ==> target.subsystem)
      && (subsystemStopped ==> !target.running)
    }

    // -------------------------------------------------------------------------------------------
    // Creating
    // -------------------------------------------------------------------------------------------

    method RollBack(command: Command)
      requires Owns() && subsystem && !command.aborted && !subsystemStopped
      modifies this, target, command`completions, command`status, command`aborted
      ensures target.leases == old(target.leases) && freed == old(freed)
      ensures !command.aborted ==> Owns() && target.Clear() && !subsystemStopped
      ensures !command.aborted ==> command.completions == old(command.completions) + 1 && command.status == command.createStatus
      ensures command.aborted ==> command.completions == old(command.completions)
      ensures command.aborted <==> RollBackFails(old(target.answers), old(target.listener), old(target.listening))
    {
      var rc := target.Stop();
      if rc != 0 {
        command.aborted := true;
        return;
      }
      FinishRollBack(command);
    }

    method FinishRollBack(command: Command)
      requires Owns() && subsystem && !target.running && !command.aborted && !subsystemStopped
      modifies this, target, command`completions, command`status, command`aborted
      ensures target.leases == old(target.leases) && freed == old(freed)
      ensures !command.aborted ==> Owns() && target.Clear() && !subsystemStopped
      ensures !command.aborted ==> command.completions == old(command.completions) + 1 && command.status == command.createStatus
      ensures command.aborted ==> command.completions == old(command.completions)
      ensures command.aborted <==> TakeDownFails(old(target.answers), old(target.listener), old(target.listening))
    {
      DropTwice(target.answers, 1, 0);
      DropTwice(target.answers, 1, 1);
      DropTwice(target.answers, 2, 0);
      if subsystemListenerAdded {
        var rc := target.RemoveListener();
        if rc != 0 && rc != ENOENT {
          command.aborted := true;
          return;
        }
        subsystemListenerAdded := false;
      }
      if targetListenerStarted {
        var rc := target.StopListen();
        if rc != 0 && rc != ENOENT {
          command.aborted := true;
          return;
        }
        targetListenerStarted := false;
      }
      var rc := target.Destroy();
      if rc == 0 || rc == EINPROGRESS {
        subsystem := false;
        command.Complete(command.createStatus);
      } else {
        command.aborted := true;
      }
    }

    /** Creates the subsystem, its namespace, its host, the listeners, and starts it.  Whatever step
        fails, nothing of the export is left and the command completes once, with the failure. */
    method RunCreate(command: Command, targetExists: bool, nqnTaken: bool)
      requires Owns() && target.Clear() && command.completions == 0 && !command.aborted && !subsystemStopped
      modifies this, target, command
      ensures target.leases == old(target.leases) && freed == old(freed)
      ensures !command.aborted ==> command.completions == 1 && Owns() && !subsystemStopped
      ensures !command.aborted && command.status != 0 ==> target.Clear()
      ensures !command.aborted && command.status == 0 ==>
                target.subsystem && target.running && target.listener && target.listening
      ensures var end := CreateEnd(old(target.answers), targetExists, nqnTaken);
              (command.aborted <==> end.Aborts?) && (!command.aborted ==> command.status == end.status)
    {
      hide RollBackFails, FirstFailure;
      ghost var script := target.answers;
      if !targetExists {
        command.Complete(ENODEV);
        return;
      }
      if nqnTaken {
        command.Complete(EEXIST);
        return;
      }
      var rc := target.Answer();
      if rc != 0 {
        command.Complete(EINVAL);
        return;
      }
      subsystem, target.subsystem := true, true;
      ghost var k;
      rc, k := Build(script);
      if rc == 0 {
        command.Complete(0);
        return;
      }
      command.createStatus := rc;
      RollBack(command);
    }

    /** Gives the new subsystem its namespace, its host and its listeners, and starts it, up to the first
        call that fails; `script` are SPDK's answers with the one that created the subsystem. */
    method Build(ghost script: seq<int>) returns (status: int, ghost k: nat)
      requires Owns() && subsystem && !targetListenerStarted && !subsystemListenerAdded && !target.running && !subsystemStopped
      requires At(script, 0) == 0 && target.answers == Drop(script, 1)
      modifies this`targetListenerStarted, this`subsystemListenerAdded
      modifies target`answers, target`listening, target`listener, target`running
      ensures Owns() && k == FirstFailure(script, 0) && k > 0
      ensures status == if k == 7 then 0 else if k == 1 then -19 else At(script, k)
      ensures k < 7 ==> target.answers == Drop(script, k + 1)
      ensures (target.listening <==> k >= 4) && (target.listener <==> k >= 5) && (target.running <==> k == 7)
    {
      hide Drop, At;
      k := FirstFailure(script, 0);
      var rc := target.AnswerAt(script, 1); // the namespace
      if rc != 0 {
        return ENODEV, k;
      }
      rc := target.AnswerAt(script, 2); // the host
      if rc != 0 {
        return rc, k;
      }
      rc := target.AnswerAt(script, 3); // the target's listener
      if rc != 0 {
        return rc, k;
      }
      targetListenerStarted, target.listening := true, true;
      rc := target.AnswerAt(script, 4); // the subsystem's listener, in a callback
      if rc != 0 {
        return rc, k;
      }
      subsystemListenerAdded, target.listener := true, true;
      rc := target.AnswerAt(script, 5); // the start
      if rc != 0 {
        return rc, k;
      }
      rc := target.AnswerAt(script, 6); // its callback
      if rc == 0 {
        target.running := true;
      }
      return rc, k;
    }

    // -------------------------------------------------------------------------------------------
    // Closing
    // -------------------------------------------------------------------------------------------

    method ContinueClose(command: Command)
      requires Owns() && !target.running
      modifies this`subsystem, this`targetListenerStarted, this`subsystemListenerAdded, target, command`completions, command`status
      ensures Owns() && command.completions == old(command.completions) + 1 && target.leases == old(target.leases)
      ensures !target.running
      ensures command.status == 0 <==> target.Clear()
      ensures command.status != 0 ==> subsystem == old(subsystem)
      ensures command.status == TakeDownStatus(old(target.answers), old(target.listener), old(target.listening), old(target.subsystem))
    {
      DropTwice(target.answers, 1, 0);
      DropTwice(target.answers, 1, 1);
      DropTwice(target.answers, 2, 0);
      if subsystemListenerAdded {
        var rc := target.RemoveListener();
        if rc != 0 && rc != ENOENT {
          command.Complete(rc);
          return;
        }
        subsystemListenerAdded := false;
      }
      if targetListenerStarted {
        var rc := target.StopListen();
        if rc != 0 && rc != ENOENT {
          command.Complete(rc);
          return;
        }
        targetListenerStarted := false;
      }
      if !subsystem {
        command.Complete(0);
        return;
      }
      var rc := target.Destroy();
      if rc == 0 || rc == EINPROGRESS {
        subsystem := false;
        command.Complete(0);
      } else {
        command.Complete(rc);
      }
    }

    /** Takes down what is left.  It completes once; with zero exactly if nothing is left, and
        otherwise the handle still knows what is. */
    method RunClose(command: Command)
      requires Owns()
      modifies this`subsystem, this`targetListenerStarted, this`subsystemListenerAdded, this`subsystemStopped
      modifies target, command`completions, command`status
      ensures Owns() && command.completions == old(command.completions) + 1 && target.leases == old(target.leases)
      ensures command.status == 0 <==> target.Clear()
      ensures old(subsystemStopped) ==> subsystemStopped
      ensures command.status != 0 ==> subsystem == old(subsystem)
      ensures command.status == CloseStatus(old(target.answers), old(target.subsystem && !subsystemStopped), old(target.listener),
                                            old(target.listening), old(target.subsystem))
      ensures subsystemStopped <==> old(subsystemStopped) || (old(subsystem) && At(old(target.answers), 0) == 0 == At(old(target.answers), 1))
    {
      if !subsystem || subsystemStopped {
        ContinueClose(command);
        return;
      }
      var rc := target.Stop();
      if rc != 0 {
        command.Complete(rc);
        return;
      }
      subsystemStopped := true;
      ContinueClose(command);
    }

    /** Closes the export; only success gives the lease back and frees the handle. */
    method Close(onSpdkThread: bool, sent: int) returns (status: int)
      requires Owns() && !freed && target.leases > 0 && target.subsystem
      modifies this, target
      ensures Owns() && (status == 0 <==> freed) && (status == 0 <==> target.Clear())
      ensures target.leases == old(target.leases) - if status == 0 then 1 else 0
      ensures status != 0 ==> target.subsystem
      ensures status == if onSpdkThread then -35 else if sent != 0 then sent
                        else CloseStatus(old(target.answers), !old(subsystemStopped), old(target.listener), old(target.listening), true)
    {
      if onSpdkThread {
        return EDEADLK;
      }
      if sent != 0 {
        return sent;
      }
      var command := new Command();
      RunClose(command);
      status := command.status;
      if status == 0 {
        target.leases := target.leases - 1;
        freed := true;
      }
    }
  }

  /** What the caller passes and meets before the target is reached. */
  datatype Call = Call(
    valid: bool, onSpdkThread: bool, lease: int, allocates: bool, copies: bool, sent: int,
    targetExists: bool, nqnTaken: bool)

  /** How a call ends: at the first of its own obstacles, or as SPDK's answers decide. */
  function CreateOutcome(answers: seq<int>, call: Call): End {
    if !call.valid then Ends(-22)
    else if call.onSpdkThread then Ends(-35)
    else if call.lease != 0 then Ends(call.lease)
    else if !(call.allocates && call.copies) then Ends(-12)
    else if call.sent != 0 then Ends(call.sent)
    else CreateEnd(answers, call.targetExists, call.nqnTaken)
  }

  /** Creates an export under a lease.  A failure leaves no lease and nothing in the target. */
  method Create(target: Target, call: Call) returns (status: int, export_: Export?, aborted: bool, ghost handle: Export?)
    requires target.Clear()
    modifies target
    ensures !aborted && status != 0 ==> export_ == null && target.Clear() && target.leases == old(target.leases)
    ensures !aborted && status == 0 ==>
              export_ != null && fresh(export_) && export_.target == target && export_.Owns() && !export_.freed
              && !export_.subsystemStopped
    ensures !aborted && status == 0 ==>
              target.subsystem && target.running && target.listener && target.listening && target.leases == old(target.leases) + 1
    ensures aborted ==> status != 0
    ensures match CreateOutcome(old(target.answers), call) case Aborts => aborted case Ends(s) => !aborted && status == s
    ensures !aborted && status != 0 && handle != null ==> handle.freed
  {
    handle := null;
    if !call.valid {
      return EINVAL, null, false, null;
    }
    if call.onSpdkThread {
      return EDEADLK, null, false, null;
    }
    if call.lease != 0 {
      return call.lease, null, false, null;
    }
    target.leases := target.leases + 1;
    if !call.allocates {
      target.leases := target.leases - 1;
      return ENOMEM, null, false, null;
    }
    var made := new Export(target);
    handle := made;
    if !call.copies {
      made.freed := true;
      target.leases := target.leases - 1;
      return ENOMEM, null, false, made;
    }
    if call.sent != 0 {
      target.leases := target.leases - 1;
      made.freed := true;
      return call.sent, null, false, made;
    }
    var command := new Command();
    made.RunCreate(command, call.targetExists, call.nqnTaken);
    if command.aborted {
      return EIO, null, true, made;
    }
    if command.status != 0 {
      target.leases := target.leases - 1;
      made.freed := true;
      return command.status, null, false, made;
    }
    return 0, made, false, made;
  }
}
