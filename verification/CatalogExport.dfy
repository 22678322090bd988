/** The layers of a running endpoint: a pool, a worker over it, a block device over the worker, and an
    NVMe-oF export over that.  Each layer's close can fail and be tried again; a failed start is rolled
    back layer by layer. */
module CatalogExport {
  import opened Wrappers
  import opened NvmfExport

  datatype Layer = ExportLayer | BdevLayer | WorkerLayer | PoolLayer

  /** The order the layers are taken down in. */
  const TEARDOWN: seq<Layer> := [ExportLayer, BdevLayer, WorkerLayer, PoolLayer]

  /** Errors by number; a panic ends the process. */
  datatype Outcome = Done | Failed(status: int) | Panic

  /** The answer to a call made of a lease and a message: the first of the two that is not 0. */
  function FirstOfTwo(answers: seq<int>): int {
    if At(answers, 0) != 0 then At(answers, 0) else At(answers, 1)
  }

  /** How a close from the top ends: with the export's status if it is open and does not close, else with
      the block device's, else with the pool's. */
  function StopEnd(export_: Option<int>, bdev: bool, answers: seq<int>): Outcome {
    var rest := if bdev then Drop(answers, 2) else answers;
    if export_.Some? && export_.value != 0 then Failed(export_.value)
    else if bdev && FirstOfTwo(answers) != 0 then Failed(FirstOfTwo(answers))
    else if At(rest, 0) != 0 then Failed(At(rest, 0))
    else Done
  }

  /** What is open below the target, and what comes back from opening and closing it. */
  class World {
    const target: Target
    /** The leases on the runtime that others hold. */
    const others: nat
    var pool: bool
    var worker: bool
    var bdev: bool
    var answers: seq<int>
    /** The layers closed, in order, since the endpoint started. */
    var closed: seq<Layer>

    constructor (target: Target, answers: seq<int>)
      ensures this.target == target && this.answers == answers && !pool && !worker && !bdev && closed == []
      ensures others == target.leases
    {
      this.target, others, this.answers := target, target.leases, answers;
      pool, worker, bdev, closed := false, false, false, [];
    }

    ghost predicate Bare()
      reads this, target
    {
      !pool && !worker && !bdev && target.Clear() && target.leases == others
    }

    method Answer() returns (rc: int)
      modifies this`answers
      ensures rc == At(old(answers), 0) && answers == Drop(old(answers), 1)
    {
      rc := EIO;
      if answers != [] {
        rc, answers := answers[0], answers[1..];
      }
    }

    /** Creates the block device, which keeps a lease while it exists. */
    method CreateBdev() returns (rc: int)
      requires !bdev
      modifies this`answers, this`bdev, target`leases
      ensures bdev <==> rc == 0
      ensures target.leases == old(target.leases) + if rc == 0 then 1 else 0
      ensures rc == FirstOfTwo(old(answers)) && (rc == 0 ==> answers == Drop(old(answers), 2))
    {
      DropTwice(answers, 1, 0);
      DropTwice(answers, 1, 1);
      rc := Answer(); // the lease
      if rc != 0 {
        return;
      }
      target.leases := target.leases + 1;
      rc := Answer();
      if rc != 0 {
        target.leases := target.leases - 1;
        return;
      }
      bdev := true;
    }

    /** Deletes the block device under a second lease; both are given back when it is gone. */
    method DeleteBdev() returns (rc: int)
      requires bdev && target.leases > 0
      modifies this`answers, this`bdev, target`leases
      ensures bdev <==> rc != 0
      ensures target.leases == old(target.leases) - if rc == 0 then 1 else 0
      ensures rc == FirstOfTwo(old(answers)) && (rc == 0 ==> answers == Drop(old(answers), 2))
    {
      DropTwice(answers, 1, 0);
      DropTwice(answers, 1, 1);
      rc := Answer(); // the lease
      if rc != 0 {
        return;
      }
      target.leases := target.leases + 1;
      rc := Answer(); // the message
      if rc != 0 {
        target.leases := target.leases - 1;
        return;
      }
      bdev := false;
      target.leases := target.leases - 1;
      target.leases := target.leases - 1;
    }
  }

  // ---------------------------------------------------------------------------------------------
  // The catalog export: worker, block device, NVMe-oF export
  // ---------------------------------------------------------------------------------------------

  class Catalog {
    const world: World
    var worker: bool
    var bdevHandle: bool
    var nvmf: Export?

    constructor (world: World, nvmf: Export?)
      ensures this.world == world && this.nvmf == nvmf && worker && bdevHandle
    {
      this.world, this.nvmf, worker, bdevHandle := world, nvmf, true, true;
    }

    ghost function Parts(): set<object>
      reads this
    {
      {this, world, world.target} + if nvmf == null then {} else {nvmf}
    }

    /** The handles are what is open, from the worker up. */
    ghost predicate Valid()
      reads Parts()
    {
      && worker == world.worker && bdevHandle == world.bdev
      && (nvmf != null ==> nvmf.target == world.target && nvmf.Owns() && !nvmf.freed && world.target.subsystem)
      && world.target.leases == world.others + (if bdevHandle then 1 else 0) + (if nvmf != null then 1 else 0)
      && (nvmf == null ==> world.target.Clear())
      && (nvmf != null ==> bdevHandle) && (bdevHandle ==> worker)
      && world.closed == TEARDOWN[..if nvmf != null then 0 else if bdevHandle then 1 else if worker then 2 else 3]
    }

    /** What the export answers to a close, if it is open. */
    ghost function ExportStatus(onSpdkThread: bool, sent: int): Option<int>
      reads Parts()
    {
      if nvmf == null then None
      else if onSpdkThread then Some(-35)
      else if sent != 0 then Some(sent)
      else Some(CloseStatus(world.target.answers, !nvmf.subsystemStopped, world.target.listener, world.target.listening, true))
    }

    method CloseNvmf(onSpdkThread: bool, sent: int) returns (r: Outcome)
      requires Valid()
      modifies this`nvmf, nvmf, world`closed, world.target
      ensures Valid() && r != Panic && worker == old(worker) && bdevHandle == old(bdevHandle)
      ensures r == Done <==> nvmf == null
      ensures nvmf == old(nvmf) || nvmf == null
      ensures old(nvmf) == null ==> r == Done && world.closed == old(world.closed)
      ensures old(nvmf) != null ==>
                var status := old(ExportStatus(onSpdkThread, sent)).value; r == if status == 0 then Done else Failed(status)
    {
      if nvmf == null {
        return Done;
      }
      var status := nvmf.Close(onSpdkThread, sent);
      if status != 0 {
        return Failed(status);
      }
      nvmf := null;
      world.closed := world.closed + [ExportLayer];
      return Done;
    }

    method CloseBdev() returns (r: Outcome)
      requires Valid() && nvmf == null
      modifies this`bdevHandle, world`bdev, world`answers, world`closed, world.target`leases
      ensures Valid() && r != Panic && worker == old(worker)
      ensures r == Done <==> !bdevHandle
      ensures r == if old(bdevHandle) && FirstOfTwo(old(world.answers)) != 0 then Failed(FirstOfTwo(old(world.answers))) else Done
      ensures !old(bdevHandle) ==> world.answers == old(world.answers)
      ensures old(bdevHandle) && r == Done ==> world.answers == Drop(old(world.answers), 2)
    {
      if !bdevHandle {
        return Done;
      }
      var status := world.DeleteBdev();
      if status != 0 {
        return Failed(status);
      }
      bdevHandle := false;
      world.closed := world.closed + [BdevLayer];
      return Done;
    }

    /** Takes the layers down from the top; a layer that fails stops it, and the next try goes on from
        there. */
    method Close(onSpdkThread: bool, sent: int) returns (r: Outcome)
      requires Valid()
      modifies this, nvmf, world, world.target
      ensures Valid() && r != Panic && world.pool == old(world.pool)
      ensures r == Done <==> !worker
      ensures nvmf == old(nvmf) || nvmf == null
      ensures r == Done ==> world.closed == [ExportLayer, BdevLayer, WorkerLayer]
      ensures var export_, answers := old(ExportStatus(onSpdkThread, sent)), old(world.answers);
              if export_.Some? && export_.value != 0 then r == Failed(export_.value)
              else if old(bdevHandle) && FirstOfTwo(answers) != 0 then r == Failed(FirstOfTwo(answers))
              else r == Done && world.answers == if old(bdevHandle) then Drop(answers, 2) else answers
    {
      r := CloseNvmf(onSpdkThread, sent);
      if r != Done {
        return;
      }
      r := CloseBdev();
      if r != Done {
        return;
      }
      if !worker {
        return Done;
      }
      worker, world.worker := false, false;
      world.closed := world.closed + [WorkerLayer];
      return Done;
    }
  }

  /** What the catalog export is asked for: its block size, whether the runtime is up, the volume's size
      if its worker starts, and the call that creates the NVMe-oF export. */
  datatype Options = Options(blockSize: nat, runtimeUp: bool, logicalSize: Result<nat, int>, call: Call)

  const INVALID_BLOCK_SIZE: int := 1
  const RUNTIME_STOPPED: int := 2
  const UNALIGNED_SIZE: int := 3

  /** How building the layers ends.  The world answers to the lease and the message that create the block
      device, and to those that delete it if the export fails; the first failure decides, and one while
      taking down again ends the process. */
  function CatalogEnd(answers: seq<int>, targetAnswers: seq<int>, options: Options): Outcome {
    if options.blockSize == 0 then Failed(INVALID_BLOCK_SIZE)
    else if !options.runtimeUp then Failed(RUNTIME_STOPPED)
    else if options.logicalSize.Err? then Failed(options.logicalSize.error)
    else if options.logicalSize.value % options.blockSize != 0 then Failed(UNALIGNED_SIZE)
    else if FirstOfTwo(answers) != 0 then Failed(FirstOfTwo(answers))
    else match CreateOutcome(targetAnswers, options.call)
         case Aborts => Panic
         case Ends(status) =>
           if status == 0 then Done else if FirstOfTwo(Drop(answers, 2)) != 0 then Panic else Failed(status)
  }

  /** Builds the layers up; a failure takes down again what was built. */
  method CreateCatalog(world: World, options: Options) returns (r: Outcome, catalog: Catalog?)
    requires world.target.Clear() && !world.worker && !world.bdev && world.closed == [] && world.target.leases == world.others
    modifies world, world.target
    ensures world.pool == old(world.pool) && world.closed == []
    ensures r == Done ==> catalog != null && fresh(catalog) && catalog.world == world && catalog.Valid()
    ensures r == Done ==> catalog.nvmf != null && fresh(catalog.nvmf) && world.target.running
    ensures r.Failed? ==> catalog == null && !world.worker && !world.bdev && world.target.Clear()
    ensures r.Failed? ==> world.target.leases == world.others
    ensures r == CatalogEnd(old(world.answers), old(world.target.answers), options)
  {
    catalog := null;
    if options.blockSize == 0 {
      return Failed(INVALID_BLOCK_SIZE), null;
    }
    if !options.runtimeUp {
      return Failed(RUNTIME_STOPPED), null;
    }
    if options.logicalSize.Err? {
      return Failed(options.logicalSize.error), null;
    }
    world.worker := true;
    if options.logicalSize.value % options.blockSize != 0 {
      world.worker := false;
      return Failed(UNALIGNED_SIZE), null;
    }
    var status := world.CreateBdev();
    if status != 0 {
      world.worker := false;
      return Failed(status), null;
    }
    var created, nvmf, aborted, handle := NvmfExport.Create(world.target, options.call);
    if aborted {
      return Panic, null;
    }
    if created != 0 {
      var closed := world.DeleteBdev();
      if closed != 0 {
        return Panic, null;
      }
      world.worker := false;
      return Failed(created), null;
    }
    catalog := new Catalog(world, nvmf);
    return Done, catalog;
  }

  // ---------------------------------------------------------------------------------------------
  // The endpoint instance: the catalog export over its pool
  // ---------------------------------------------------------------------------------------------

  class Instance {
    const world: World
    var catalog: Catalog?

    constructor (world: World, catalog: Catalog?)
      ensures this.world == world && this.catalog == catalog
    {
      this.world, this.catalog := world, catalog;
    }

    ghost function Parts(): set<object>
      reads this, catalog
    {
      {this, world, world.target} + if catalog == null then {} else catalog.Parts()
    }

    /** Every layer below an open one is open, and what has been closed is the rest, in order. */
    ghost predicate Valid()
      reads this, catalog, Parts()
    {
      && (catalog != null ==> catalog.world == world && catalog.Valid() && world.pool)
      && (catalog == null ==> world.target.Clear() && !world.bdev && !world.worker && world.target.leases == world.others)
      && (catalog == null ==> world.closed == TEARDOWN[..if world.pool then 3 else 4])
    }

    /** How a stop ends. */
    ghost function StopOutcome(onSpdkThread: bool, sent: int): Outcome
      reads this, catalog, Parts()
    {
      StopEnd(if catalog == null then None else catalog.ExportStatus(onSpdkThread, sent),
              catalog != null && catalog.bdevHandle, world.answers)
    }

    /** Stops the endpoint.  After any number of failed tries and one that succeeds, every layer has
        been closed once, the export first and the pool last. */
    method Stop(onSpdkThread: bool, sent: int) returns (r: Outcome)
      requires Valid() && world.pool
      modifies this, world, world.target, catalog, if catalog == null then null else catalog.nvmf
      ensures Valid() && r != Panic
      ensures catalog == old(catalog) || catalog == null
      ensures catalog != null ==> catalog.nvmf == null || catalog.nvmf == old(if catalog == null then null else catalog.nvmf)
      ensures r == Done <==> !world.pool
      ensures r == Done ==> world.Bare() && world.closed == TEARDOWN
      ensures world.closed <= TEARDOWN
      ensures r == old(StopOutcome(onSpdkThread, sent))
    {
      if catalog != null {
        r := catalog.Close(onSpdkThread, sent);
        if r != Done {
          return;
        }
        catalog := null;
      }
      var status := world.Answer();
      if status != 0 {
        return Failed(status);
      }
      world.pool := false;
      world.closed := world.closed + [PoolLayer];
      return Done;
    }

    /** Tries to stop the endpoint again and again until it works or the tries run out. */
    method StopWithRetries(tries: seq<(bool, int)>) returns (r: Outcome, used: nat)
      requires Valid() && world.pool
      modifies this, world, world.target, catalog, if catalog == null then null else catalog.nvmf
      ensures Valid() && used <= |tries| && (r != Done ==> used == |tries|)
      ensures r == Done <==> !world.pool
      ensures r == Done ==> world.Bare() && world.closed == TEARDOWN
      ensures world.closed <= TEARDOWN
      ensures tries != [] ==>
                && used > 0
                && (old(StopOutcome(tries[0].0, tries[0].1)) == Done ==> r == Done && used == 1)
                && (|tries| == 1 ==> r == old(StopOutcome(tries[0].0, tries[0].1)))
    {
      r, used := Failed(0), 0;
      ClosedSoFar();
      while used < |tries| && r != Done
        invariant used <= |tries| && Valid() && (r == Done <==> !world.pool) && world.closed <= TEARDOWN
        invariant catalog == old(catalog) || catalog == null
        invariant catalog != null ==> catalog.nvmf == null || catalog.nvmf == old(if catalog == null then null else catalog.nvmf)
        invariant r == Done ==> world.Bare() && world.closed == TEARDOWN
        invariant used == 0 && tries != [] ==> r == Failed(0) && StopOutcome(tries[0].0, tries[0].1) == old(StopOutcome(tries[0].0, tries[0].1))
        invariant used == 1 ==> r == old(StopOutcome(tries[0].0, tries[0].1))
        invariant used > 1 ==> |tries| > 1 && old(StopOutcome(tries[0].0, tries[0].1)) != Done
      {
        r := Stop(tries[used].0, tries[used].1);
        used := used + 1;
      }
    }

    lemma ClosedSoFar()
      requires Valid()
      ensures world.closed <= TEARDOWN
    {
    }
  }

  const UNSUPPORTED_FRONTEND: int := 4
  const POOL_IDENTITY_MISMATCH: int := 5

  /** What starting an endpoint meets: its address, memory, and the pool opened for it. */
  datatype Setting = Setting(hasAddress: bool, allocates: bool, pool: Result<bool, int>, abortCloses: bool, options: Options)

  function StartEnd(answers: seq<int>, targetAnswers: seq<int>, setting: Setting): Outcome {
    if !setting.hasAddress then Failed(UNSUPPORTED_FRONTEND)
    else if !setting.allocates then Failed(-12)
    else if setting.pool.Err? then Failed(setting.pool.error)
    else
      var r := if setting.pool.value then CatalogEnd(answers, targetAnswers, setting.options) else Failed(POOL_IDENTITY_MISMATCH);
      if r.Failed? && !setting.abortCloses then Panic else r
  }

  /** An endpoint starts exactly if nothing on the way fails. */
  lemma StartEndMeans(answers: seq<int>, targetAnswers: seq<int>, setting: Setting)
    ensures var options := setting.options;
            StartEnd(answers, targetAnswers, setting) == Done <==>
              && setting.hasAddress && setting.allocates && setting.pool == Ok(true)
              && options.blockSize > 0 && options.runtimeUp && options.logicalSize.Ok?
              && options.logicalSize.value % options.blockSize == 0
              && At(answers, 0) == 0 && At(answers, 1) == 0
              && options.call.valid && !options.call.onSpdkThread && options.call.lease == 0 && options.call.allocates
              && options.call.copies && options.call.sent == 0 && options.call.targetExists && !options.call.nqnTaken
              && forall k | 0 <= k < 7 :: At(targetAnswers, k) == 0
  {
    CreateEndMeans(targetAnswers, setting.options.call.targetExists, setting.options.call.nqnTaken);
  }

  /** Starts an endpoint.  A failure leaves no layer open and no lease. */
  method Start(world: World, setting: Setting) returns (r: Outcome, instance: Instance?)
    requires world.Bare() && world.closed == []
    modifies world, world.target
    ensures r == Done ==> instance != null && fresh(instance) && instance.world == world && instance.Valid()
    ensures r == Done ==> world.pool && world.worker && world.bdev && world.target.running && world.closed == []
    ensures r.Failed? ==> instance == null && world.Bare()
    ensures r == StartEnd(old(world.answers), old(world.target.answers), setting)
  {
    instance := null;
    if !setting.hasAddress {
      return Failed(UNSUPPORTED_FRONTEND), null;
    }
    if !setting.allocates {
      return Failed(ENOMEM), null;
    }
    if setting.pool.Err? {
      return Failed(setting.pool.error), null;
    }
    world.pool := true;
    var catalog: Catalog? := null;
    if !setting.pool.value {
      r := Failed(POOL_IDENTITY_MISMATCH);
    } else {
      r, catalog := CreateCatalog(world, setting.options);
    }
    if r.Failed? {
      if !setting.abortCloses {
        return Panic, null;
      }
      world.pool := false;
      return;
    }
    if r == Panic {
      return;
    }
    instance := new Instance(world, catalog);
  }
}
