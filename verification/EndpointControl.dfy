/** Control requests over the endpoint registry, and whole runs of the daemon with crashes. */
module EndpointControl {
  import opened Wrappers
  import opened Bytes
  import opened Codec
  import opened EndpointRegistry

  datatype Request = EnsureEndpoint(spec: Spec) | InspectEndpoint(id: Id) | ListEndpoints | ReleaseEndpoint(id: Id)

  datatype Answer =
    | Endpoint(view: View)
    | Endpoints(views: seq<View>)
    | Released(stopping: bool)
    | ApiError(error: Error)
    | Silent  // for an event that asks nothing
    | Crashed // the process ended without an answer

  /** The list a request makes durable if it makes one. */
  function Written(request: Request, stored: seq<Spec>): Option<seq<Spec>> {
    match request
    case EnsureEndpoint(spec) => Some(stored + [spec])
    case ReleaseEndpoint(id) => Some(Without(stored, id))
    case _ => None
  }

  /** The file is as it was, or holds the list the operation wrote. */
  ghost predicate BeforeOrAfter(before: seq<seq<Spec>>, after: seq<seq<Spec>>, written: Option<seq<Spec>>) {
    after == before || (written.Some? && after == before + [written.value])
  }

  /** What the answer to a request says is true of the registry after it: `before` are its entries before,
      `entries` those after, `stored` the stored list and `live` the running instances. */
  ghost predicate Truthful(request: Request, allocates: bool, answer: Answer, before: seq<Entry>,
                           entries: seq<Entry>, stored: seq<Spec>, live: map<nat, Running>) {
    match request
    case EnsureEndpoint(spec) =>
      && (answer.Endpoint? || answer.ApiError? || answer.Crashed?)
      && (answer.Endpoint? ==>
            && answer.view.spec == spec && spec in stored
            && Shows(entries, live, answer.view) && !answer.view.state.ViewPending?)
      && EnsureError(before, spec, answer)
    case InspectEndpoint(id) =>
      if HasId(stored, id) then
        && answer.Endpoint? && answer.view.spec in stored && answer.view.spec.endpointId == id
        && Shows(entries, live, answer.view)
      else
        answer == ApiError(EndpointNotFound)
    case ListEndpoints =>
      if allocates then
        && answer.Endpoints? && |answer.views| == |stored|
        && forall k | 0 <= k < |stored| :: answer.views[k].spec == stored[k] && Shows(entries, live, answer.views[k])
      else
        answer == ApiError(OutOfMemory)
    case ReleaseEndpoint(id) =>
      && (answer.Released? || answer.ApiError? || answer.Crashed?)
      && (!answer.Crashed? ==> (answer.Released? <==> !HasId(stored, id)))
      && (answer.Released? ==> (answer.stopping <==> FindId(entries, id) < |entries|))
      && (answer.ApiError? ==> answer.error.Foreign?)
  }

  /** Answers a request.  What the answers say is true of the registry, and a crash at any step of it
      leaves the list before or the list it wrote. */
  method Dispatch(registry: Registry, request: Request, allocates: bool) returns (answer: Answer)
    requires registry.Valid()
    modifies registry, registry.store, registry.backend
    ensures registry.store.Valid() && GoodHistory(registry.store.durable)
    ensures !answer.Crashed? ==> registry.Valid()
    ensures !answer.Silent?
    ensures BeforeOrAfter(old(registry.store.durable), registry.store.durable, Written(request, old(registry.store.Stored())))
    ensures answer.ApiError? ==> registry.store.durable == old(registry.store.durable)
    ensures answer.ApiError? ==>
              || request.InspectEndpoint? || request.ListEndpoints?
              || (request.EnsureEndpoint? && RefusedFor(old(registry.entries), request.spec, answer.error))
              || Some(answer.error) == StoreError(old(registry.store.outcomes))
    ensures Truthful(request, allocates, answer, old(registry.entries), registry.entries, registry.store.Stored(), registry.backend.live)
  {
    hide Tells, Shows, Runs, Desired, HasId, EnsureError, GoodHistory, Decoded;
    match request {
      case EnsureEndpoint(spec) =>
        answer := AnswerEnsure(registry, spec);
      case InspectEndpoint(id) =>
        var inspected := registry.Inspect(id);
        if inspected.Ok? {
          ShownById(registry.entries, registry.backend.live, id, inspected.value);
        }
        return match inspected case Ok(view) => Endpoint(view) case Err(error) => ApiError(error);
      case ListEndpoints =>
        var listed := registry.List(allocates);
        return match listed case Ok(views) => Endpoints(views) case Err(error) => ApiError(error);
      case ReleaseEndpoint(id) =>
        answer := AnswerRelease(registry, id);
    }
  }

  lemma ShownById(entries: seq<Entry>, live: map<nat, Running>, id: Id, view: View)
    requires GoodEntries(entries) && HasId(Desired(entries), id)
    requires FindId(entries, id) < |entries| && Tells(view, entries[FindId(entries, id)], live)
    ensures Shows(entries, live, view)
  {
    StoredIffDesired(entries, id);
  }

  /** An `ensure` is answered with an error exactly for one of the reasons to refuse, with that reason's
      error, or because the store failed to take a new endpoint, with the store's error. */
  ghost predicate EnsureError(entries: seq<Entry>, spec: Spec, answer: Answer) {
    && (forall error | RefusedFor(entries, spec, error) :: answer == ApiError(error))
    && (answer.ApiError? && !RefusedFor(entries, spec, answer.error) ==>
          answer.error.Foreign? && forall i | 0 <= i < |entries| :: Apart(entries[i], spec))
  }

  predicate IsRefusal(error: Error) {
    error.EndpointConflict? || error.PoolBusy? || error.EndpointStopping? || error.InvalidEndpointSpec? || error.TooManyEndpoints?
  }

  /** An endpoint stored but not started is answered with its state, not with the error. */
  method AnswerEnsure(registry: Registry, spec: Spec) returns (answer: Answer)
    requires registry.Valid()
    modifies registry, registry.store, registry.backend
    ensures registry.store.Valid() && GoodHistory(registry.store.durable)
    ensures !answer.Crashed? ==> registry.Valid()
    ensures answer.Endpoint? || answer.ApiError? || answer.Crashed?
    ensures BeforeOrAfter(old(registry.store.durable), registry.store.durable, Some(old(registry.store.Stored()) + [spec]))
    ensures answer.Endpoint? ==> answer.view.spec == spec && spec in registry.store.Stored() && !answer.view.state.ViewPending?
    ensures answer.Endpoint? ==> Shows(registry.entries, registry.backend.live, answer.view)
    ensures answer.ApiError? ==> registry.store.durable == old(registry.store.durable)
    ensures EnsureError(old(registry.entries), spec, answer)
    ensures answer.ApiError? ==>
              RefusedFor(old(registry.entries), spec, answer.error) || Some(answer.error) == StoreError(old(registry.store.outcomes))
  {
    hide Runs, Desired, GoodHistory, GoodList, FirstClash, HasId, ValidSpec, Decoded, RefusedFor, Tells, Shows, EnsureError, Admit, FindId, GoodEntries, Clashes;
    ghost var before := registry.entries;
    ghost var verdict := Admit(registry.entries, spec);
    var ensured := registry.Ensure(spec);
    EnsureErrors(before, spec, ensured);
    if ensured == Err(Crash) {
      return Crashed;
    }
    ghost var at := if verdict.Known? then verdict.index else |before|;
    assert ensured.Ok? || (!verdict.Refuse? && registry.store.durable != old(registry.store.durable)) ==>
        at < |registry.entries| && registry.entries[at].desired && registry.entries[at].spec == spec;
    if ensured.Ok? {
      DesiredHas(registry.entries, at);
      Told(registry.entries, registry.backend.live, at, ensured.value);
      return Endpoint(ensured.value);
    }
    if IsRefusal(ensured.error) {
      return ApiError(ensured.error);
    }
    NotRefused(before, spec, ensured.error);
    NoneKnown(before, spec);
    answer := AnswerUnstarted(registry, spec, ensured.error, at);
  }

  /** The answer after an `ensure` that failed and was not refused: the endpoint's state if it is stored. */
  method AnswerUnstarted(registry: Registry, spec: Spec, error: Error, ghost at: nat) returns (answer: Answer)
    requires registry.Valid()
    requires if at < |registry.entries| then
               registry.entries[at].desired && registry.entries[at].spec == spec && registry.entries[at].phase.Failed?
             else FindId(registry.entries, spec.endpointId) == |registry.entries|
    ensures at >= |registry.entries| ==> answer == ApiError(error)
    ensures at < |registry.entries| ==>
              && answer.Endpoint? && answer.view.spec == spec && answer.view.state.ViewFailed? && spec in registry.store.Stored()
              && Shows(registry.entries, registry.backend.live, answer.view)
  {
    hide Runs, Desired, GoodHistory, GoodList, HasId, Decoded, Shows, GoodEntries;
    StoredIffDesired(registry.entries, spec.endpointId);
    if at < |registry.entries| {
      NoOther(registry.entries, at);
      DesiredHas(registry.entries, at);
      assert FindId(registry.entries, spec.endpointId) == at;
    }
    var inspected := registry.Inspect(spec.endpointId);
    if inspected.Ok? {
      Told(registry.entries, registry.backend.live, at, inspected.value);
      return Endpoint(inspected.value);
    }
    return ApiError(error);
  }

  lemma Told(entries: seq<Entry>, live: map<nat, Running>, i: nat, view: View)
    requires GoodEntries(entries) && i < |entries| && entries[i].desired && Tells(view, entries[i], live)
    ensures Shows(entries, live, view) && view.spec == entries[i].spec && (entries[i].runtime.Some? || entries[i].phase.Failed? ==> !view.state.ViewPending?)
  {
    SoundAt(entries, i);
  }

  /** What the answer must be, given what the registry said. */
  lemma EnsureErrors(entries: seq<Entry>, spec: Spec, ensured: Result<View, Error>)
    requires forall error | RefusedFor(entries, spec, error) :: ensured == Err(error)
    requires ensured.Err? ==> ensured.error.Foreign? || ensured.error == InvalidLocator || ensured.error == Crash
                              || RefusedFor(entries, spec, ensured.error)
    ensures ensured.Err? && IsRefusal(ensured.error) ==>
              EnsureError(entries, spec, ApiError(ensured.error)) && Admit(entries, spec) == Refuse(ensured.error)
    ensures ensured.Ok? || !IsRefusal(ensured.error) ==> forall error :: !RefusedFor(entries, spec, error)
    ensures ensured.Ok? || !IsRefusal(ensured.error) ==>
              forall answer: Answer | !answer.ApiError? :: EnsureError(entries, spec, answer)
    ensures ensured.Err? && ensured.error.Foreign? && Admit(entries, spec).New? ==>
              EnsureError(entries, spec, ApiError(ensured.error))
  {
    hide Desired, FirstClash, ValidSpec;
    forall error | RefusedFor(entries, spec, error) ensures IsRefusal(error) {
    }
    AdmitMeans(entries, spec, if ensured.Err? then ensured.error else InvalidEndpointSpec);
  }

  lemma NotRefused(entries: seq<Entry>, spec: Spec, error: Error)
    requires !IsRefusal(error)
    ensures Admit(entries, spec) != Refuse(error)
  {
  }

  /** A new endpoint has no entry. */
  lemma NoneKnown(entries: seq<Entry>, spec: Spec)
    ensures Admit(entries, spec).New? ==> FindId(entries, spec.endpointId) == |entries|
  {
  }

  /** A release whose stop failed is answered as released, still stopping. */
  method AnswerRelease(registry: Registry, id: Id) returns (answer: Answer)
    requires registry.Valid()
    modifies registry, registry.store, registry.backend
    ensures registry.store.Valid() && GoodHistory(registry.store.durable)
    ensures answer.Released? || answer.ApiError? || answer.Crashed?
    ensures !answer.Crashed? ==> registry.Valid()
    ensures BeforeOrAfter(old(registry.store.durable), registry.store.durable, Some(Without(old(registry.store.Stored()), id)))
    ensures !answer.Crashed? ==> (answer.Released? <==> !HasId(registry.store.Stored(), id))
    ensures answer.Released? ==> (answer.stopping <==> FindId(registry.entries, id) < |registry.entries|)
    ensures answer.ApiError? ==> registry.store.durable == old(registry.store.durable) && answer.error.Foreign?
    ensures answer.ApiError? ==> Some(answer.error) == StoreError(old(registry.store.outcomes))
  {
    hide Runs, Desired, GoodHistory, GoodList, HasId, ValidSpec, Without, Decoded, AfterRelease, Dropped;
    ghost var before, live, durable := registry.entries, registry.backend.live, registry.store.durable;
    ghost var at := FindId(before, id);
    var released := registry.Release(id);
    if at < |before| {
      ReleasedLists(before, at, registry.entries, durable, registry.store.durable, live, registry.backend.live, released);
    }
    if released == Some(Crash) {
      return Crashed;
    }
    StoredIffDesired(registry.entries, id);
    if released.Some? {
      ReleasedLeaves(before, at, registry.entries, durable, registry.store.durable, live, registry.backend.live, released);
      var inspected := registry.Inspect(id);
      if inspected.Err? {
        return Released(true);
      }
      return ApiError(released.value);
    }
    if at < |before| {
      ReleasedLeaves(before, at, registry.entries, durable, registry.store.durable, live, registry.backend.live, released);
    }
    return Released(false);
  }

  lemma ReleasedLists(before: seq<Entry>, i: nat, after: seq<Entry>, durableBefore: seq<seq<Spec>>, durable: seq<seq<Spec>>,
                      liveBefore: map<nat, Running>, live: map<nat, Running>, r: Option<Error>)
    requires i < |before| && durableBefore != []
    requires AfterRelease(before, i, after, durableBefore, durable, liveBefore, live, r)
    ensures BeforeOrAfter(durableBefore, durable, Some(Without(durableBefore[|durableBefore| - 1], before[i].spec.endpointId)))
    ensures r.Some? ==> r.value.Foreign? || r.value == Crash
  {
    hide Without;
  }

  /** A release that succeeds leaves no entry of the endpoint.  One that fails leaves it in its place,
      and if it is still desired then nothing durable has changed. */
  lemma ReleasedLeaves(before: seq<Entry>, i: nat, after: seq<Entry>, durableBefore: seq<seq<Spec>>, durable: seq<seq<Spec>>,
                       liveBefore: map<nat, Running>, live: map<nat, Running>, r: Option<Error>)
    requires GoodEntries(before) && i < |before| && durableBefore != [] && r != Some(Crash)
    requires AfterRelease(before, i, after, durableBefore, durable, liveBefore, live, r)
    ensures var at := FindId(after, before[i].spec.endpointId);
            if r.None? then at == |after|
            else at == i && at < |after| && (after[at].desired ==> durable == durableBefore && before[i].desired)
  {
    hide Without, GoodEntries, FindId;
    if r.None? {
      RemovedHasNone(before, i);
    } else {
      KeptHas(before, i, after);
    }
  }

  lemma KeptHas(before: seq<Entry>, i: nat, after: seq<Entry>)
    requires GoodEntries(before) && i < |before|
    requires |after| == |before| && after[i].spec == before[i].spec && after == before[i := after[i]]
    ensures FindId(after, before[i].spec.endpointId) == i
  {
    NoOther(before, i);
  }

  lemma RemovedHasNone(entries: seq<Entry>, i: nat)
    requires GoodEntries(entries) && i < |entries|
    ensures FindId(Removed(entries, i), entries[i].spec.endpointId) == |entries| - 1
  {
    NoOther(entries, i);
  }

  // ---------------------------------------------------------------------------------------------
  // Runs
  // ---------------------------------------------------------------------------------------------

  /** The process may end between events, and inside one wherever the store or the backend is called;
      the daemon then starts again from the file. */
  datatype Event = Serve(request: Request, allocates: bool) | ReconcileAll | ShutDown | CrashNow

  function WrittenBy(event: Event, stored: seq<Spec>): Option<seq<Spec>> {
    if event.Serve? then Written(event.request, stored) else None
  }

  /** Starts the daemon and runs it through any events, whatever the store and the backend answer and
      wherever the process ends.  A restart is refused only when 1024 endpoints are stored and a file of
      exactly the read limit cannot be read. */
  method Run(store: Store, backend: Backend, utf8: seq<Byte> -> bool, events: seq<Event>)
    returns (refused: bool, answers: seq<Answer>)
    requires store.Valid() && GoodHistory(store.durable) && backend.live == map[]
    modifies store, backend
    ensures store.Valid() && GoodHistory(store.durable) && old(store.durable) <= store.durable
    ensures refused ==> |store.Stored()| == MAX_ENDPOINTS && !store.limitReadable
    ensures !refused ==> |answers| == |events|
    ensures |store.durable| - |old(store.durable)| <= |events|
  {
    hide GoodHistory, Decoded, Runs, GoodEntries, Desired, GoodList;
    answers := [];
    var registry: Registry;
    LastGood(store.durable);
    refused, registry := Restart(store, backend, utf8);
    var index: nat := 0;
    while index < |events| && !refused
      invariant index <= |events| && store.Valid() && GoodHistory(store.durable) && old(store.durable) <= store.durable
      invariant refused ==> |store.Stored()| == MAX_ENDPOINTS && !store.limitReadable
      invariant !refused ==> fresh(registry) && registry.store == store && registry.backend == backend && registry.Valid()
      invariant |answers| == index && |store.durable| - |old(store.durable)| <= index
    {
      var answer := Handle(registry, events[index]);
      answers := answers + [answer];
      if answer.Crashed? {
        backend.Exit();
        LastGood(store.durable);
        refused, registry := Restart(store, backend, utf8);
      }
      index := index + 1;
    }
  }

  /** One event, to its end or to a crash anywhere inside it: the stored list is then the one before or
      the one the operation wrote. */
  method Handle(registry: Registry, event: Event) returns (answer: Answer)
    requires registry.Valid()
    modifies registry, registry.store, registry.backend
    ensures registry.store.Valid() && GoodHistory(registry.store.durable)
    ensures !answer.Crashed? ==> registry.Valid()
    ensures BeforeOrAfter(old(registry.store.durable), registry.store.durable, WrittenBy(event, old(registry.store.Stored())))
    ensures registry.store.Stored() == old(registry.store.Stored())
            || Some(registry.store.Stored()) == WrittenBy(event, old(registry.store.Stored()))
    ensures event.Serve? ==>
              Truthful(event.request, event.allocates, answer, old(registry.entries),
                       registry.entries, registry.store.Stored(), registry.backend.live)
    ensures event.CrashNow? ==> answer.Crashed?
    ensures event.ReconcileAll? || event.ShutDown? ==> answer.Silent? || answer.Crashed?
  {
    hide GoodHistory, Decoded, Runs, GoodEntries, Desired, GoodList, Without, Truthful;
    match event {
      case Serve(request, allocates) =>
        answer := Dispatch(registry, request, allocates);
      case ReconcileAll =>
        var started, failed, crashed := registry.Reconcile();
        return if crashed then Crashed else Silent;
      case ShutDown =>
        var error := registry.Shutdown();
        return if error == Some(Crash) then Crashed else Silent;
      case CrashNow =>
        return Crashed;
    }
  }

  /** A good stored list starts the registry, except a full one whose file may not be read. */
  method Restart(store: Store, backend: Backend, utf8: seq<Byte> -> bool) returns (refused: bool, registry: Registry)
    requires store.Valid() && GoodList(store.Stored()) && backend.live == map[]
    ensures fresh(registry)
    ensures refused <==> |store.Stored()| == MAX_ENDPOINTS && !store.limitReadable
    ensures !refused ==> registry.store == store && registry.backend == backend
    ensures !refused ==> registry.entries == Restarted(store.Stored())
    ensures !refused && GoodHistory(store.durable) ==> registry.Valid()
  {
    hide Decoded, Runs, GoodEntries, Desired, GoodHistory;
    store.ReadableUnlessFull();
    var made := Registry.Init(store, backend, utf8);
    if made.Err? {
      refused := true;
      registry := new Registry(store, backend, utf8, []);
    } else {
      refused, registry := false, made.value;
    }
  }

  /** Whichever of the lists the file has held a crash leaves in it, the registry starts from that list. */
  method RestartFrom(history: seq<seq<Spec>>, k: nat, store: Store, backend: Backend, utf8: seq<Byte> -> bool)
    returns (refused: bool, registry: Registry)
    requires GoodHistory(history) && k < |history| && store.Valid() && store.Stored() == history[k] && backend.live == map[]
    ensures fresh(registry)
    ensures refused <==> |history[k]| == MAX_ENDPOINTS && !store.limitReadable
    ensures !refused ==> registry.store == store && registry.entries == Restarted(history[k])
  {
    hide Decoded, GoodList;
    refused, registry := Restart(store, backend, utf8);
  }
}
