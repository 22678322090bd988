/** The endpoint registry: desired endpoints are made durable before they are acted on, and the
    running instances follow them.  The store's and the backend's answers come from scripts, so that
    every result below holds whatever fails and whenever. */
module EndpointRegistry {
  import opened Wrappers
  import opened Bytes
  import opened Collections
  import opened Codec

  const MAX_LOCATOR_COMPONENT: nat := 256

  datatype Error =
    | EndpointStopping | EndpointConflict | PoolBusy | TooManyEndpoints | EndpointNotFound
    | InvalidEndpointSpec | InvalidDesiredState | InvalidLocator
    | InvalidFile(reason: CodecError)
    | OutOfMemory
    | Foreign(code: nat) // from the store, the backend or the allocator
    | Crash              // the process ends, by a panic or at any moment

  datatype Locator = Locator(traddr: seq<Byte>, trsvcid: seq<Byte>, nqn: seq<Byte>, nsid: nat)

  datatype Instance = Instance(handle: nat, locator: Locator)

  /** An instance as the backend runs it. */
  datatype Running = Running(spec: Spec, locator: Locator)

  datatype Phase = Pending | Active | Failed | Stopping

  datatype Entry = Entry(spec: Spec, desired: bool, phase: Phase, runtime: Option<Instance>)

  datatype ViewState = ViewPending | ViewActive | ViewFailed

  datatype View = View(spec: Spec, state: ViewState, locator: Option<Locator>)

  // ---------------------------------------------------------------------------------------------
  // Lists of endpoints
  // ---------------------------------------------------------------------------------------------

  predicate ValidSpec(spec: Spec) {
    !IsZero(spec.endpointId) && !IsZero(spec.poolId) && !IsZero(spec.volumeId)
  }

  predicate Clashes(a: Spec, b: Spec) {
    a.endpointId == b.endpointId || a.poolId == b.poolId
  }

  /** What a desired-state list must be. */
  ghost predicate GoodList(specs: seq<Spec>) {
    && |specs| <= MAX_ENDPOINTS
    && (forall i | 0 <= i < |specs| :: ValidSpec(specs[i]))
    && (forall i, j | 0 <= i < j < |specs| :: !Clashes(specs[i], specs[j]))
  }

  ghost predicate HasId(specs: seq<Spec>, id: Id) {
    exists i :: 0 <= i < |specs| && specs[i].endpointId == id
  }

  /** The list without the endpoint. */
  function Without(specs: seq<Spec>, id: Id): seq<Spec> {
    if specs == [] then []
    else if specs[0].endpointId == id then Without(specs[1..], id)
    else [specs[0]] + Without(specs[1..], id)
  }

  lemma {:induction false} WithoutConcat(a: seq<Spec>, b: seq<Spec>, id: Id)
    ensures Without(a + b, id) == Without(a, id) + Without(b, id)
  {
    if a == [] {
      assert a + b == b;
    } else {
      var rest := a[1..];
      WithoutConcat(rest, b, id);
      assert a + b == [a[0]] + (rest + b);
      assert (a + b)[1..] == rest + b;
    }
  }

  lemma {:induction false} WithoutLacks(specs: seq<Spec>, id: Id)
    ensures forall k | 0 <= k < |Without(specs, id)| :: Without(specs, id)[k].endpointId != id
  {
    if specs != [] {
      WithoutLacks(specs[1..], id);
    }
  }

  lemma {:induction false} WithoutAbsent(specs: seq<Spec>, id: Id)
    requires forall k | 0 <= k < |specs| :: specs[k].endpointId != id
    ensures Without(specs, id) == specs
  {
    if specs != [] {
      WithoutAbsent(specs[1..], id);
    }
  }

  // ---------------------------------------------------------------------------------------------
  // Entries
  // ---------------------------------------------------------------------------------------------

  /** The specs of the desired entries, in order. */
  function Desired(entries: seq<Entry>): seq<Spec> {
    if entries == [] then []
    else if entries[0].desired then [entries[0].spec] + Desired(entries[1..])
    else Desired(entries[1..])
  }

  lemma {:induction false} DesiredConcat(a: seq<Entry>, b: seq<Entry>)
    ensures Desired(a + b) == Desired(a) + Desired(b)
  {
    if a == [] {
      assert a + b == b;
    } else {
      DesiredConcat(a[1..], b);
      assert (a + b)[1..] == a[1..] + b;
    }
  }

  function Single(entry: Entry): (r: seq<Spec>)
    ensures r == Desired([entry])
  {
    assert [entry][1..] == [];
    if entry.desired then [entry.spec] else []
  }

  /** One entry split off. */
  lemma DesiredSplit(entries: seq<Entry>, i: nat)
    requires i < |entries|
    ensures Desired(entries) == Desired(entries[..i]) + Single(entries[i]) + Desired(entries[i + 1..])
  {
    hide Desired;
    SplitOne(entries, i);
    DesiredConcat(entries[..i] + [entries[i]], entries[i + 1..]);
    DesiredConcat(entries[..i], [entries[i]]);
  }

  lemma DesiredReplaced(entries: seq<Entry>, i: nat, entry: Entry)
    requires i < |entries|
    ensures Desired(entries[i := entry]) == Desired(entries[..i]) + Single(entry) + Desired(entries[i + 1..])
  {
    var changed := entries[i := entry];
    DesiredSplit(changed, i);
    assert changed[..i] == entries[..i] && changed[i + 1..] == entries[i + 1..];
  }

  function Removed(entries: seq<Entry>, i: nat): seq<Entry>
    requires i < |entries|
  {
    entries[..i] + entries[i + 1..]
  }

  lemma DesiredRemoved(entries: seq<Entry>, i: nat)
    requires i < |entries|
    ensures Desired(Removed(entries, i)) == Desired(entries[..i]) + Desired(entries[i + 1..])
  {
    DesiredConcat(entries[..i], entries[i + 1..]);
  }

  /** Each desired spec is a desired entry's, and the other way round. */
  lemma {:induction false} DesiredAt(entries: seq<Entry>, k: nat) returns (i: nat)
    requires k < |Desired(entries)|
    ensures i < |entries| && entries[i].desired && entries[i].spec == Desired(entries)[k]
    ensures k == |Desired(entries[..i])|
    decreases |entries|
  {
    if entries[0].desired && k == 0 {
      i := 0;
      assert entries[..0] == [];
    } else {
      var j := DesiredAt(entries[1..], if entries[0].desired then k - 1 else k);
      i := j + 1;
      assert entries[..i] == [entries[0]] + entries[1..][..j];
      DesiredConcat([entries[0]], entries[1..][..j]);
      var single := Single(entries[0]);
    }
  }

  lemma DesiredHas(entries: seq<Entry>, i: nat)
    requires i < |entries| && entries[i].desired
    ensures entries[i].spec in Desired(entries)
  {
    DesiredSplit(entries, i);
  }

  /** What an entry's fields say together. */
  predicate Sound(entry: Entry) {
    && ValidSpec(entry.spec)
    && (entry.phase.Stopping? <==> !entry.desired)
    && (entry.phase.Stopping? || entry.phase.Active? ==> entry.runtime.Some?)
    && (entry.phase.Pending? ==> entry.runtime.None?)
  }

  ghost predicate GoodEntries(entries: seq<Entry>) {
    && (forall i | 0 <= i < |entries| :: Sound(entries[i]))
    && (forall i, j | 0 <= i < j < |entries| :: !Clashes(entries[i].spec, entries[j].spec))
    && |Desired(entries)| <= MAX_ENDPOINTS
  }

  /** The desired specs of good entries are a good list. */
  lemma GoodDesired(entries: seq<Entry>)
    requires GoodEntries(entries)
    ensures GoodList(Desired(entries))
  {
    var specs := Desired(entries);
    forall k | 0 <= k < |specs| ensures ValidSpec(specs[k]) {
      var i := DesiredAt(entries, k);
      assert Sound(entries[i]);
    }
    forall k, l | 0 <= k < l < |specs| ensures !Clashes(specs[k], specs[l]) {
      var i := DesiredAt(entries, k);
      var j := DesiredAt(entries, l);
      if j <= i {
        PrefixShorter(entries, j, i);
      }
    }
  }

  lemma PrefixShorter(entries: seq<Entry>, j: nat, i: nat)
    requires j <= i <= |entries|
    ensures |Desired(entries[..j])| <= |Desired(entries[..i])|
  {
    assert entries[..i] == entries[..j] + entries[j..i];
    DesiredConcat(entries[..j], entries[j..i]);
  }

  // ---------------------------------------------------------------------------------------------
  // Running instances
  // ---------------------------------------------------------------------------------------------

  ghost predicate RunsAs(entry: Entry, handle: nat) {
    entry.runtime.Some? && entry.runtime.value.handle == handle
  }

  function AsRunning(entry: Entry): Running
    requires entry.runtime.Some?
  {
    Running(entry.spec, entry.runtime.value.locator)
  }

  /** The live instances are exactly the entries' handles, each serving its entry's spec at its entry's
      locator, and no two entries share one. */
  ghost predicate Runs(entries: seq<Entry>, live: map<nat, Running>) {
    && (forall i | 0 <= i < |entries| && entries[i].runtime.Some? ::
          entries[i].runtime.value.handle in live && live[entries[i].runtime.value.handle] == AsRunning(entries[i]))
    && (forall h | h in live :: exists i :: 0 <= i < |entries| && RunsAs(entries[i], h))
    && (forall i, j, h | 0 <= i < j < |entries| && RunsAs(entries[i], h) :: !RunsAs(entries[j], h))
  }

  lemma RunsStarted(entries: seq<Entry>, live: map<nat, Running>, i: nat, entry: Entry, handle: nat)
    requires Runs(entries, live) && i < |entries| && entries[i].runtime.None? && handle !in live
    requires RunsAs(entry, handle) && entry.spec == entries[i].spec
    ensures Runs(entries[i := entry], live[handle := AsRunning(entry)])
  {
    var now, alive := entries[i := entry], live[handle := AsRunning(entry)];
    forall h | h in alive ensures exists j :: 0 <= j < |now| && RunsAs(now[j], h) {
      if h == handle {
        assert RunsAs(now[i], h);
      } else {
        var j :| 0 <= j < |entries| && RunsAs(entries[j], h);
        assert RunsAs(now[j], h);
      }
    }
    forall j, k, h | 0 <= j < k < |now| && RunsAs(now[j], h) ensures !RunsAs(now[k], h) {
      if j != i && k != i {
        assert RunsAs(entries[j], h);
      }
    }
  }

  lemma RunsRephased(entries: seq<Entry>, live: map<nat, Running>, i: nat, entry: Entry)
    requires Runs(entries, live) && i < |entries| && entry.spec == entries[i].spec && entry.runtime == entries[i].runtime
    ensures Runs(entries[i := entry], live)
  {
    var now := entries[i := entry];
    forall h | h in live ensures exists j :: 0 <= j < |now| && RunsAs(now[j], h) {
      var j :| 0 <= j < |entries| && RunsAs(entries[j], h);
      assert RunsAs(now[j], h);
    }
    forall j, k, h | 0 <= j < k < |now| && RunsAs(now[j], h) ensures !RunsAs(now[k], h) {
      assert RunsAs(entries[j], h);
    }
  }

  lemma RunsStopped(entries: seq<Entry>, live: map<nat, Running>, i: nat, entry: Entry, handle: nat)
    requires Runs(entries, live) && i < |entries| && RunsAs(entries[i], handle)
    requires entry.spec == entries[i].spec && entry.runtime.None?
    ensures handle in live && Runs(entries[i := entry], live - {handle})
  {
    var now, alive := entries[i := entry], live - {handle};
    forall j | 0 <= j < |now| && now[j].runtime.Some?
      ensures now[j].runtime.value.handle in alive && alive[now[j].runtime.value.handle] == AsRunning(now[j])
    {
      assert RunsAs(entries[j], entries[j].runtime.value.handle);
    }
    forall h | h in alive ensures exists j :: 0 <= j < |now| && RunsAs(now[j], h) {
      var j :| 0 <= j < |entries| && RunsAs(entries[j], h);
      assert RunsAs(now[j], h);
    }
    forall j, k, h | 0 <= j < k < |now| && RunsAs(now[j], h) ensures !RunsAs(now[k], h) {
      assert RunsAs(entries[j], h);
    }
  }

  /** Where an entry was before one at `i` was removed. */
  function Was(i: nat, j: nat): nat {
    if j < i then j else j + 1
  }

  lemma RemovedAt(entries: seq<Entry>, i: nat, j: nat)
    requires i < |entries| && j < |entries| - 1
    ensures Removed(entries, i)[j] == entries[Was(i, j)]
  {
  }

  lemma RunsRemoved(entries: seq<Entry>, live: map<nat, Running>, i: nat)
    requires Runs(entries, live) && i < |entries| && entries[i].runtime.None?
    ensures Runs(Removed(entries, i), live)
  {
    var now := Removed(entries, i);
    forall j | 0 <= j < |now| ensures now[j] == entries[Was(i, j)] {
      RemovedAt(entries, i, j);
    }
    hide Removed;
    forall h | h in live ensures exists j :: 0 <= j < |now| && RunsAs(now[j], h) {
      var j :| 0 <= j < |entries| && RunsAs(entries[j], h);
      assert RunsAs(now[if j < i then j else j - 1], h);
    }
    forall j, k, h | 0 <= j < k < |now| && RunsAs(now[j], h) ensures !RunsAs(now[k], h) {
      assert RunsAs(entries[Was(i, j)], h);
    }
  }

  lemma RunsAppended(entries: seq<Entry>, live: map<nat, Running>, entry: Entry)
    requires Runs(entries, live) && entry.runtime.None?
    ensures Runs(entries + [entry], live)
  {
    var now := entries + [entry];
    forall h | h in live ensures exists j :: 0 <= j < |now| && RunsAs(now[j], h) {
      var j :| 0 <= j < |entries| && RunsAs(entries[j], h);
      assert RunsAs(now[j], h);
    }
    forall j, k, h | 0 <= j < k < |now| && RunsAs(now[j], h) ensures !RunsAs(now[k], h) {
      assert RunsAs(entries[j], h);
    }
  }

  // ---------------------------------------------------------------------------------------------
  // The store and the backend
  // ---------------------------------------------------------------------------------------------

  /** What becomes of a replace.  The process may end before the new bytes are in place or after. */
  datatype Outcome = Installs | Fails(code: nat) | CrashesBefore | CrashesAfter

  /** The desired-state file.  A replace either installs the new bytes whole or changes nothing. */
  class Store {
    const crc: Checksum
    /** Whether a file of exactly the read limit may be read. */
    const limitReadable: bool
    var file: Option<seq<Byte>>
    var outcomes: seq<Outcome>
    /** Every list the file has held, oldest first. */
    ghost var durable: seq<seq<Spec>>

    ghost predicate Valid()
      reads this
    {
      && (file.Some? ==> Decoded(file.value, crc).Ok?)
      && durable != [] && durable[|durable| - 1] == Stored()
    }

    ghost function Stored(): seq<Spec>
      reads this
    {
      if file.Some? && Decoded(file.value, crc).Ok? then Decoded(file.value, crc).value else []
    }

    constructor (crc: Checksum, limitReadable: bool, outcomes: seq<Outcome>)
      ensures Valid() && Stored() == [] && durable == [[]]
      ensures this.crc == crc && this.limitReadable == limitReadable && this.outcomes == outcomes
    {
      this.crc, this.limitReadable, this.outcomes := crc, limitReadable, outcomes;
      file, durable := None, [[]];
    }

    method Replace(specs: seq<Spec>) returns (r: Option<Error>)
      requires Valid()
      modifies this
      ensures Valid()
      ensures r.None? ==> |specs| <= MAX_ENDPOINTS && Stored() == specs && durable == old(durable) + [specs]
      ensures r.Some? && r.value != Crash ==> file == old(file) && durable == old(durable)
      ensures r == Some(Crash) ==>
                || (file == old(file) && durable == old(durable))
                || (|specs| <= MAX_ENDPOINTS && Stored() == specs && durable == old(durable) + [specs])
      ensures r.Some? ==> r.value.Foreign? || r.value == Crash || (r.value.TooManyEndpoints? && |specs| > MAX_ENDPOINTS)
      ensures |specs| > MAX_ENDPOINTS ==> r == Some(Error.TooManyEndpoints)
      ensures |specs| <= MAX_ENDPOINTS ==> r == StoreError(old(outcomes))
      ensures |specs| <= MAX_ENDPOINTS && old(outcomes) != [] ==> outcomes == old(outcomes)[1..]
    {
      hide Decoded, Encoded;
      var bytes := Encode(specs, crc);
      if bytes.Err? {
        return Some(Error.TooManyEndpoints);
      }
      var outcome := Fails(0);
      if outcomes != [] {
        outcome, outcomes := outcomes[0], outcomes[1..];
      }
      if outcome.Fails? {
        return Some(Foreign(outcome.code));
      }
      if outcome.CrashesBefore? {
        return Some(Crash);
      }
      file, durable := Some(bytes.value), durable + [specs];
      DecodeOfEncode(specs, crc);
      return if outcome.CrashesAfter? then Some(Crash) else None;
    }

    /** Whether the read limit lets the file be read. */
    ghost predicate Readable()
      reads this
    {
      file.Some? ==> |file.value| < MAX_STATE_BYTES || (|file.value| == MAX_STATE_BYTES && limitReadable)
    }

    ghost predicate Decodable()
      reads this
    {
      file.Some? ==> Decoded(file.value, crc).Ok?
    }

    /** A missing file holds no endpoints. */
    method Load() returns (r: Result<seq<Spec>, Error>)
      ensures r.Ok? <==> Readable() && Decodable()
      ensures r.Ok? ==> r.value == Stored()
      ensures Readable() && !Decodable() ==> r == Err(InvalidFile(Decoded(file.value, crc).error))
    {
      hide Decoded;
      if file.None? {
        return Ok([]);
      }
      if |file.value| > MAX_STATE_BYTES || (|file.value| == MAX_STATE_BYTES && !limitReadable) {
        return Err(Foreign(0));
      }
      var decoded := Decode(file.value, crc);
      if decoded.Err? {
        return Err(InvalidFile(decoded.error));
      }
      return Ok(decoded.value);
    }

    /** Only a full list can be unreadable, and only if the limit itself is. */
    lemma ReadableUnlessFull()
      requires Valid()
      ensures Readable() <==> limitReadable || |Stored()| < MAX_ENDPOINTS
    {
      hide Decoded, Encoded, Records, Head, Little;
      if file.Some? {
        EncodeOfDecode(file.value, crc);
        EncodedParts(Stored(), crc);
      }
    }
  }

  /** The process may end inside a call. */
  datatype Reply = Started(locator: Locator) | Stopped | Refused(code: nat) | Dies

  /** The backend's reply number `k`; it refuses when it has no more. */
  function ReplyAt(replies: seq<Reply>, k: nat): Reply {
    if k < |replies| then replies[k] else Refused(0)
  }

  function Rest(replies: seq<Reply>, n: nat): seq<Reply> {
    if n <= |replies| then replies[n..] else []
  }

  lemma RestTwice(replies: seq<Reply>, m: nat, n: nat)
    ensures Rest(Rest(replies, m), n) == Rest(replies, m + n) && ReplyAt(Rest(replies, m), n) == ReplyAt(replies, m + n)
  {
  }

  /** What a stop that is given the reply ends with. */
  function StopError(reply: Reply): Option<Error> {
    match reply
    case Stopped => None
    case Dies => Some(Crash)
    case Refused(code) => Some(Foreign(code))
    case Started(_) => Some(Foreign(0))
  }

  /** What starting an instance ends with.  One whose locator is not valid is stopped again, and if that
      does not work the process ends. */
  function StartError(replies: seq<Reply>, utf8: seq<Byte> -> bool): Option<Error> {
    match ReplyAt(replies, 0)
    case Started(locator) =>
      if ValidLocator(locator, utf8) then None
      else if ReplyAt(replies, 1).Stopped? then Some(InvalidLocator) else Some(Crash)
    case Dies => Some(Crash)
    case Refused(code) => Some(Foreign(code))
    case Stopped => Some(Foreign(0))
  }

  /** What replacing the list ends with. */
  function StoreError(outcomes: seq<Outcome>): Option<Error> {
    if outcomes == [] then Some(Foreign(0))
    else match outcomes[0]
         case Installs => None
         case Fails(code) => Some(Foreign(code))
         case _ => Some(Crash)
  }

  /** What releasing an entry ends with: the store's failure if it is still stored, else the stop's. */
  function ReleaseError(entry: Entry, outcomes: seq<Outcome>, replies: seq<Reply>): Option<Error> {
    if entry.desired && StoreError(outcomes).Some? then StoreError(outcomes)
    else if entry.runtime.Some? then StopError(ReplyAt(replies, 0))
    else None
  }

  /** The first of so many stops that failed, if none ended the process. */
  function FirstStopError(replies: seq<Reply>, n: nat): Option<Error> {
    if n == 0 then None
    else
      var before := FirstStopError(replies, n - 1);
      if before.Some? then before else StopError(ReplyAt(replies, n - 1))
  }

  ghost predicate DiesWithin(replies: seq<Reply>, n: nat) {
    exists k: nat :: k < n && ReplyAt(replies, k).Dies?
  }

  /** A reply that ends the process if it answers a start. */
  ghost predicate EndsProcess(replies: seq<Reply>, k: nat, utf8: seq<Byte> -> bool) {
    StartError(Rest(replies, k), utf8) == Some(Crash)
  }

  function CountRunning(entries: seq<Entry>): nat {
    if entries == [] then 0 else CountRunning(entries[..|entries| - 1]) + if entries[|entries| - 1].runtime.Some? then 1 else 0
  }

  /** The backend that runs endpoints; a failed start leaves nothing behind. */
  class Backend {
    var live: map<nat, Running>
    var replies: seq<Reply>

    constructor (replies: seq<Reply>)
      ensures live == map[] && this.replies == replies
    {
      live, this.replies := map[], replies;
    }

    method NextReply() returns (reply: Reply)
      modifies this`replies
      ensures reply == ReplyAt(old(replies), 0) && replies == Rest(old(replies), 1)
    {
      reply := Refused(0);
      if replies != [] {
        reply, replies := replies[0], replies[1..];
      }
    }

    method Start(spec: Spec) returns (r: Result<Instance, Error>)
      modifies this
      ensures r.Ok? ==> r.value.handle !in old(live) && live == old(live)[r.value.handle := Running(spec, r.value.locator)]
      ensures replies == Rest(old(replies), 1)
      ensures match ReplyAt(old(replies), 0)
              case Started(locator) => r.Ok? && r.value.locator == locator
              case Dies => r == Err(Crash)
              case Refused(code) => r == Err(Foreign(code))
              case Stopped => r == Err(Foreign(0))
      ensures r.Err? && r.error != Crash ==> live == old(live)
    {
      var reply := NextReply();
      if reply.Dies? {
        return Err(Crash);
      }
      if !reply.Started? {
        return Err(Foreign(if reply.Refused? then reply.code else 0));
      }
      var handle := NewHandle(live.Keys);
      live := live[handle := Running(spec, reply.locator)];
      return Ok(Instance(handle, reply.locator));
    }

    method Stop(handle: nat) returns (r: Option<Error>)
      requires handle in live
      modifies this
      ensures r.None? ==> live == old(live) - {handle}
      ensures r == StopError(ReplyAt(old(replies), 0)) && replies == Rest(old(replies), 1)
      ensures r.Some? && r.value != Crash ==> live == old(live)
    {
      var reply := NextReply();
      if reply.Dies? {
        return Some(Crash);
      }
      if !reply.Stopped? {
        return Some(Foreign(if reply.Refused? then reply.code else 0));
      }
      live := live - {handle};
      return None;
    }

    /** The process ends, and its instances with it. */
    method Exit()
      modifies this`live
      ensures live == map[]
    {
      live := map[];
    }
  }

  /** A number not in the set. */
  method NewHandle(used: set<nat>) returns (handle: nat)
    ensures handle !in used
  {
    handle := 0;
    var rest := used;
    while rest != {}
      invariant rest <= used && forall h | h in used :: h in rest || h < handle
      decreases |rest|
    {
      var h :| h in rest;
      rest := rest - {h};
      handle := Max(handle, h + 1);
    }
  }

  // ---------------------------------------------------------------------------------------------
  // Changes to good entries
  // ---------------------------------------------------------------------------------------------

  /** Entries as they are after a restart. */
  function Restarted(specs: seq<Spec>): (entries: seq<Entry>)
    ensures |entries| == |specs|
  {
    seq(|specs|, i requires 0 <= i < |specs| => Entry(specs[i], true, Pending, None))
  }

  lemma {:induction false} RestartedDesired(specs: seq<Spec>)
    ensures Desired(Restarted(specs)) == specs
  {
    if specs != [] {
      RestartedDesired(specs[1..]);
      assert Restarted(specs)[1..] == Restarted(specs[1..]);
    }
  }

  lemma RestartedGood(specs: seq<Spec>)
    requires GoodList(specs)
    ensures GoodEntries(Restarted(specs)) && Desired(Restarted(specs)) == specs && Runs(Restarted(specs), map[])
  {
    RestartedDesired(specs);
  }

  lemma GoodReplaced(entries: seq<Entry>, i: nat, entry: Entry)
    requires GoodEntries(entries) && i < |entries| && Sound(entry)
    requires entry.spec == entries[i].spec && entry.desired == entries[i].desired
    ensures GoodEntries(entries[i := entry]) && Desired(entries[i := entry]) == Desired(entries)
  {
    hide Sound, Clashes;
    DesiredReplaced(entries, i, entry);
    DesiredSplit(entries, i);
  }

  lemma GoodAppended(entries: seq<Entry>, entry: Entry)
    requires GoodEntries(entries) && Sound(entry) && entry.desired && |Desired(entries)| < MAX_ENDPOINTS
    requires forall i | 0 <= i < |entries| :: !Clashes(entries[i].spec, entry.spec)
    ensures GoodEntries(entries + [entry]) && Desired(entries + [entry]) == Desired(entries) + [entry.spec]
  {
    hide Sound, Clashes;
    DesiredConcat(entries, [entry]);
    assert Single(entry) == [entry.spec];
  }

  lemma GoodRemoved(entries: seq<Entry>, i: nat)
    requires GoodEntries(entries) && i < |entries|
    ensures GoodEntries(Removed(entries, i))
  {
    hide Sound, Clashes, Desired;
    DesiredSplit(entries, i);
    DesiredRemoved(entries, i);
  }

  /** A desired entry that becomes undesired leaves the desired list, and only it. */
  lemma GoodUndesired(entries: seq<Entry>, i: nat)
    requires GoodEntries(entries) && i < |entries| && entries[i].desired && entries[i].runtime.Some?
    ensures var stopping := entries[i].(desired := false, phase := Stopping);
            GoodEntries(entries[i := stopping]) && Desired(entries[i := stopping]) == Desired(Removed(entries, i))
  {
    hide Clashes, Desired;
    var stopping := entries[i].(desired := false, phase := Stopping);
    DesiredReplaced(entries, i, stopping);
    DesiredRemoved(entries, i);
    DesiredSplit(entries, i);
    assert Single(stopping) == [];
  }

  lemma DesiredLacks(entries: seq<Entry>, id: Id)
    requires forall j | 0 <= j < |entries| :: entries[j].spec.endpointId != id
    ensures Without(Desired(entries), id) == Desired(entries)
  {
    hide Without, Desired;
    var specs := Desired(entries);
    forall k | 0 <= k < |specs| ensures specs[k].endpointId != id {
      var j := DesiredAt(entries, k);
    }
    WithoutAbsent(specs, id);
  }

  lemma SingleWithout(entry: Entry)
    ensures Without(Single(entry), entry.spec.endpointId) == []
  {
  }

  /** Removing the entry of an endpoint removes it from the desired list. */
  lemma RemovedWithout(entries: seq<Entry>, i: nat)
    requires GoodEntries(entries) && i < |entries|
    ensures Desired(Removed(entries, i)) == Without(Desired(entries), entries[i].spec.endpointId)
    ensures !entries[i].desired ==> Desired(Removed(entries, i)) == Desired(entries)
  {
    hide Sound, Desired, Without, GoodEntries;
    var id, before, after := entries[i].spec.endpointId, entries[..i], entries[i + 1..];
    DesiredSplit(entries, i);
    DesiredRemoved(entries, i);
    NoOther(entries, i);
    DesiredLacks(before, id);
    DesiredLacks(after, id);
    WithoutConcat(Desired(before) + Single(entries[i]), Desired(after), id);
    WithoutConcat(Desired(before), Single(entries[i]), id);
    SingleWithout(entries[i]);
  }

  lemma NoOther(entries: seq<Entry>, i: nat)
    requires GoodEntries(entries) && i < |entries|
    ensures forall j | 0 <= j < |entries| && j != i :: entries[j].spec.endpointId != entries[i].spec.endpointId
  {
    forall j | 0 <= j < |entries| && j != i ensures entries[j].spec.endpointId != entries[i].spec.endpointId {
      assert if j < i then !Clashes(entries[j].spec, entries[i].spec) else !Clashes(entries[i].spec, entries[j].spec);
    }
  }

  // ---------------------------------------------------------------------------------------------
  // What each request asks for
  // ---------------------------------------------------------------------------------------------

  /** The first entry with the spec's endpoint or pool; the number of entries if there is none. */
  function FirstClash(entries: seq<Entry>, spec: Spec): (i: nat)
    ensures i <= |entries| && (i < |entries| ==> Clashes(entries[i].spec, spec))
    ensures forall j | 0 <= j < i :: !Clashes(entries[j].spec, spec)
  {
    if entries == [] || Clashes(entries[0].spec, spec) then 0 else 1 + FirstClash(entries[1..], spec)
  }

  datatype Verdict = Refuse(error: Error) | Known(index: nat) | New

  /** What is to become of an endpoint asked for. */
  function Admit(entries: seq<Entry>, spec: Spec): (v: Verdict)
    ensures v.Known? ==> v.index < |entries| && entries[v.index].desired && entries[v.index].spec == spec
    ensures v.New? ==> ValidSpec(spec) && |Desired(entries)| != MAX_ENDPOINTS
                       && forall i | 0 <= i < |entries| :: !Clashes(entries[i].spec, spec)
  {
    var i := FirstClash(entries, spec);
    if !ValidSpec(spec) then Refuse(InvalidEndpointSpec)
    else if i == |entries| then if |Desired(entries)| == MAX_ENDPOINTS then Refuse(Error.TooManyEndpoints) else New
    else if entries[i].spec.endpointId != spec.endpointId then Refuse(PoolBusy)
    else if !entries[i].desired then Refuse(EndpointStopping)
    else if entries[i].spec != spec then Refuse(EndpointConflict)
    else Known(i)
  }

  /** Why an endpoint asked for is refused.  A zero id is refused first.  Then the first entry with the
      endpoint's id or its pool decides: another endpoint holds the pool, or the endpoint is on its way out,
      or it is desired with another spec.  Without such an entry only a full registry refuses. */
  ghost predicate RefusedFor(entries: seq<Entry>, spec: Spec, error: Error) {
    var invalid := IsZero(spec.endpointId) || IsZero(spec.poolId) || IsZero(spec.volumeId);
    match error
    case InvalidEndpointSpec => invalid
    case TooManyEndpoints => !invalid && |Desired(entries)| == 1024 && forall i | 0 <= i < |entries| :: Apart(entries[i], spec)
    case PoolBusy => !invalid && exists i :: Meets(entries, spec, i) && entries[i].spec.endpointId != spec.endpointId
    case EndpointStopping =>
      !invalid && exists i :: Meets(entries, spec, i) && entries[i].spec.endpointId == spec.endpointId && !entries[i].desired
    case EndpointConflict =>
      !invalid && exists i :: && Meets(entries, spec, i) && entries[i].spec.endpointId == spec.endpointId
                              && entries[i].desired && entries[i].spec != spec
    case _ => false
  }

  ghost predicate Apart(entry: Entry, spec: Spec) {
    entry.spec.endpointId != spec.endpointId && entry.spec.poolId != spec.poolId
  }

  /** Entry `i` is the first that shares the endpoint or the pool. */
  ghost predicate Meets(entries: seq<Entry>, spec: Spec, i: int) {
    0 <= i < |entries| && !Apart(entries[i], spec) && forall j | 0 <= j < i :: Apart(entries[j], spec)
  }

  /** An endpoint is refused with an error exactly for that error's reason; otherwise it is already
      desired as asked for, or new. */
  lemma AdmitMeans(entries: seq<Entry>, spec: Spec, error: Error)
    ensures Admit(entries, spec) == Refuse(error) <==> RefusedFor(entries, spec, error)
    ensures forall i: nat | Admit(entries, spec) == Known(i) :: i < |entries| && entries[i].desired && entries[i].spec == spec
    ensures Admit(entries, spec) == New ==> forall i | 0 <= i < |entries| :: Apart(entries[i], spec)
  {
    var i := FirstClash(entries, spec);
    assert i < |entries| ==> Meets(entries, spec, i);
    forall k | Meets(entries, spec, k) ensures k == i {
      FirstMet(entries, spec, k);
    }
  }

  lemma FirstMet(entries: seq<Entry>, spec: Spec, k: int)
    requires Meets(entries, spec, k)
    ensures k == FirstClash(entries, spec)
  {
    var i := FirstClash(entries, spec);
    assert k < i ==> !Clashes(entries[k].spec, spec);
    assert i < k ==> Apart(entries[i], spec);
  }

  /** The entry of an endpoint; the number of entries if there is none. */
  function FindId(entries: seq<Entry>, id: Id): (i: nat)
    ensures i <= |entries| && (i < |entries| ==> entries[i].spec.endpointId == id)
    ensures forall j | 0 <= j < i :: entries[j].spec.endpointId != id
  {
    if entries == [] || entries[0].spec.endpointId == id then 0 else 1 + FindId(entries[1..], id)
  }

  /** An endpoint is on the desired list exactly if its entry is desired. */
  lemma StoredIffDesired(entries: seq<Entry>, id: Id)
    requires GoodEntries(entries)
    ensures var i := FindId(entries, id); HasId(Desired(entries), id) <==> i < |entries| && entries[i].desired
  {
    var i := FindId(entries, id);
    if k :| 0 <= k < |Desired(entries)| && Desired(entries)[k].endpointId == id {
      var j := DesiredAt(entries, k);
      NoOther(entries, j);
      assert i == j;
    }
    if i < |entries| && entries[i].desired {
      DesiredHas(entries, i);
      var k :| 0 <= k < |Desired(entries)| && Desired(entries)[k] == entries[i].spec;
    }
  }

  predicate ValidComponent(value: seq<Byte>, utf8: seq<Byte> -> bool) {
    0 < |value| <= MAX_LOCATOR_COMPONENT && utf8(value)
  }

  predicate ValidLocator(locator: Locator, utf8: seq<Byte> -> bool) {
    && ValidComponent(locator.traddr, utf8) && ValidComponent(locator.trsvcid, utf8) && ValidComponent(locator.nqn, utf8)
    && locator.nsid != 0
  }

  /** A locator is good if its address, service and name are UTF-8 of 1 to 256 bytes and its namespace is
      not 0. */
  lemma LocatorMeans(locator: Locator, utf8: seq<Byte> -> bool)
    ensures ValidLocator(locator, utf8) <==>
            && (forall part | part in {locator.traddr, locator.trsvcid, locator.nqn} :: 1 <= |part| <= 256 && utf8(part))
            && locator.nsid > 0
  {
  }

  /** The view says what the entry is: its state is active, pending or failed as the entry's phase is, and
      the locator is there exactly if it is active, being that of the instance that runs for the spec. */
  ghost predicate Tells(view: View, entry: Entry, live: map<nat, Running>) {
    && view.spec == entry.spec
    && (view.state.ViewActive? <==> entry.phase.Active?)
    && (view.state.ViewPending? <==> entry.phase.Pending?)
    && (view.state.ViewFailed? <==> entry.phase.Failed? || entry.phase.Stopping?)
    && (view.locator.Some? <==> view.state.ViewActive?)
    && (view.state.ViewActive? ==>
          && entry.runtime.Some? && entry.runtime.value.handle in live
          && live[entry.runtime.value.handle] == Running(view.spec, view.locator.value))
  }

  lemma ViewTells(entries: seq<Entry>, live: map<nat, Running>, i: nat)
    requires GoodEntries(entries) && Runs(entries, live) && i < |entries|
    ensures Sound(entries[i]) && Tells(ViewOf(entries[i]), entries[i], live)
  {
  }

  function ViewOf(entry: Entry): View
    requires Sound(entry)
  {
    View(entry.spec,
         match entry.phase
           case Pending => ViewPending
           case Active => ViewActive
           case Failed => ViewFailed
           case Stopping => ViewFailed,
         if entry.phase.Active? then Some(entry.runtime.value.locator) else None)
  }

  ghost predicate GoodHistory(durable: seq<seq<Spec>>) {
    forall k | 0 <= k < |durable| :: GoodList(durable[k])
  }

  /** Desired, with no instance. */
  predicate Idle(entry: Entry) {
    entry.desired && entry.runtime.None?
  }

  function CountIdle(entries: seq<Entry>): nat {
    if entries == [] then 0 else CountIdle(entries[..|entries| - 1]) + if Idle(entries[|entries| - 1]) then 1 else 0
  }

  lemma CountIdleNext(entries: seq<Entry>, i: nat)
    requires i < |entries|
    ensures CountIdle(entries[..i + 1]) == CountIdle(entries[..i]) + if Idle(entries[i]) then 1 else 0
  {
    assert entries[..i + 1][..i] == entries[..i];
  }

  // ---------------------------------------------------------------------------------------------
  // The registry
  // ---------------------------------------------------------------------------------------------

  class Registry {
    const store: Store
    const backend: Backend
    const utf8: seq<Byte> -> bool
    var entries: seq<Entry>

    /** The stored list is the desired entries' specs in order, identities are distinct, the live
        instances are the entries', and every list the file has held can be started from. */
    ghost predicate Valid()
      reads this, store, backend
    {
      && store.Valid() && store.Stored() == Desired(entries) && GoodEntries(entries)
      && Runs(entries, backend.live) && GoodHistory(store.durable)
    }

    constructor (store: Store, backend: Backend, utf8: seq<Byte> -> bool, entries: seq<Entry>)
      ensures this.store == store && this.backend == backend && this.utf8 == utf8 && this.entries == entries
    {
      this.store, this.backend, this.utf8, this.entries := store, backend, utf8, entries;
    }

    /** Starts from the file, in a process that has no instances yet. */
    static method Init(store: Store, backend: Backend, utf8: seq<Byte> -> bool) returns (r: Result<Registry, Error>)
      requires backend.live == map[]
      ensures r.Ok? <==> store.Readable() && store.Decodable() && GoodList(store.Stored())
      ensures store.Readable() && store.Decodable() && !GoodList(store.Stored()) ==> r == Err(Error.InvalidDesiredState)
      ensures store.Readable() && !store.Decodable() ==> r == Err(InvalidFile(Decoded(store.file.value, store.crc).error))
      ensures r.Ok? ==> fresh(r.value) && r.value.store == store && r.value.backend == backend && r.value.utf8 == utf8
      ensures r.Ok? ==> r.value.entries == Restarted(store.Stored())
      ensures r.Ok? && store.Valid() && GoodHistory(store.durable) ==> r.value.Valid()
    {
      hide Clashes, ValidSpec;
      var loaded := store.Load();
      if loaded.Err? {
        return Err(loaded.error);
      }
      var specs := loaded.value;
      if |specs| > MAX_ENDPOINTS {
        return Err(Error.InvalidDesiredState);
      }
      var entries: seq<Entry> := [];
      var index: nat := 0;
      while index < |specs|
        invariant index <= |specs| && entries == Restarted(specs[..index])
        invariant forall i | 0 <= i < index :: ValidSpec(specs[i])
        invariant forall i, j | 0 <= i < j < index :: !Clashes(specs[i], specs[j])
      {
        var spec := specs[index];
        if !ValidSpec(spec) {
          return Err(Error.InvalidDesiredState);
        }
        var previous: nat := 0;
        while previous < index
          invariant previous <= index && forall i | 0 <= i < previous :: !Clashes(specs[i], spec)
        {
          if Clashes(specs[previous], spec) {
            return Err(Error.InvalidDesiredState);
          }
          previous := previous + 1;
        }
        entries := entries + [Entry(spec, true, Pending, None)];
        index := index + 1;
      }
      assert specs[..index] == specs;
      RestartedGood(specs);
      var registry := new Registry(store, backend, utf8, entries);
      return Ok(registry);
    }

    method DesiredCount() returns (count: nat)
      ensures count == |Desired(entries)|
    {
      count := 0;
      var index: nat := 0;
      while index < |entries|
        invariant index <= |entries| && count == |Desired(entries[..index])|
      {
        PrefixNext(entries, index);
        DesiredConcat(entries[..index], [entries[index]]);
        var single := Single(entries[index]);
        if entries[index].desired {
          count := count + 1;
        }
        index := index + 1;
      }
      assert entries[..index] == entries;
    }

    method CopyDesired() returns (specs: seq<Spec>)
      ensures specs == Desired(entries)
    {
      specs := [];
      var index: nat := 0;
      while index < |entries|
        invariant index <= |entries| && specs == Desired(entries[..index])
      {
        PrefixNext(entries, index);
        DesiredConcat(entries[..index], [entries[index]]);
        var single := Single(entries[index]);
        if entries[index].desired {
          specs := specs + [entries[index].spec];
        }
        index := index + 1;
      }
      assert entries[..index] == entries;
    }

    /** Rolls back an instance whose locator is not acceptable; if that fails the process ends. */
    method Rollback(instance: Instance) returns (ok: bool)
      requires instance.handle in backend.live
      modifies backend
      ensures ok ==> backend.live == old(backend.live) - {instance.handle}
      ensures ok <==> ReplyAt(old(backend.replies), 0).Stopped?
      ensures backend.replies == Rest(old(backend.replies), 1)
    {
      var stopped := backend.Stop(instance.handle);
      return stopped.None?;
    }

    /** Starts a desired entry that has no instance. */
    method StartEntry(i: nat) returns (r: Option<Error>)
      requires i < |entries| && Idle(entries[i]) && GoodEntries(entries) && Runs(entries, backend.live)
      modifies this`entries, backend
      ensures |entries| == |old(entries)| && entries == old(entries)[i := entries[i]]
      ensures entries[i].spec == old(entries)[i].spec && entries[i].desired
      ensures GoodEntries(entries) && Desired(entries) == old(Desired(entries))
      ensures r != Some(Crash) ==> Runs(entries, backend.live)
      ensures r.None? ==> entries[i].phase.Active? && ValidLocator(entries[i].runtime.value.locator, utf8)
      ensures r.Some? && r.value != Crash ==> entries[i].phase.Failed? && Idle(entries[i]) && backend.live == old(backend.live)
      ensures r.Some? ==> r.value.Foreign? || r.value == InvalidLocator || r.value == Crash
      ensures r == StartError(old(backend.replies), utf8)
      ensures r.None? ==> entries[i].runtime.value.locator == ReplyAt(old(backend.replies), 0).locator
      ensures backend.replies == Rest(old(backend.replies), 1) || backend.replies == Rest(old(backend.replies), 2)
    {
      hide Runs, GoodEntries, Desired, ValidLocator, Rest, ReplyAt, StartError;
      var entry := entries[i];
      SoundAt(entries, i);
      var started := StartInstance(entry.spec);
      var failed := entry.(phase := Failed);
      GoodReplaced(entries, i, failed);
      if started == Err(Crash) {
        entries := entries[i := failed];
        return Some(Crash);
      }
      if started.Err? {
        RunsRephased(entries, backend.live, i, failed);
        entries := entries[i := failed];
        return Some(started.error);
      }
      var active := entry.(runtime := Some(started.value), phase := Active);
      GoodReplaced(entries, i, active);
      RunsStarted(entries, old(backend.live), i, active, started.value.handle);
      entries := entries[i := active];
      return None;
    }

    /** Starts an instance, and stops it again if its locator is not valid. */
    method StartInstance(spec: Spec) returns (r: Result<Instance, Error>)
      modifies backend
      ensures var fault := StartError(old(backend.replies), utf8); if fault.Some? then r == Err(fault.value) else r.Ok?
      ensures r.Ok? ==>
                && r.value.handle !in old(backend.live)
                && backend.live == old(backend.live)[r.value.handle := Running(spec, r.value.locator)]
                && ReplyAt(old(backend.replies), 0) == Started(r.value.locator) && ValidLocator(r.value.locator, utf8)
      ensures r.Err? ==> r.error.Foreign? || r.error == InvalidLocator || r.error == Crash
      ensures r.Err? && r.error != Crash ==> backend.live == old(backend.live)
      ensures backend.replies == Rest(old(backend.replies), 1) || backend.replies == Rest(old(backend.replies), 2)
    {
      hide ValidLocator, Rest, ReplyAt;
      RestTwice(backend.replies, 1, 0);
      RestTwice(backend.replies, 1, 1);
      var started := backend.Start(spec);
      if started.Err? {
        return started;
      }
      var instance := started.value;
      if !ValidLocator(instance.locator, utf8) {
        var rolledBack := Rollback(instance);
        if !rolledBack {
          return Err(Crash);
        }
        assert backend.live == old(backend.live);
        return Err(InvalidLocator);
      }
      return Ok(instance);
    }

    /** Looks for an entry the spec clashes with. */
    method Scan(spec: Spec) returns (verdict: Verdict)
      requires GoodEntries(entries)
      ensures verdict == Admit(entries, spec)
    {
      if !ValidSpec(spec) {
        return Refuse(InvalidEndpointSpec);
      }
      hide ValidSpec;
      var index: nat := 0;
      while index < |entries|
        invariant index <= |entries| && forall j | 0 <= j < index :: !Clashes(entries[j].spec, spec)
      {
        var entry := entries[index];
        assert Sound(entry);
        assert Clashes(entry.spec, spec) ==> FirstClash(entries, spec) == index;
        if entry.spec.endpointId == spec.endpointId {
          if !entry.desired {
            return Refuse(EndpointStopping);
          }
          if entry.spec != spec {
            return Refuse(EndpointConflict);
          }
          return Known(index);
        }
        if (entry.desired || entry.runtime.Some?) && entry.spec.poolId == spec.poolId {
          return Refuse(PoolBusy);
        }
        index := index + 1;
      }
      assert FirstClash(entries, spec) == index;
      var count := DesiredCount();
      if count == MAX_ENDPOINTS {
        return Refuse(Error.TooManyEndpoints);
      }
      return New;
    }

    /** Makes an endpoint desired, durably, and starts it. */
    method Ensure(spec: Spec) returns (r: Result<View, Error>)
      requires Valid()
      modifies this, store, backend
      ensures store.Valid() && GoodHistory(store.durable)
      ensures r != Err(Crash) ==> Valid()
      ensures match Admit(old(entries), spec)
              case Refuse(error) => r == Err(error) && entries == old(entries) && store.durable == old(store.durable)
              case Known(i) =>
                && store.durable == old(store.durable) && |entries| == |old(entries)|
                && entries == old(entries)[i := entries[i]] && entries[i].spec == spec && entries[i].desired
                && (old(entries)[i].runtime.Some? ==> r.Ok? && entries == old(entries))
                && (r.Ok? ==> Tells(r.value, entries[i], backend.live) && entries[i].runtime.Some?)
                && (r.Err? ==> entries[i].phase.Failed? || r.error == Crash)
              case New =>
                || (r.Err? && r.error.Foreign? && entries == old(entries) && store.durable == old(store.durable))
                || (r == Err(Crash) && (store.durable == old(store.durable) || store.durable == old(store.durable) + [old(store.Stored()) + [spec]]))
                || (&& store.durable == old(store.durable) + [old(store.Stored()) + [spec]]
                    && |entries| == |old(entries)| + 1 && entries[..|old(entries)|] == old(entries)
                    && entries[|old(entries)|].spec == spec && entries[|old(entries)|].desired
                    && (r.Ok? ==> Tells(r.value, entries[|old(entries)|], backend.live) && r.value.state == ViewActive)
                    && (r.Err? ==> entries[|old(entries)|].phase.Failed? || r.error == Crash))
      ensures r.Err? ==> r.error.Foreign? || r.error == InvalidLocator || r.error == Crash || RefusedFor(old(entries), spec, r.error)
      ensures forall error | RefusedFor(old(entries), spec, error) :: r == Err(error)
      ensures Admit(old(entries), spec).New? ==>
                var stored := StoreError(old(store.outcomes));
                var fault := if stored.Some? then stored else StartError(old(backend.replies), utf8);
                if fault.Some? then r == Err(fault.value) else r.Ok?
      ensures Admit(old(entries), spec).New? && StoreError(old(store.outcomes)).None? ==>
                && store.durable == old(store.durable) + [old(store.Stored()) + [spec]] && store.outcomes == old(store.outcomes)[1..]
                && (old(backend.replies) == [] ==> backend.replies == [])
      ensures var verdict := Admit(old(entries), spec);
              verdict.Known? && old(entries)[verdict.index].runtime.None? ==>
                var fault := StartError(old(backend.replies), utf8);
                if fault.Some? then r == Err(fault.value) else r.Ok?
    {
      hide Runs, Desired, GoodHistory, GoodList, FirstClash, Clashes, ValidSpec, Tells, ViewOf, RefusedFor;
      var verdict := Scan(spec);
      forall error ensures Admit(entries, spec) == Refuse(error) <==> RefusedFor(entries, spec, error) {
        AdmitMeans(entries, spec, error);
      }
      if verdict.Refuse? {
        return Err(verdict.error);
      }
      if verdict.Known? {
        var i := verdict.index;
        if entries[i].runtime.None? {
          var started := StartEntry(i);
          if started.Some? {
            return Err(started.value);
          }
        }
        ViewTells(entries, backend.live, i);
        return Ok(ViewOf(entries[i]));
      }
      var desired := CopyDesired();
      var entry := Entry(spec, true, Pending, None);
      GoodAppended(entries, entry);
      GoodDesired(entries + [entry]);
      HistoryGrows(store.durable, desired + [spec]);
      var replaced := store.Replace(desired + [spec]);
      if replaced.Some? {
        return Err(replaced.value);
      }
      ghost var before := entries;
      RunsAppended(entries, backend.live, entry);
      entries := entries + [entry];
      var started := StartEntry(|entries| - 1);
      assert entries[..|before|] == before;
      if started.Some? {
        return Err(started.value);
      }
      ViewTells(entries, backend.live, |entries| - 1);
      return Ok(ViewOf(entries[|entries| - 1]));
    }

    method Inspect(id: Id) returns (r: Result<View, Error>)
      requires GoodEntries(entries) && Runs(entries, backend.live)
      ensures r.Ok? <==> HasId(Desired(entries), id)
      ensures r.Ok? ==> FindId(entries, id) < |entries| && Tells(r.value, entries[FindId(entries, id)], backend.live)
      ensures r.Ok? ==> r.value.spec in Desired(entries) && r.value.spec.endpointId == id
      ensures r.Err? ==> r.error == EndpointNotFound
    {
      hide Desired, HasId, Tells, Runs, ViewOf;
      StoredIffDesired(entries, id);
      var index: nat := 0;
      while index < |entries|
        invariant index <= |entries|
        invariant forall j | 0 <= j < index :: !(entries[j].desired && entries[j].spec.endpointId == id)
      {
        if entries[index].desired && entries[index].spec.endpointId == id {
          NoOther(entries, index);
          DesiredHas(entries, index);
          assert FindId(entries, id) == index;
          ViewTells(entries, backend.live, index);
          return Ok(ViewOf(entries[index]));
        }
        index := index + 1;
      }
      return Err(EndpointNotFound);
    }

    /** The desired endpoints in the order they are stored, if there is memory for them. */
    method List(allocates: bool) returns (r: Result<seq<View>, Error>)
      requires GoodEntries(entries) && Runs(entries, backend.live)
      ensures r == Err(OutOfMemory) <==> !allocates
      ensures r.Err? ==> r.error == OutOfMemory
      ensures r.Ok? ==> |r.value| == |Desired(entries)|
      ensures r.Ok? ==> forall k | 0 <= k < |r.value| :: r.value[k].spec == Desired(entries)[k]
      ensures r.Ok? ==> forall k | 0 <= k < |r.value| :: Shows(entries, backend.live, r.value[k])
    {
      if !allocates {
        return Err(OutOfMemory);
      }
      var views: seq<View> := [];
      var index: nat := 0;
      while index < |entries|
        invariant index <= |entries| && |views| == |Desired(entries[..index])|
        invariant forall k | 0 <= k < |views| :: views[k].spec == Desired(entries[..index])[k]
        invariant forall k | 0 <= k < |views| :: Shows(entries, backend.live, views[k])
      {
        hide Sound, Desired, Shows, Runs;
        PrefixNext(entries, index);
        DesiredConcat(entries[..index], [entries[index]]);
        var single := Single(entries[index]);
        if entries[index].desired {
          ShowsAt(entries, backend.live, index);
          views := views + [ViewOf(entries[index])];
        }
        index := index + 1;
      }
      assert entries[..index] == entries;
      return Ok(views);
    }

    /** The desired specs but the one at `index`. */
    method CopyDesiredExcept(index: nat) returns (specs: seq<Spec>)
      requires index < |entries|
      ensures specs == Desired(Removed(entries, index))
    {
      specs := [];
      var i: nat := 0;
      while i < |entries|
        invariant i <= |entries| && specs == Desired(KeptTo(entries, index, i))
      {
        hide Desired, KeptTo;
        KeptNext(entries, index, i);
        DesiredConcat(KeptTo(entries, index, i), [entries[i]]);
        var single := Single(entries[i]);
        if entries[i].desired && i != index {
          specs := specs + [entries[i].spec];
        }
        i := i + 1;
      }
      KeptAll(entries, index);
    }

    /** Makes an endpoint undesired, durably, and stops it. */
    method Release(id: Id) returns (r: Option<Error>)
      requires Valid()
      modifies this, store, backend
      ensures store.Valid() && GoodHistory(store.durable)
      ensures r != Some(Crash) ==> Valid()
      ensures FindId(old(entries), id) == |old(entries)| ==>
                r.None? && entries == old(entries) && store.durable == old(store.durable) && backend.live == old(backend.live)
      ensures var i := FindId(old(entries), id);
              i < |old(entries)| ==>
                AfterRelease(old(entries), i, entries, old(store.durable), store.durable, old(backend.live), backend.live, r)
      ensures var i := FindId(old(entries), id);
              i < |old(entries)| ==>
                && r == ReleaseError(old(entries)[i], old(store.outcomes), old(backend.replies))
                && (old(entries)[i].desired && StoreError(old(store.outcomes)).None? ==> store.durable != old(store.durable))
    {
      hide Runs, Desired, GoodHistory, GoodList, HasId, Without, AfterRelease;
      var index: nat := 0;
      while index < |entries|
        invariant index <= |entries| && Valid()
        invariant entries == old(entries) && store.durable == old(store.durable) && backend.live == old(backend.live)
        invariant store.outcomes == old(store.outcomes) && backend.replies == old(backend.replies)
        invariant forall j | 0 <= j < index :: entries[j].spec.endpointId != id
      {
        if entries[index].spec.endpointId == id {
          assert FindId(entries, id) == index;
          r := ReleaseAt(index);
          return;
        }
        index := index + 1;
      }
      return None;
    }

    method ReleaseAt(i: nat) returns (r: Option<Error>)
      requires Valid() && i < |entries|
      modifies this, store, backend
      ensures store.Valid() && GoodHistory(store.durable)
      ensures r != Some(Crash) ==> Valid()
      ensures AfterRelease(old(entries), i, entries, old(store.durable), store.durable, old(backend.live), backend.live, r)
      ensures r == ReleaseError(old(entries)[i], old(store.outcomes), old(backend.replies))
      ensures old(entries)[i].desired && StoreError(old(store.outcomes)).None? ==> store.durable != old(store.durable)
    {
      hide Runs, Desired, GoodHistory, GoodList, Without, GoodEntries;
      RemovedWithout(entries, i);
      GoodRemoved(entries, i);
      GoodDesired(Removed(entries, i));
      SoundAt(entries, i);
      if entries[i].desired {
        var desired := CopyDesiredExcept(i);
        HistoryGrows(store.durable, desired);
        var replaced := store.Replace(desired);
        if replaced.Some? {
          return replaced;
        }
      }
      r := StopAt(i);
    }

    /** Stops the instance of an entry no longer stored, if it has one, and removes the entry. */
    method StopAt(i: nat) returns (r: Option<Error>)
      requires i < |entries| && GoodEntries(entries) && Runs(entries, backend.live) && Sound(entries[i])
      modifies this`entries, backend
      ensures r != Some(Crash) ==>
                GoodEntries(entries) && Runs(entries, backend.live) && Desired(entries) == Desired(Removed(old(entries), i))
      ensures r.None? ==> entries == Removed(old(entries), i)
      ensures r.Some? && r.value != Crash ==> Kept(old(entries), i, entries, old(backend.live), backend.live) && r.value.Foreign?
      ensures r == if old(entries)[i].runtime.Some? then StopError(ReplyAt(old(backend.replies), 0)) else None
    {
      hide Runs, Desired, GoodEntries;
      var entry := entries[i].(desired := false, phase := Stopping);
      GoodRemoved(entries, i);
      if entry.runtime.Some? {
        var handle := entry.runtime.value.handle;
        HandleLives(entries, backend.live, i);
        if entries[i].desired {
          GoodUndesired(entries, i);
        } else {
          assert entries[i := entry] == entries;
          DesiredSplit(entries, i);
          DesiredRemoved(entries, i);
        }
        var stopped := backend.Stop(handle);
        if stopped == Some(Crash) {
          return stopped;
        }
        if stopped.Some? {
          RunsRephased(entries, backend.live, i, entry);
          entries := entries[i := entry];
          return stopped;
        }
        var ended := entry.(runtime := None);
        RunsStopped(entries, old(backend.live), i, ended, handle);
        RunsRemoved(entries[i := ended], backend.live, i);
        assert Removed(entries[i := ended], i) == Removed(entries, i);
      } else {
        RunsRemoved(entries, backend.live, i);
      }
      entries := Removed(entries, i);
      return None;
    }

    /** Starts every desired endpoint that has no instance. */
    method Reconcile() returns (started: nat, failed: nat, panicked: bool)
      requires Valid()
      modifies this`entries, backend
      ensures GoodEntries(entries) && Desired(entries) == old(Desired(entries)) && |entries| == |old(entries)|
      ensures !panicked ==> Valid()
      ensures forall i | 0 <= i < |entries| && !Idle(old(entries)[i]) :: entries[i] == old(entries)[i]
      ensures !panicked ==> failed == CountIdle(entries) && started + failed == CountIdle(old(entries))
      ensures !panicked ==> forall i | 0 <= i < |entries| && Idle(entries[i]) :: entries[i].phase.Failed?
      ensures panicked ==> exists k: nat :: EndsProcess(old(backend.replies), k, utf8)
    {
      hide Runs, Desired, GoodHistory, GoodList, CountIdle;
      started, failed, panicked := 0, 0, false;
      var index: nat := 0;
      ghost var used: nat := 0;
      CountIdleNone(entries[..0]);
      while index < |entries|
        invariant index <= |entries| == |old(entries)| && GoodEntries(entries) && Runs(entries, backend.live)
        invariant Desired(entries) == old(Desired(entries)) && entries[index..] == old(entries)[index..]
        invariant forall i | 0 <= i < |entries| && !Idle(old(entries)[i]) :: entries[i] == old(entries)[i]
        invariant failed == CountIdle(entries[..index]) && started + failed == CountIdle(old(entries)[..index])
        invariant forall i | 0 <= i < index && Idle(entries[i]) :: entries[i].phase.Failed?
        invariant backend.replies == Rest(old(backend.replies), used)
      {
        assert entries[index] == entries[index..][0] == old(entries)[index];
        CountIdleNext(old(entries), index);
        ghost var before := entries;
        if Idle(entries[index]) {
          RestTwice(old(backend.replies), used, 1);
          RestTwice(old(backend.replies), used, 2);
          assert StartError(backend.replies, utf8) == Some(Crash) ==> EndsProcess(old(backend.replies), used, utf8);
          ghost var replies := backend.replies;
          var error := StartEntry(index);
          used := used + if backend.replies == Rest(replies, 1) then 1 else 2;
          assert entries[..index] == before[..index];
          CountIdleNext(entries, index);
          if error == Some(Crash) {
            panicked := true;
            return;
          }
          if error.Some? {
            failed := failed + 1;
          } else {
            started := started + 1;
          }
        } else {
          CountIdleNext(entries, index);
        }
        assert entries[index + 1..] == before[index..][1..];
        index := index + 1;
      }
      assert entries[..index] == entries && old(entries)[..index] == old(entries);
    }

    /** Stops every instance, keeping the desired endpoints. */
    method Shutdown() returns (firstError: Option<Error>)
      requires Valid()
      modifies this`entries, backend
      ensures firstError != Some(Crash) ==> Valid() && Desired(entries) == old(Desired(entries))
      ensures firstError.None? ==> backend.live == map[] && entries == Restarted(old(store.Stored()))
      ensures firstError.Some? && firstError.value != Crash ==>
                backend.live != map[] && backend.live.Keys <= old(backend.live).Keys
      ensures firstError == if DiesWithin(old(backend.replies), CountRunning(old(entries))) then Some(Crash)
                            else FirstStopError(old(backend.replies), CountRunning(old(entries)))
      ensures firstError != Some(Crash) ==> AllShut(entries)
    {
      hide Runs, Desired, GoodHistory, GoodList, GoodEntries, Restarted, Rest, ReplyAt, CountRunning, FirstStopError, DiesWithin,
        StopError, ShutDownTo, AllShut;
      NoStops(backend.replies);
      firstError := None;
      var index: nat := 0;
      ghost var seen: nat, failing: nat, stops: nat := 0, 0, 0;
      ShutNone(entries);
      while index < |entries|
        invariant index <= |entries| && seen <= |old(entries)| && entries[index..] == old(entries)[seen..]
        invariant GoodEntries(entries) && Runs(entries, backend.live) && Desired(entries) == old(Desired(entries))
        invariant firstError.None? ==> entries[..index] == Restarted(Desired(old(entries)[..seen]))
        invariant firstError.Some? ==> firstError.value != Crash && failing < index && entries[failing].runtime.Some?
        invariant backend.live.Keys <= old(backend.live).Keys
        invariant stops == CountRunning(old(entries)[..seen]) && backend.replies == Rest(old(backend.replies), stops)
        invariant firstError == FirstStopError(old(backend.replies), stops) && !DiesWithin(old(backend.replies), stops)
        invariant AllShut(entries[..index])
        decreases |entries| - index
      {
        ghost var before := entries;
        assert entries[index] == old(entries)[seen..][0];
        RunningNext(old(entries), seen);
        RestTwice(old(backend.replies), stops, 0);
        RestTwice(old(backend.replies), stops, 1);
        var kept, error := ShutAt(index);
        if before[index].runtime.Some? {
          StopNext(old(backend.replies), stops);
          stops := stops + 1;
        }
        if error == Some(Crash) {
          RunningMore(old(entries), seen + 1);
          DiesMore(old(backend.replies), stops, CountRunning(old(entries)));
          return error;
        }
        ShutNext(old(entries), seen, before, index, entries, kept, error);
        AllShutNext(before, index, entries, kept, error);
        if error.Some? && firstError.None? {
          firstError, failing := error, index;
        }
        seen := seen + 1;
        if kept {
          index := index + 1;
        }
      }
      assert old(entries)[..seen] == old(entries) && entries[..index] == entries;
      ShutAll(entries, backend.live, firstError);
    }

    /** One step of the pass: the entry is kept, or removed because it is not desired. */
    method ShutAt(i: nat) returns (kept: bool, error: Option<Error>)
      requires i < |entries| && GoodEntries(entries) && Runs(entries, backend.live)
      modifies this`entries, backend
      ensures error != Some(Crash) ==>
                GoodEntries(entries) && Runs(entries, backend.live) && Desired(entries) == old(Desired(entries))
      ensures error != Some(Crash) ==> ShutStep(old(entries), i, entries, kept, error)
      ensures error != Some(Crash) ==> backend.live.Keys <= old(backend.live).Keys
      ensures if old(entries)[i].runtime.Some? then
                error == StopError(ReplyAt(old(backend.replies), 0)) && backend.replies == Rest(old(backend.replies), 1)
              else error.None? && backend.replies == old(backend.replies)
    {
      hide Runs, Desired, GoodEntries;
      SoundAt(entries, i);
      var entry := entries[i];
      if entry.runtime.Some? {
        var handle := entry.runtime.value.handle;
        HandleLives(entries, backend.live, i);
        var stopped := backend.Stop(handle);
        if stopped == Some(Crash) {
          return true, stopped;
        }
        if stopped.Some? {
          var failed := entry.(phase := if entry.desired then Failed else Stopping);
          GoodReplaced(entries, i, failed);
          RunsRephased(entries, backend.live, i, failed);
          entries := entries[i := failed];
          return true, stopped;
        }
        RunsStopped(entries, old(backend.live), i, entry.(runtime := None), handle);
      } else {
        assert entries == entries[i := entry.(runtime := None)];
      }
      var ended := entry.(runtime := None);
      ghost var ending := entries[i := ended];
      if !entry.desired {
        RunsRemoved(ending, backend.live, i);
        assert Removed(ending, i) == Removed(entries, i);
        GoodRemoved(entries, i);
        RemovedWithout(entries, i);
        entries := Removed(entries, i);
        return false, None;
      }
      var pending := ended.(phase := Pending);
      GoodReplaced(entries, i, pending);
      RunsRephased(ending, backend.live, i, pending);
      assert ending[i := pending] == entries[i := pending];
      entries := entries[i := pending];
      return true, None;
    }
  }

  ghost predicate AllShut(entries: seq<Entry>) {
    forall i | 0 <= i < |entries| :: ShutDownTo(entries[i])
  }

  lemma AllShutNext(before: seq<Entry>, i: nat, after: seq<Entry>, kept: bool, error: Option<Error>)
    requires i < |before| && ShutStep(before, i, after, kept, error) && AllShut(before[..i])
    ensures kept ==> i + 1 <= |after| && AllShut(after[..i + 1])
    ensures !kept ==> i <= |after| && AllShut(after[..i])
  {
    if kept {
      assert forall j | 0 <= j < i :: after[..i + 1][j] == before[..i][j];
    } else {
      assert after[..i] == before[..i];
    }
  }

  lemma RunningNext(entries: seq<Entry>, i: nat)
    requires i < |entries|
    ensures CountRunning(entries[..i + 1]) == CountRunning(entries[..i]) + if entries[i].runtime.Some? then 1 else 0
  {
    assert entries[..i + 1][..i] == entries[..i];
  }

  lemma {:induction false} RunningMore(entries: seq<Entry>, i: nat)
    requires i <= |entries|
    ensures CountRunning(entries[..i]) <= CountRunning(entries)
    decreases |entries| - i
  {
    if i == |entries| {
      assert entries[..i] == entries;
    } else {
      RunningNext(entries, i);
      RunningMore(entries, i + 1);
    }
  }

  lemma StopNext(replies: seq<Reply>, n: nat)
    ensures DiesWithin(replies, n + 1) <==> DiesWithin(replies, n) || StopError(ReplyAt(replies, n)) == Some(Crash)
    ensures FirstStopError(replies, n + 1) ==
            if FirstStopError(replies, n).Some? then FirstStopError(replies, n) else StopError(ReplyAt(replies, n))
  {
    if ReplyAt(replies, n).Dies? {
      assert n < n + 1;
    }
  }

  lemma NoStops(replies: seq<Reply>)
    ensures FirstStopError(replies, 0).None? && !DiesWithin(replies, 0) && Rest(replies, 0) == replies && CountRunning([]) == 0
    ensures AllShut([])
  {
  }

  lemma DiesMore(replies: seq<Reply>, m: nat, n: nat)
    requires DiesWithin(replies, m) && m <= n
    ensures DiesWithin(replies, n)
  {
  }

  /** Pending without an instance, or left with one that did not stop. */
  predicate ShutDownTo(entry: Entry) {
    || (entry.desired && entry.phase.Pending? && entry.runtime.None?)
    || (entry.runtime.Some? && entry.phase == if entry.desired then Failed else Stopping)
  }

  /** What one step of the pass does: the entry is pending, kept with its instance because that did not
      stop, or removed because it is not desired. */
  ghost predicate ShutStep(before: seq<Entry>, i: nat, after: seq<Entry>, kept: bool, error: Option<Error>)
    requires i < |before|
  {
    && (kept <==> before[i].desired || error.Some?)
    && (kept ==> |after| == |before| && after == before[i := after[i]] && after[i].spec == before[i].spec)
    && (kept && error.None? ==> after[i] == Entry(before[i].spec, true, Pending, None))
    && (error.Some? ==> before[i].runtime.Some? && after[i] == before[i].(phase := if before[i].desired then Failed else Stopping))
    && (!kept ==> after == Removed(before, i))
  }

  lemma ShutNone(entries: seq<Entry>)
    ensures entries[..0] == Restarted(Desired(entries[..0]))
  {
  }

  /** What one step does to the part already passed. */
  lemma ShutNext(first: seq<Entry>, seen: nat, before: seq<Entry>, i: nat, after: seq<Entry>, kept: bool, error: Option<Error>)
    requires i < |before| && seen < |first| && before[i..] == first[seen..]
    requires ShutStep(before, i, after, kept, error)
    ensures after[if kept then i + 1 else i..] == first[seen + 1..] && after[..i] == before[..i]
    ensures error.None? && before[..i] == Restarted(Desired(first[..seen])) ==>
              after[..if kept then i + 1 else i] == Restarted(Desired(first[..seen + 1]))
  {
    hide Desired;
    assert before[i] == before[i..][0] == first[seen];
    assert first[seen + 1..] == first[seen..][1..] && before[i + 1..] == before[i..][1..];
    assert first[..seen + 1] == first[..seen] + [first[seen]];
    DesiredConcat(first[..seen], [first[seen]]);
    var single := Single(first[seen]);
    if kept {
      assert after[i + 1..] == before[i + 1..];
      assert after[..i + 1] == before[..i] + [after[i]];
    }
  }

  lemma ShutAll(entries: seq<Entry>, live: map<nat, Running>, firstError: Option<Error>)
    requires Runs(entries, live)
    requires firstError.None? ==> exists specs :: entries == Restarted(specs)
    requires firstError.Some? ==> exists i :: 0 <= i < |entries| && entries[i].runtime.Some?
    ensures firstError.None? ==> live == map[]
    ensures firstError.Some? ==> live != map[]
  {
    if firstError.None? {
      assert forall i | 0 <= i < |entries| :: entries[i].runtime.None?;
      assert forall h :: h !in live;
    }
  }

  /** The view is a desired entry's. */
  /** The view tells of a desired entry. */
  ghost predicate Shows(entries: seq<Entry>, live: map<nat, Running>, view: View) {
    exists i :: 0 <= i < |entries| && entries[i].desired && Tells(view, entries[i], live)
  }

  lemma ShowsAt(entries: seq<Entry>, live: map<nat, Running>, i: nat)
    requires GoodEntries(entries) && Runs(entries, live) && i < |entries| && entries[i].desired
    ensures Sound(entries[i]) && Shows(entries, live, ViewOf(entries[i]))
  {
    ViewTells(entries, live, i);
  }

  /** The first `i` entries but the one at `index`. */
  function KeptTo(entries: seq<Entry>, index: nat, i: nat): seq<Entry>
    requires index < |entries| && i <= |entries|
  {
    if i <= index then entries[..i] else entries[..index] + entries[index + 1..i]
  }

  lemma KeptNext(entries: seq<Entry>, index: nat, i: nat)
    requires index < |entries| && i < |entries|
    ensures KeptTo(entries, index, i + 1)
            == if i == index then KeptTo(entries, index, i) else KeptTo(entries, index, i) + [entries[i]]
  {
    if i > index {
      assert entries[index + 1..i + 1] == entries[index + 1..i] + [entries[i]];
    }
  }

  lemma KeptAll(entries: seq<Entry>, index: nat)
    requires index < |entries|
    ensures KeptTo(entries, index, |entries|) == Removed(entries, index)
  {
  }

  lemma CountIdleNone(entries: seq<Entry>)
    requires entries == []
    ensures CountIdle(entries) == 0
  {
  }

  lemma HandleLives(entries: seq<Entry>, live: map<nat, Running>, i: nat)
    requires Runs(entries, live) && i < |entries| && entries[i].runtime.Some?
    ensures entries[i].runtime.value.handle in live && live[entries[i].runtime.value.handle] == AsRunning(entries[i])
  {
  }

  /** The entry is kept, stopping, with its instance. */
  ghost predicate Kept(before: seq<Entry>, i: nat, after: seq<Entry>, liveBefore: map<nat, Running>, live: map<nat, Running>)
    requires i < |before|
  {
    && after == before[i := before[i].(desired := false, phase := Stopping)] && before[i].runtime.Some?
    && live == liveBefore
  }

  /** What a release of entry `i` does.  Nothing changes unless a list without the endpoint is durable;
      then the entry is gone, or kept stopping.  A crash leaves either list. */
  ghost predicate AfterRelease(before: seq<Entry>, i: nat, after: seq<Entry>, durableBefore: seq<seq<Spec>>, durable: seq<seq<Spec>>,
                           liveBefore: map<nat, Running>, live: map<nat, Running>, r: Option<Error>)
    requires i < |before| && durableBefore != []
  {
    && (r.Some? ==> r.value.Foreign? || r.value == Crash)
    && (Dropped(durableBefore, durable, before[i]) || durable == durableBefore)
    && (r != Some(Crash) ==>
          if !Dropped(durableBefore, durable, before[i]) then r.Some? && after == before && live == liveBefore
          else if r.None? then after == Removed(before, i)
          else Kept(before, i, after, liveBefore, live))
  }

  /** The entry was not stored to begin with, or a list without it has been made durable. */
  ghost predicate Dropped(before: seq<seq<Spec>>, after: seq<seq<Spec>>, entry: Entry)
    requires before != []
  {
    if entry.desired then after == before + [Without(before[|before| - 1], entry.spec.endpointId)] else after == before
  }

  lemma SoundAt(entries: seq<Entry>, i: nat)
    requires GoodEntries(entries) && i < |entries|
    ensures Sound(entries[i])
  {
  }

  lemma LastGood(durable: seq<seq<Spec>>)
    requires GoodHistory(durable) && durable != []
    ensures GoodList(durable[|durable| - 1])
  {
  }

  lemma HistoryGrows(durable: seq<seq<Spec>>, specs: seq<Spec>)
    requires GoodHistory(durable) && GoodList(specs)
    ensures GoodHistory(durable + [specs])
  {
  }

  // ---------------------------------------------------------------------------------------------
  // A full list
  // ---------------------------------------------------------------------------------------------

  /** Identities that differ for different numbers below 65536 and are never zero. */
  function SampleId(n: nat): Id {
    Little(n, 2) + [1] + Zeros(13)
  }

  function Samples(count: nat): (specs: seq<Spec>)
    ensures |specs| == count
  {
    seq(count, i requires 0 <= i < count => Spec(SampleId(i), SampleId(i), SampleId(i), NvmeOfTcp))
  }

  lemma SampleIdsDiffer(a: nat, b: nat)
    requires a < 0x1_0000 && b < 0x1_0000 && SampleId(a) == SampleId(b)
    ensures a == b
  {
    Ranges();
    assert SampleId(a)[..2] == Little(a, 2) && SampleId(b)[..2] == Little(b, 2);
    ReadLittleOf(a, 2);
    ReadLittleOf(b, 2);
  }

  /** So there are lists of exactly 1024 endpoints that the registry takes. */
  lemma SamplesGood(count: nat)
    requires count <= MAX_ENDPOINTS
    ensures GoodList(Samples(count))
  {
    hide Little, SampleId;
    var specs := Samples(count);
    forall i | 0 <= i < count ensures ValidSpec(specs[i]) {
      SampleIdValid(i);
    }
    forall i, j | 0 <= i < j < count ensures !Clashes(specs[i], specs[j]) {
      if Clashes(specs[i], specs[j]) {
        SampleIdsDiffer(i, j);
      }
    }
  }

  lemma SampleIdValid(n: nat)
    ensures !IsZero(SampleId(n))
  {
    assert SampleId(n)[2] == 1;
  }

  lemma SampleAdmitted(entries: seq<Entry>, n: nat)
    requires |entries| == n < MAX_ENDPOINTS && |Desired(entries)| == n
    requires forall i | 0 <= i < n :: entries[i].spec == Samples(n + 1)[i]
    ensures Admit(entries, Samples(n + 1)[n]).New?
  {
    hide FirstClash, Clashes, ValidSpec, SampleId;
    SamplesGood(n + 1);
    var specs := Samples(n + 1);
    assert forall i | 0 <= i < n :: !Clashes(specs[i], specs[n]);
  }

  /** Asks a registry for one more endpoint; the store takes it, and its instance does not start. */
  method EnsureSample(registry: Registry, n: nat)
    requires registry.Valid() && n < MAX_ENDPOINTS && registry.backend.replies == [] && registry.store.Stored() == Samples(n)
    requires |registry.entries| == n && forall i | 0 <= i < n :: registry.entries[i].spec == Samples(n + 1)[i]
    requires registry.store.outcomes == seq(MAX_ENDPOINTS - n, _ => Installs)
    modifies registry, registry.store, registry.backend
    ensures registry.Valid() && registry.backend.replies == [] && registry.store.Stored() == Samples(n + 1)
    ensures |registry.entries| == n + 1 && forall i | 0 <= i <= n :: registry.entries[i].spec == Samples(n + 1)[i]
    ensures registry.store.outcomes == seq(MAX_ENDPOINTS - n - 1, _ => Installs)
  {
    hide Decoded, GoodList, GoodEntries, GoodHistory, Runs, Desired, Admit, SampleId;
    var spec := Samples(n + 1)[n];
    SampleAdmitted(registry.entries, n);
    ghost var before := registry.entries;
    var r := registry.Ensure(spec);
    assert Samples(n) + [spec] == Samples(n + 1);
    assert forall i | 0 <= i < n :: registry.entries[i] == registry.entries[..n][i];
  }

  /** A registry that starts without a file takes 1024 endpoints, one by one, and after its process has
      ended none can be started from what it has stored, because the file has exactly the length the
      read may not reach. */
  method FullStoreRefused(crc: Checksum, utf8: seq<Byte> -> bool) returns (store: Store, r: Result<Registry, Error>)
    ensures fresh(store) && store.Valid() && !store.limitReadable
    ensures store.Stored() == Samples(MAX_ENDPOINTS) && GoodList(store.Stored()) && r.Err?
  {
    hide Decoded, GoodList, SampleId;
    store := new Store(crc, false, seq(MAX_ENDPOINTS, _ => Installs));
    var backend := new Backend([]);
    SamplesGood(0);
    assert Samples(0) == [];
    store.ReadableUnlessFull();
    r := Registry.Init(store, backend, utf8);
    var registry := r.value;
    var n := 0;
    while n < MAX_ENDPOINTS
      invariant n <= MAX_ENDPOINTS && registry.store == store && registry.backend == backend
      invariant fresh(registry) && fresh(store) && fresh(backend)
      invariant registry.Valid() && backend.replies == [] && store.Stored() == Samples(n)
      invariant |registry.entries| == n && forall i | 0 <= i < n :: registry.entries[i].spec == Samples(n)[i]
      invariant store.outcomes == seq(MAX_ENDPOINTS - n, _ => Installs)
    {
      EnsureSample(registry, n);
      n := n + 1;
    }
    backend.Exit();
    SamplesGood(MAX_ENDPOINTS);
    store.ReadableUnlessFull();
    r := Registry.Init(store, backend, utf8);
  }
}
