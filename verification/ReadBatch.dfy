/** A batch of reads on the dispatcher's owner thread.  The device answers each read at once, later or
    with a refusal, in any order; scripts stand for what it does.  The batch reads into the callers'
    memory directly, or into slices of one bounce buffer that are copied out at the end. */
module ReadBatch {
  import opened Wrappers
  import opened Bytes
  import opened Collections

  const SIZE_MAX: nat := U64_MAX
  const EINVAL: int := -22
  const ENOMEM: int := -12
  const ENODEV: int := -19
  const EDEADLK: int := -35
  const EOVERFLOW: int := -75
  const EIO: int := -5

  // ---------------------------------------------------------------------------------------------
  // Where the bounce slices go
  // ---------------------------------------------------------------------------------------------

  function AlignUp(n: nat, alignment: nat): (r: nat)
    requires alignment > 0
    ensures r % alignment == 0 && n <= r < n + alignment
  {
    if n % alignment == 0 then n
    else
      RoundUp(n, alignment);
      n + (alignment - n % alignment)
  }

  lemma RoundUp(n: nat, alignment: nat)
    requires alignment > 0
    ensures (n + (alignment - n % alignment)) % alignment == 0
  {
    var q := n / alignment;
    assert n == q * alignment + n % alignment;
    assert n + (alignment - n % alignment) == (q + 1) * alignment;
    MultipleOf(q + 1, alignment);
  }

  lemma MultipleOf(q: nat, alignment: nat)
    requires alignment > 0
    ensures q * alignment % alignment == 0
  {
    var product := q * alignment;
    var d, r := product / alignment, product % alignment;
    assert product == d * alignment + r;
    NoSmallMultiple(q - d, alignment, r);
  }

  lemma NoSmallMultiple(k: int, alignment: nat, r: nat)
    requires r < alignment && k * alignment == r
    ensures r == 0
  {
    assert k >= 1 ==> k * alignment >= alignment;
    assert k <= -1 ==> k * alignment + alignment <= 0;
  }

  /** The end of the slices laid out one after the other, each at the next aligned place. */
  function End(lengths: seq<nat>, alignment: nat): nat
    requires alignment > 0
  {
    if lengths == [] then 0
    else AlignUp(End(lengths[..|lengths| - 1], alignment), alignment) + lengths[|lengths| - 1]
  }

  lemma EndNext(lengths: seq<nat>, alignment: nat, i: nat)
    requires alignment > 0 && i < |lengths|
    ensures End(lengths[..i + 1], alignment) == AlignUp(End(lengths[..i], alignment), alignment) + lengths[i]
  {
    assert lengths[..i + 1][..i] == lengths[..i];
  }

  lemma {:induction false} EndGrows(lengths: seq<nat>, alignment: nat, i: nat)
    requires alignment > 0 && i <= |lengths|
    ensures End(lengths[..i], alignment) <= End(lengths, alignment)
    decreases |lengths| - i
  {
    if i < |lengths| {
      EndNext(lengths, alignment, i);
      EndGrows(lengths, alignment, i + 1);
    } else {
      assert lengths[..i] == lengths;
    }
  }

  /** Slices that are aligned, follow each other and end within the size. */
  ghost predicate LaidOut(lengths: seq<nat>, alignment: nat, offsets: seq<nat>, size: nat)
    requires alignment > 0
  {
    && |offsets| == |lengths|
    && (forall i | 0 <= i < |offsets| :: offsets[i] % alignment == 0 && offsets[i] + lengths[i] <= size)
    && (forall i, j | 0 <= i < j < |offsets| :: offsets[i] + lengths[i] <= offsets[j])
  }

  lemma Padding(n: nat, alignment: nat)
    requires alignment > 0
    ensures AlignUp(n, alignment) == if n % alignment == 0 then n else n + (alignment - n % alignment)
  {
  }

  lemma LaidOutNext(lengths: seq<nat>, alignment: nat, i: nat, offsets: seq<nat>, size: nat, offset: nat)
    requires alignment > 0 && i < |lengths| && LaidOut(lengths[..i], alignment, offsets, size)
    requires size <= offset && offset % alignment == 0
    ensures LaidOut(lengths[..i + 1], alignment, offsets + [offset], offset + lengths[i])
  {
  }

  /** Lays the slices out.  It fails exactly if they do not fit the address space. */
  method LayOut(lengths: seq<nat>, alignment: nat) returns (r: Result<(seq<nat>, nat), int>)
    requires alignment > 0 && forall i | 0 <= i < |lengths| :: lengths[i] <= SIZE_MAX
    ensures r.Ok? <==> End(lengths, alignment) <= SIZE_MAX
    ensures r.Err? ==> r.error == EOVERFLOW
    ensures r.Ok? ==> r.value.1 == End(lengths, alignment) && LaidOut(lengths, alignment, r.value.0, r.value.1)
  {
    var offsets: seq<nat> := [];
    var size: nat := 0;
    var index: nat := 0;
    assert LaidOut(lengths[..0], alignment, offsets, 0);
    hide LaidOut, AlignUp, End;
    while index < |lengths|
      invariant index <= |lengths| && size == End(lengths[..index], alignment) <= SIZE_MAX
      invariant LaidOut(lengths[..index], alignment, offsets, size)
    {
      EndNext(lengths, alignment, index);
      EndGrows(lengths, alignment, index + 1);
      Padding(size, alignment);
      LaidOutNext(lengths, alignment, index, offsets, size, AlignUp(size, alignment));
      var length := lengths[index];
      var remainder := size % alignment;
      if remainder != 0 {
        var padding := alignment - remainder;
        if size > SIZE_MAX - padding {
          return Err(EOVERFLOW);
        }
        size := size + padding;
      }
      offsets := offsets + [size];
      if size > SIZE_MAX - length {
        return Err(EOVERFLOW);
      }
      size := size + length;
      index := index + 1;
    }
    assert lengths[..index] == lengths;
    return Ok((offsets, size));
  }

  // ---------------------------------------------------------------------------------------------
  // Memory
  // ---------------------------------------------------------------------------------------------

  datatype Read = Read(address: nat, offset: nat, length: nat)

  function Lengths(items: seq<Read>): (r: seq<nat>)
    ensures |r| == |items|
  {
    seq(|items|, i requires 0 <= i < |items| => items[i].length)
  }

  function Addresses(items: seq<Read>): (r: seq<nat>)
    ensures |r| == |items| && forall i | 0 <= i < |items| :: r[i] == items[i].address
  {
    seq(|items|, i requires 0 <= i < |items| => items[i].address)
  }

  /** Each item has a place in a buffer of the size. */
  ghost predicate Fits(places: seq<nat>, items: seq<Read>, size: nat) {
    |places| == |items| && forall i | 0 <= i < |items| :: places[i] + items[i].length <= size
  }

  /** No other item's place meets this one's. */
  ghost predicate Alone(places: seq<nat>, items: seq<Read>, i: nat)
    requires |places| == |items| && i < |items|
  {
    forall j | 0 <= j < |items| && j != i ::
      places[j] + items[j].length <= places[i] || places[i] + items[i].length <= places[j]
  }

  function Slice(buffer: seq<Byte>, places: seq<nat>, items: seq<Read>, i: nat): (r: seq<Byte>)
    requires Fits(places, items, |buffer|) && i < |items|
    ensures |r| == items[i].length
  {
    buffer[places[i]..places[i] + items[i].length]
  }

  lemma PatchedSlice(buffer: seq<Byte>, at: nat, bytes: seq<Byte>, from: nat, to: nat)
    requires at + |bytes| <= |buffer| && from <= to <= |buffer|
    ensures |Patched(buffer, at, bytes)| == |buffer|
    ensures from == at && to == at + |bytes| ==> Patched(buffer, at, bytes)[from..to] == bytes
    ensures to <= at || at + |bytes| <= from ==> Patched(buffer, at, bytes)[from..to] == buffer[from..to]
  {
  }

  /** Writing an item's place changes its slice, and no slice that stands alone. */
  lemma WrittenSlice(buffer: seq<Byte>, places: seq<nat>, items: seq<Read>, i: nat, bytes: seq<Byte>, k: nat)
    requires Fits(places, items, |buffer|) && i < |items| && k < |items| && |bytes| == items[i].length
    ensures |Patched(buffer, places[i], bytes)| == |buffer|
    ensures k == i ==> Slice(Patched(buffer, places[i], bytes), places, items, k) == bytes
    ensures k != i && Alone(places, items, k) ==>
              Slice(Patched(buffer, places[i], bytes), places, items, k) == Slice(buffer, places, items, k)
  {
    hide Patched;
    PatchedSlice(buffer, places[i], bytes, places[k], places[k] + items[k].length);
  }

  /** Every item that succeeded and stands alone has what the device holds for it. */
  ghost predicate Holding(buffer: seq<Byte>, places: seq<nat>, items: seq<Read>, content: seq<seq<Byte>>, outcome: map<nat, int>)
    requires Fits(places, items, |buffer|) && |content| == |items|
  {
    forall k | k in outcome && k < |items| && outcome[k] == 0 && Alone(places, items, k) ::
      Slice(buffer, places, items, k) == content[k]
  }

  lemma HoldingWritten(buffer: seq<Byte>, places: seq<nat>, items: seq<Read>, content: seq<seq<Byte>>, outcome: map<nat, int>,
                       i: nat, bytes: seq<Byte>)
    requires Fits(places, items, |buffer|) && |content| == |items| && Holding(buffer, places, items, content, outcome)
    requires i < |items| && i !in outcome && |bytes| == items[i].length
    ensures |Patched(buffer, places[i], bytes)| == |buffer|
    ensures Holding(Patched(buffer, places[i], bytes), places, items, content, outcome)
    ensures Slice(Patched(buffer, places[i], bytes), places, items, i) == bytes
  {
    hide Patched, Slice, Alone;
    WrittenSlice(buffer, places, items, i, bytes, i);
    forall k | k in outcome && k < |items| && outcome[k] == 0 && Alone(places, items, k)
      ensures Slice(Patched(buffer, places[i], bytes), places, items, k) == content[k]
    {
      WrittenSlice(buffer, places, items, i, bytes, k);
    }
  }

  /** The memory once the first `n` items that succeeded are copied out of the bounce buffer. */
  function CopiedOut(memory: seq<Byte>, items: seq<Read>, statuses: seq<int>, bounce: seq<Byte>, offsets: seq<nat>, n: nat): (r: seq<Byte>)
    requires Fits(Addresses(items), items, |memory|) && Fits(offsets, items, |bounce|) && |statuses| == |items| && n <= |items|
    ensures |r| == |memory|
  {
    if n == 0 then memory
    else
      var last := CopiedOut(memory, items, statuses, bounce, offsets, n - 1);
      if statuses[n - 1] == 0 then Patched(last, items[n - 1].address, Slice(bounce, offsets, items, n - 1)) else last
  }

  /** Of the destinations that stand alone, those that succeeded get their slice and no other changes. */
  lemma {:induction false} CopiedOutSlice(memory: seq<Byte>, items: seq<Read>, statuses: seq<int>,
                                          bounce: seq<Byte>, offsets: seq<nat>, n: nat, i: nat)
    requires Fits(Addresses(items), items, |memory|) && Fits(offsets, items, |bounce|) && |statuses| == |items| && n <= |items|
    requires i < |items| && Alone(Addresses(items), items, i)
    ensures Slice(CopiedOut(memory, items, statuses, bounce, offsets, n), Addresses(items), items, i)
            == if i < n && statuses[i] == 0 then Slice(bounce, offsets, items, i) else Slice(memory, Addresses(items), items, i)
    decreases n
  {
    hide Patched, Slice, Alone;
    if n > 0 {
      var last := CopiedOut(memory, items, statuses, bounce, offsets, n - 1);
      CopiedOutSlice(memory, items, statuses, bounce, offsets, n - 1, i);
      if statuses[n - 1] == 0 {
        WrittenSlice(last, Addresses(items), items, n - 1, Slice(bounce, offsets, items, n - 1), i);
      }
    }
  }

  // ---------------------------------------------------------------------------------------------
  // The batch
  // ---------------------------------------------------------------------------------------------

  /** The caller's side: its memory, the statuses to fill in, and what it sees happen. */
  class Host {
    const memory: array<Byte>
    var statuses: seq<int>
    /** One entry per call back, with the `direct` it was told. */
    var callbacks: seq<bool>
    /** How often a batch that ran was freed, and how often a bounce buffer. */
    var batchFrees: nat
    var bounceFrees: nat

    constructor (memory: array<Byte>, count: nat)
      ensures this.memory == memory && |statuses| == count
      ensures callbacks == [] && batchFrees == 0 && bounceFrees == 0
    {
      this.memory, statuses := memory, seq(count, _ => 0);
      callbacks, batchFrees, bounceFrees := [], 0, 0;
    }
  }

  /** What is in the batch's allocation. */
  datatype Fields = Fields(
    host: Host, items: seq<Read>, remaining: nat, submitting: bool, direct: bool, bounce: array?<Byte>, offsets: seq<nat>)

  /** A batch.  Its allocation is `fields`, which the free takes away: code can reach a field only
      through the members below, each of which needs the allocation to be there.  The ghost variables
      are what specifications speak of, also after the free. */
  class Batch {
    var fields: Option<Fields>
    ghost const host: Host
    ghost const items: seq<Read>
    ghost var remaining: nat
    ghost var submitting: bool
    ghost var direct: bool
    ghost var bounce: array?<Byte>
    ghost var offsets: seq<nat>
    ghost var alive: bool
    /** What the device holds where each read looks. */
    const content: seq<seq<Byte>>
    /** The memory when the batch was submitted. */
    ghost const before: seq<Byte>
    /** The statuses of the items that have completed. */
    ghost var outcome: map<nat, int>

    constructor (host: Host, items: seq<Read>, content: seq<seq<Byte>>)
      ensures this.host == host && this.items == items && this.content == content && before == host.memory[..]
      ensures remaining == |items| && submitting && bounce == null && Live() && outcome == map[]
    {
      fields := Some(Fields(host, items, |items|, true, false, null, []));
      this.host, this.items, this.content, before := host, items, content, host.memory[..];
      remaining, submitting, direct, bounce, offsets := |items|, true, false, null, [];
      alive, outcome := true, map[];
    }

    /** The allocation is there and holds what the specifications say. */
    ghost predicate Live()
      reads this
    {
      alive && fields == Some(Fields(host, items, remaining, submitting, direct, bounce, offsets))
    }

    function Caller(): (r: Host)
      requires Live()
      reads this
      ensures r == host
    {
      fields.value.host
    }

    function Items(): (r: seq<Read>)
      requires Live()
      reads this
      ensures r == items
    {
      fields.value.items
    }

    function Remaining(): (r: nat)
      requires Live()
      reads this
      ensures r == remaining
    {
      fields.value.remaining
    }

    predicate IsSubmitting()
      requires Live()
      reads this
      ensures IsSubmitting() == submitting
    {
      fields.value.submitting
    }

    predicate IsDirect()
      requires Live()
      reads this
      ensures IsDirect() == direct
    {
      fields.value.direct
    }

    function BounceBuffer(): (r: array?<Byte>)
      requires Live()
      reads this
      ensures r == bounce
    {
      fields.value.bounce
    }

    function Offsets(): (r: seq<nat>)
      requires Live()
      reads this
      ensures r == offsets
    {
      fields.value.offsets
    }

    method SetDirect(value: bool)
      requires Live()
      modifies this`fields, this`direct
      ensures Live() && direct == value
    {
      fields, direct := Some(fields.value.(direct := value)), value;
    }

    method SetBounce(buffer: array<Byte>, places: seq<nat>)
      requires Live()
      modifies this`fields, this`bounce, this`offsets
      ensures Live() && bounce == buffer && offsets == places
    {
      fields := Some(fields.value.(bounce := buffer, offsets := places));
      bounce, offsets := buffer, places;
    }

    method SetRemaining(value: nat)
      requires Live()
      modifies this`fields, this`remaining
      ensures Live() && remaining == value
    {
      fields, remaining := Some(fields.value.(remaining := value)), value;
    }

    method ClearSubmitting()
      requires Live()
      modifies this`fields, this`submitting
      ensures Live() && !submitting
    {
      fields, submitting := Some(fields.value.(submitting := false)), false;
    }

    /** Gives the allocation back. */
    method Free()
      requires Live()
      modifies this`fields, this`alive
      ensures !alive && fields.None?
    {
      fields, alive := None, false;
    }

    ghost function Footprint(): set<object>
      reads this
    {
      {this, host, host.memory} + if bounce == null then {} else {bounce}
    }

    /** What submission has checked, and the content a read of each length finds. */
    ghost predicate Submitted()
      reads host
    {
      && items != [] && |host.statuses| == |items| && Fits(Addresses(items), items, host.memory.Length)
      && |before| == host.memory.Length
      && |content| == |items| && (forall i | 0 <= i < |items| :: |content[i]| == items[i].length)
    }

    ghost predicate Prepared()
      reads this
    {
      if direct then bounce == null
      else
        && bounce != null && bounce != host.memory && Fits(offsets, items, bounce.Length)
        && forall i | 0 <= i < |items| :: Alone(offsets, items, i)
    }

    /** Where the device puts what it reads. */
    ghost function Places(): seq<nat>
      reads this
    {
      if direct then Addresses(items) else offsets
    }

    ghost function Buffer(): seq<Byte>
      reads this, host.memory, bounce
    {
      if bounce == null then host.memory[..] else bounce[..]
    }

    ghost predicate Valid()
      reads Footprint()
    {
      && Live() && Submitted() && Prepared() && Recorded(host.statuses, outcome) && remaining + |outcome| == |items|
      && Holding(Buffer(), Places(), items, content, outcome) && (!direct ==> host.memory[..] == before)
    }

    /** What the caller finds when it is called back. */
    ghost predicate Delivered()
      reads this, host, host.memory
    {
      && Submitted() && Recorded(host.statuses, outcome) && (forall i: nat | i < |items| :: i in outcome)
      && forall i: nat | i < |items| && Alone(Addresses(items), items, i) ::
           Arrived(host.memory[..], before, items, content, i, outcome[i], direct)
    }

    /** The device writes where an item not yet complete reads to. */
    method DeviceWrite(i: nat, bytes: seq<Byte>)
      requires Valid() && i < |items| && i !in outcome && |bytes| == items[i].length
      modifies if direct then {host.memory} else {bounce}
      ensures Valid() && Slice(Buffer(), Places(), items, i) == bytes
    {
      hide Holding, Patched, Slice, Alone, Recorded;
      HoldingWritten(Buffer(), Places(), items, content, outcome, i, bytes);
      if IsDirect() {
        Memcpy(Caller().memory, Items()[i].address, bytes);
      } else {
        Memcpy(BounceBuffer(), Offsets()[i], bytes);
      }
    }

    /** Every item has its status: of a batch that was prepared, or of one that could not be and whose
        items all failed. */
    ghost predicate Closing()
      reads Footprint()
    {
      && Live() && Submitted() && Recorded(host.statuses, outcome) && (forall i: nat | i < |items| :: i in outcome)
      && (!direct ==> host.memory[..] == before)
      && if !direct && bounce == null then forall i: nat | i < |items| :: outcome[i] != 0
         else Prepared() && Holding(Buffer(), Places(), items, content, outcome)
    }

    lemma LastDone()
      requires Valid() && remaining == 0
      ensures Closing()
    {
      hide Holding, Alone, Recorded;
      RecordedWithin(host.statuses, outcome);
      AllDone(outcome, |items|);
    }

    /** With every slice that succeeded copied out, the caller's memory holds what was asked for. */
    lemma AllArrived()
      requires Live() && Submitted() && Recorded(host.statuses, outcome) && (forall i: nat | i < |items| :: i in outcome)
      requires !direct && bounce != null && Prepared() && Holding(Buffer(), Places(), items, content, outcome)
      requires |before| == host.memory.Length
      requires host.memory[..] == CopiedOut(before, items, host.statuses, bounce[..], offsets, |items|)
      ensures Delivered()
    {
      hide Holding, Alone, Recorded, Arrived, CopiedOut, Slice;
      forall i: nat | i < |items| && Alone(Addresses(items), items, i)
        ensures Arrived(host.memory[..], before, items, content, i, outcome[i], false)
      {
        CopiedOutSlice(before, items, host.statuses, bounce[..], offsets, |items|, i);
        ArrivedCopied(host.memory[..], before, bounce[..], offsets, items, content, host.statuses, outcome, i);
      }
    }

    /** Copies the slices of the items that succeeded to where they belong. */
    method CopyOut()
      requires Closing() && !direct && bounce != null
      modifies host.memory
      ensures Live() && Delivered()
    {
      hide Patched, Holding, Alone, Recorded, Arrived;
      var index: nat := 0;
      while index < |Items()|
        invariant index <= |items| && Live()
        invariant host.memory[..] == CopiedOut(before, items, host.statuses, bounce[..], offsets, index)
      {
        if Caller().statuses[index] == 0 {
          var item, place := Items()[index], Offsets()[index];
          Memcpy(Caller().memory, item.address, BounceBuffer()[place..place + item.length]);
        }
        index := index + 1;
      }
      AllArrived();
    }

    /** Frees the batch and calls back, with what it has read from the batch before. */
    method Finish()
      requires Closing()
      modifies this`fields, this`alive, host, host.memory
      ensures Ended(old(host.callbacks), old(host.batchFrees), old(host.bounceFrees))
      ensures direct || bounce == null ==> host.memory[..] == old(host.memory[..])
    {
      hide Holding, Alone, Recorded, Arrived, Slice;
      var caller, wasDirect := Caller(), IsDirect();
      if !wasDirect && BounceBuffer() != null {
        CopyOut();
        caller.bounceFrees := caller.bounceFrees + 1;
      } else {
        forall i: nat | i < |items| && Alone(Addresses(items), items, i)
          ensures Arrived(host.memory[..], before, items, content, i, outcome[i], direct)
        {
          if direct {
            ArrivedDirect(host.memory[..], before, items, content, outcome, i);
          } else {
            ArrivedFailed(before, items, content, i, outcome[i]);
          }
        }
      }
      Free();
      caller.batchFrees := caller.batchFrees + 1;
      caller.callbacks := caller.callbacks + [wasDirect];
    }

    /** The batch was freed, its bounce buffer with it, and its caller called back, once each. */
    ghost predicate Ended(callbacks: seq<bool>, batchFrees: nat, bounceFrees: nat)
      reads this, host, host.memory
    {
      && !alive && fields.None? && Delivered() && host.callbacks == callbacks + [direct]
      && host.batchFrees == batchFrees + 1 && host.bounceFrees == bounceFrees + if bounce == null then 0 else 1
    }

    lemma EndedFreed(callbacks: seq<bool>, batchFrees: nat, bounceFrees: nat)
      requires Ended(callbacks, batchFrees, bounceFrees)
      ensures !alive && fields.None? && Delivered()
    {
    }

    ghost predicate Quiet(callbacks: seq<bool>, batchFrees: nat, bounceFrees: nat)
      reads host
    {
      host.callbacks == callbacks && host.batchFrees == batchFrees && host.bounceFrees == bounceFrees
    }

    method StopSubmitting()
      requires Valid()
      modifies this`fields, this`submitting
      ensures Valid() && !submitting
    {
      ClearSubmitting();
    }

    lemma RemainingAre()
      requires Valid()
      ensures Live() && remaining + |outcome| == |items|
    {
    }

    /** Takes a completion; the last one after submission ends the batch. */
    method ItemComplete(index: nat, status: int)
      requires Valid() && index < |items| && index !in outcome
      requires status == 0 ==> Slice(Buffer(), Places(), items, index) == content[index]
      modifies this`fields, this`alive, this`remaining, this`outcome, host, host.memory
      ensures outcome == old(outcome)[index := status]
      ensures alive <==> submitting || old(remaining) > 1
      ensures alive ==> Valid() && Quiet(old(host.callbacks), old(host.batchFrees), old(host.bounceFrees))
      ensures !alive ==> Ended(old(host.callbacks), old(host.batchFrees), old(host.bounceFrees))
    {
      hide Holding, Alone, Recorded, Arrived, Slice;
      RecordedWithin(host.statuses, outcome);
      NotAllDone(outcome, |items|, index, status);
      RecordedNext(host.statuses, outcome, index, status);
      HoldingNext(Buffer(), Places(), items, content, outcome, index, status);
      var caller := Caller();
      caller.statuses := caller.statuses[index := status];
      outcome := outcome[index := status];
      SetRemaining(Remaining() - 1);
      if Remaining() == 0 && !IsSubmitting() {
        LastDone();
        Finish();
      }
    }
  }

  /** The statuses reported so far. */
  ghost predicate Recorded(statuses: seq<int>, outcome: map<nat, int>) {
    forall i | i in outcome :: i < |statuses| && statuses[i] == outcome[i]
  }

  lemma RecordedWithin(statuses: seq<int>, outcome: map<nat, int>)
    requires Recorded(statuses, outcome)
    ensures KeysBelow(outcome, |statuses|)
  {
  }

  lemma RecordedNext(statuses: seq<int>, outcome: map<nat, int>, i: nat, status: int)
    requires Recorded(statuses, outcome) && i < |statuses|
    ensures Recorded(statuses[i := status], outcome[i := status])
  {
  }

  lemma HoldingNext(buffer: seq<Byte>, places: seq<nat>, items: seq<Read>, content: seq<seq<Byte>>, outcome: map<nat, int>,
                    i: nat, status: int)
    requires Fits(places, items, |buffer|) && |content| == |items| && Holding(buffer, places, items, content, outcome)
    requires i < |items| && (status == 0 ==> Slice(buffer, places, items, i) == content[i])
    ensures Holding(buffer, places, items, content, outcome[i := status])
  {
  }

  /** A destination at the end: what the device holds if the item succeeded, and as it was before if
      it failed and the batch was bounced. */
  ghost predicate Arrived(memory: seq<Byte>, before: seq<Byte>, items: seq<Read>, content: seq<seq<Byte>>,
                         i: nat, status: int, direct: bool)
    requires i < |items| == |content| && |before| == |memory| && Fits(Addresses(items), items, |memory|)
  {
    && (status == 0 ==> Slice(memory, Addresses(items), items, i) == content[i])
    && (status != 0 && !direct ==> Slice(memory, Addresses(items), items, i) == Slice(before, Addresses(items), items, i))
  }

  lemma ArrivedCopied(memory: seq<Byte>, before: seq<Byte>, bounce: seq<Byte>, offsets: seq<nat>, items: seq<Read>,
                     content: seq<seq<Byte>>, statuses: seq<int>, outcome: map<nat, int>, i: nat)
    requires Fits(Addresses(items), items, |memory|) && Fits(offsets, items, |bounce|) && |content| == |items|
    requires |before| == |memory| && |statuses| == |items| && i < |items| && i in outcome && Recorded(statuses, outcome)
    requires Holding(bounce, offsets, items, content, outcome) && Alone(offsets, items, i)
    requires Slice(memory, Addresses(items), items, i)
             == if statuses[i] == 0 then Slice(bounce, offsets, items, i) else Slice(before, Addresses(items), items, i)
    ensures Arrived(memory, before, items, content, i, outcome[i], false)
  {
  }

  lemma ArrivedDirect(memory: seq<Byte>, before: seq<Byte>, items: seq<Read>, content: seq<seq<Byte>>,
                     outcome: map<nat, int>, i: nat)
    requires Fits(Addresses(items), items, |memory|) && |content| == |items| && |before| == |memory|
    requires Holding(memory, Addresses(items), items, content, outcome)
    requires i < |items| && Alone(Addresses(items), items, i) && i in outcome
    ensures Arrived(memory, before, items, content, i, outcome[i], true)
  {
  }

  lemma ArrivedFailed(memory: seq<Byte>, items: seq<Read>, content: seq<seq<Byte>>, i: nat, status: int)
    requires Fits(Addresses(items), items, |memory|) && i < |items| == |content| && status != 0
    ensures Arrived(memory, memory, items, content, i, status, false)
  {
  }

  ghost predicate KeysBelow(outcome: map<nat, int>, count: nat) {
    forall i | i in outcome :: i < count
  }

  function Indices(count: nat): (r: set<nat>)
    ensures |r| == count && forall i :: i in r <==> 0 <= i < count
  {
    if count == 0 then {} else Indices(count - 1) + {count - 1}
  }

  lemma AllDone(outcome: map<nat, int>, count: nat)
    requires KeysBelow(outcome, count) && |outcome| == count
    ensures forall i: nat | i < count :: i in outcome
  {
    assert |outcome.Keys| == |outcome|;
    SubsetSize(outcome.Keys, Indices(count));
  }

  lemma NotAllDone(outcome: map<nat, int>, count: nat, i: nat, status: int)
    requires KeysBelow(outcome, count) && i < count && i !in outcome
    ensures |outcome| < count && |outcome[i := status]| == |outcome| + 1
  {
    assert |outcome.Keys| == |outcome|;
    SubsetSize(outcome.Keys, Indices(count));
    assert i in Indices(count);
  }

  // ---------------------------------------------------------------------------------------------
  // The device and the life of a batch
  // ---------------------------------------------------------------------------------------------

  /** An accepted read completes; a failed one may have written anything to its slice. */
  datatype Done = Done(index: nat, status: int, junk: seq<Byte>)

  /** The answer to a read: refused, or accepted while the listed reads complete inside the call. */
  datatype Turn = Rejected(status: int) | Accepted(inline: seq<Done>)

  function Fit(bytes: seq<Byte>, length: nat): (r: seq<Byte>)
    ensures |r| == length
  {
    if |bytes| >= length then bytes[..length] else bytes + seq(length - |bytes|, _ => 0)
  }

  class Device {
    var turns: seq<Turn>
    var later: seq<Done>
    /** Accepted and not completed yet. */
    var pending: set<nat>
    /** What the device has said of each read: the refusal, or the status it completed with. */
    ghost var reported: map<nat, int>

    constructor (turns: seq<Turn>, later: seq<Done>)
      ensures this.turns == turns && this.later == later && pending == {} && reported == map[]
    {
      this.turns, this.later, pending, reported := turns, later, {}, map[];
    }

    /** Completes an accepted read. */
    method Complete(batch: Batch, done: Done)
      requires batch.Valid() && done.index in pending && done.index < |batch.items| && done.index !in batch.outcome
      modifies this`pending, this`reported, batch`fields, batch`alive, batch`remaining, batch`outcome, batch.host, batch.host.memory
      modifies if batch.bounce == null then {} else {batch.bounce}
      ensures pending == old(pending) - {done.index} && reported == old(reported)[done.index := done.status]
      ensures batch.outcome == old(batch.outcome)[done.index := done.status]
      ensures batch.alive <==> batch.submitting || old(batch.remaining) > 1
      ensures batch.alive ==> batch.Valid()
      ensures batch.alive ==> batch.Quiet(old(batch.host.callbacks), old(batch.host.batchFrees), old(batch.host.bounceFrees))
      ensures !batch.alive ==> batch.Ended(old(batch.host.callbacks), old(batch.host.batchFrees), old(batch.host.bounceFrees))
    {
      hide Holding, Alone, Recorded, Arrived, Slice;
      var bytes := if done.status == 0 then batch.content[done.index] else Fit(done.junk, batch.Items()[done.index].length);
      batch.DeviceWrite(done.index, bytes);
      pending, reported := pending - {done.index}, reported[done.index := done.status];
      batch.ItemComplete(done.index, done.status);
    }

    /** Submits a read: a nonzero answer refuses it, and it never completes. */
    method Submit(batch: Batch, index: nat) returns (status: int)
      requires batch.Valid() && batch.submitting && index < |batch.items| && index !in batch.outcome && index !in pending
      requires forall i | i in pending :: i < |batch.items| && i !in batch.outcome
      requires reported == batch.outcome
      modifies this, batch`fields, batch`alive, batch`remaining, batch`outcome, batch.host, batch.host.memory
      modifies if batch.bounce == null then {} else {batch.bounce}
      ensures later == old(later)
      ensures batch.Valid() && batch.Quiet(old(batch.host.callbacks), old(batch.host.batchFrees), old(batch.host.bounceFrees))
      ensures forall i | i in pending :: i < |batch.items| && i !in batch.outcome
      ensures pending + batch.outcome.Keys
              == old(pending) + old(batch.outcome).Keys + if status == 0 then {index} else {}
      ensures reported == if status == 0 then batch.outcome else batch.outcome[index := status]
    {
      hide Holding, Alone, Recorded, Arrived, Slice, Batch.Valid, Batch.Ended;
      assert this !in batch.Footprint();
      var turn := Rejected(EIO);
      if turns != [] {
        turn, turns := turns[0], turns[1..];
      }
      if turn.Rejected? && turn.status != 0 {
        reported := reported[index := turn.status];
        return turn.status;
      }
      pending := pending + {index};
      var inline := if turn.Accepted? then turn.inline else [];
      while inline != []
        invariant batch.Valid() && later == old(later)
        invariant batch.Quiet(old(batch.host.callbacks), old(batch.host.batchFrees), old(batch.host.bounceFrees))
        invariant forall i | i in pending :: i < |batch.items| && i !in batch.outcome
        invariant pending + batch.outcome.Keys == old(pending) + old(batch.outcome).Keys + {index}
        invariant reported == batch.outcome
        decreases |inline|
      {
        if inline[0].index in pending {
          Complete(batch, inline[0]);
        }
        inline := inline[1..];
      }
      return 0;
    }

    /** Completes what is still pending, in whatever order. */
    method Drain(batch: Batch)
      requires pending != {} && batch.Valid() && !batch.submitting && Waiting(pending, batch.outcome, |batch.items|)
      requires reported == batch.outcome
      modifies this, batch`fields, batch`alive, batch`remaining, batch`outcome, batch.host, batch.host.memory
      modifies if batch.bounce == null then {} else {batch.bounce}
      ensures pending == {} && reported == batch.outcome
      ensures batch.Ended(old(batch.host.callbacks), old(batch.host.batchFrees), old(batch.host.bounceFrees))
    {
      hide Holding, Alone, Recorded, Arrived, Slice, Batch.Valid, Batch.Ended, Waiting;
      assert this !in batch.Footprint();
      while pending != {}
        invariant reported == batch.outcome
        invariant pending != {} ==> batch.Valid() && Waiting(pending, batch.outcome, |batch.items|)
        invariant pending != {} ==> batch.Quiet(old(batch.host.callbacks), old(batch.host.batchFrees), old(batch.host.bounceFrees))
        invariant pending == {} ==> batch.Ended(old(batch.host.callbacks), old(batch.host.batchFrees), old(batch.host.bounceFrees))
        decreases |pending|, |later|
      {
        assert this !in batch.Footprint();
        if later != [] && later[0].index !in pending {
          later := later[1..];
        } else {
          var index: nat :| index in pending;
          var done := Done(index, 0, []);
          if later != [] {
            done, later := later[0], later[1..];
          }
          LastPending(pending, batch.outcome, |batch.items|, done.index, done.status);
          batch.RemainingAre();
          Complete(batch, done);
        }
      }
    }
  }

  /** What is pending and what has completed are the whole batch, with nothing in both. */
  ghost predicate Waiting(pending: set<nat>, outcome: map<nat, int>, count: nat) {
    && (forall i: nat :: i in pending || i in outcome <==> i < count)
    && (forall i | i in pending :: i !in outcome)
  }

  lemma WaitingCount(pending: set<nat>, outcome: map<nat, int>, count: nat)
    requires Waiting(pending, outcome, count)
    ensures |pending| + |outcome| == count
  {
    var all := Indices(count);
    assert pending + outcome.Keys == all;
    assert pending !! outcome.Keys;
    assert |outcome.Keys| == |outcome|;
  }

  lemma LastPending(pending: set<nat>, outcome: map<nat, int>, count: nat, i: nat, status: int)
    requires Waiting(pending, outcome, count) && i in pending
    ensures i < count && i !in outcome && |pending| + |outcome| == count
    ensures Waiting(pending - {i}, outcome[i := status], count)
  {
    WaitingCount(pending, outcome, count);
  }

  // ---------------------------------------------------------------------------------------------
  // Preparing and running
  // ---------------------------------------------------------------------------------------------

  /** What the endpoint says of the buffers: which can be read into directly, the alignment bounce
      buffers need if it has a geometry, and whether one can be allocated. */
  datatype Setting = Setting(capable: seq<bool>, alignment: Option<nat>, allocates: bool)

  ghost predicate AllCapable(setting: Setting) {
    forall i | 0 <= i < |setting.capable| :: setting.capable[i]
  }

  /** Why a batch cannot be prepared: its buffers cannot all be read into directly, and the endpoint has no
      alignment, or the bounce buffer is too long to count, or there is no memory for it. */
  ghost function PrepareStatus(setting: Setting, items: seq<Read>): int {
    if AllCapable(setting) then 0
    else if setting.alignment.None? || setting.alignment.value == 0 then -19
    else if End(Lengths(items), setting.alignment.value) > SIZE_MAX then -75
    else if !setting.allocates then -12
    else 0
  }

  /** Decides between reading directly and bouncing. */
  method Prepare(batch: Batch, setting: Setting) returns (status: int)
    requires batch.Live() && batch.bounce == null && batch.outcome == map[] && batch.remaining == |batch.items|
    requires batch.Submitted() && |setting.capable| == |batch.items| && batch.before == batch.host.memory[..]
    requires forall i | 0 <= i < |batch.items| :: batch.items[i].length <= SIZE_MAX
    modifies batch`fields, batch`direct, batch`bounce, batch`offsets
    ensures batch.Live()
    ensures batch.bounce == null || fresh(batch.bounce)
    ensures status == 0 ==> batch.Valid() && (batch.direct <==> AllCapable(setting))
    ensures status == 0 && !batch.direct ==> fresh(batch.bounce) && setting.alignment.Some? && setting.alignment.value > 0
    ensures status == 0 && !batch.direct ==> LaidOut(Lengths(batch.items), setting.alignment.value, batch.offsets, batch.bounce.Length)
    ensures status != 0 ==> !batch.direct && batch.bounce == null && !AllCapable(setting)
    ensures status == PrepareStatus(setting, batch.items)
  {
    hide Alone, Recorded, Holding, Slice, LaidOut, End;
    batch.SetDirect(true);
    var index: nat := 0;
    while index < |batch.Items()|
      invariant index <= |batch.items| && batch.Live() && batch.direct
      invariant forall i | 0 <= i < index :: setting.capable[i]
    {
      if !setting.capable[index] {
        batch.SetDirect(false);
        break;
      }
      index := index + 1;
    }
    NoneDone(batch.host.statuses, batch.items, batch.content);
    if batch.IsDirect() {
      return 0;
    }
    if setting.alignment.None? || setting.alignment.value == 0 {
      return ENODEV;
    }
    var laid := LayOut(Lengths(batch.Items()), setting.alignment.value);
    if laid.Err? {
      return laid.error;
    }
    if !setting.allocates {
      return ENOMEM;
    }
    var buffer := new Byte[laid.value.1](_ => 0);
    batch.SetBounce(buffer, laid.value.0);
    AloneLaidOut(batch.items, setting.alignment.value, batch.offsets, batch.bounce.Length);
    return 0;
  }

  lemma NoneDone(statuses: seq<int>, items: seq<Read>, content: seq<seq<Byte>>)
    requires |content| == |items|
    ensures Recorded(statuses, map[])
    ensures forall buffer, places | Fits(places, items, |buffer|) :: Holding(buffer, places, items, content, map[])
  {
  }

  lemma AloneLaidOut(items: seq<Read>, alignment: nat, offsets: seq<nat>, size: nat)
    requires alignment > 0 && LaidOut(Lengths(items), alignment, offsets, size)
    ensures Fits(offsets, items, size) && forall i | 0 <= i < |items| :: Alone(offsets, items, i)
  {
    forall i | 0 <= i < |items| ensures offsets[i] + items[i].length <= size && Alone(offsets, items, i) {
      assert Lengths(items)[i] == items[i].length;
      forall j | 0 <= j < |items| && j != i
        ensures offsets[j] + items[j].length <= offsets[i] || offsets[i] + items[i].length <= offsets[j]
      {
        assert Lengths(items)[j] == items[j].length;
      }
    }
  }

  /** Every item gets the status, and the batch ends. */
  method FailAll(batch: Batch, status: int)
    requires status != 0 && batch.Live() && batch.Submitted() && !batch.direct && batch.bounce == null
    requires batch.before == batch.host.memory[..]
    modifies batch`fields, batch`alive, batch`outcome, batch`remaining, batch`submitting, batch.host, batch.host.memory
    ensures batch.Ended(old(batch.host.callbacks), old(batch.host.batchFrees), old(batch.host.bounceFrees))
    ensures forall i: nat | i < |batch.items| :: i in batch.outcome && batch.outcome[i] == status
    ensures batch.host.memory[..] == batch.before
  {
    hide Batch.Ended, Fits, Holding, Alone;
    var index: nat := 0;
    batch.outcome := map[];
    while index < |batch.Items()|
      invariant index <= |batch.items| && batch.Live() && batch.Submitted() && batch.before == batch.host.memory[..]
      invariant Recorded(batch.host.statuses, batch.outcome)
      invariant forall i :: i in batch.outcome <==> 0 <= i < index
      invariant forall i | i in batch.outcome :: batch.outcome[i] == status
      invariant batch.Quiet(old(batch.host.callbacks), old(batch.host.batchFrees), old(batch.host.bounceFrees))
    {
      var caller := batch.Caller();
      caller.statuses := caller.statuses[index := status];
      batch.outcome := batch.outcome[index := status];
      index := index + 1;
    }
    batch.SetRemaining(0);
    batch.ClearSubmitting();
    batch.Finish();
  }

  /** The statuses are what the device said of each read, or if the batch could not be prepared the reason
      for that, for every one. */
  ghost predicate Answers(batch: Batch, setting: Setting, device: Device)
    reads batch, device
  {
    var status := PrepareStatus(setting, batch.items);
    if status == 0 then batch.outcome == device.reported
    else forall i: nat | i < |batch.items| :: i in batch.outcome && batch.outcome[i] == status
  }

  /** Runs the batch on its owner thread, up to and including its last completion. */
  method Run(batch: Batch, setting: Setting, device: Device)
    requires batch.Live() && batch.bounce == null && batch.outcome == map[] && batch.remaining == |batch.items| && batch.submitting
    requires batch.Submitted() && |setting.capable| == |batch.items| && batch.before == batch.host.memory[..]
    requires forall i | 0 <= i < |batch.items| :: batch.items[i].length <= SIZE_MAX
    requires device.pending == {}
    modifies batch, batch.host, batch.host.memory, device
    ensures batch.Ended(old(batch.host.callbacks), old(batch.host.batchFrees), old(batch.host.bounceFrees))
    ensures batch.direct <==> AllCapable(setting)
    ensures device.pending == {}
    ensures Answers(batch, setting, device)
  {
    hide Holding, Alone, Recorded, Arrived, Slice, LaidOut, Waiting, Batch.Valid, Batch.Ended;
    device.reported := map[];
    var prepared := Prepare(batch, setting);
    if prepared != 0 {
      FailAll(batch, prepared);
      return;
    }
    SubmitAll(batch, device);
    batch.StopSubmitting();
    batch.RemainingAre();
    if batch.Remaining() == 0 {
      NonePending(device.pending, batch.outcome, |batch.items|);
      batch.LastDone();
      batch.Finish();
    } else {
      SomePending(device.pending, batch.outcome, |batch.items|);
      device.Drain(batch);
    }
  }

  /** Submits an item, which completes at once with the status if it is refused. */
  method SubmitItem(batch: Batch, device: Device, index: nat)
    requires batch.Valid() && batch.submitting && index < |batch.items| && Waiting(device.pending, batch.outcome, index)
    requires device.reported == batch.outcome
    modifies device, batch`fields, batch`alive, batch`remaining, batch`outcome, batch.host, batch.host.memory
    modifies if batch.bounce == null then {} else {batch.bounce}
    ensures batch.Valid() && batch.Quiet(old(batch.host.callbacks), old(batch.host.batchFrees), old(batch.host.bounceFrees))
    ensures Waiting(device.pending, batch.outcome, index + 1) && device.reported == batch.outcome
  {
    hide Holding, Alone, Recorded, Arrived, Slice, Batch.Live, Batch.Valid, Batch.Ended, Waiting;
    ghost var pending, outcome := device.pending, batch.outcome;
    WaitingBelow(pending, outcome, index);
    var status := device.Submit(batch, index);
    if status != 0 {
      batch.ItemComplete(index, status);
    }
    WaitingNext(pending, outcome, device.pending, batch.outcome, index);
  }

  /** Submits every item; while this goes on the batch cannot end. */
  method SubmitAll(batch: Batch, device: Device)
    requires batch.Valid() && batch.submitting && batch.outcome == map[] == device.reported && device.pending == {}
    modifies device, batch`fields, batch`alive, batch`remaining, batch`outcome, batch.host, batch.host.memory
    modifies if batch.bounce == null then {} else {batch.bounce}
    ensures batch.Valid() && batch.Quiet(old(batch.host.callbacks), old(batch.host.batchFrees), old(batch.host.bounceFrees))
    ensures Waiting(device.pending, batch.outcome, |batch.items|) && device.reported == batch.outcome
  {
    hide Holding, Alone, Recorded, Arrived, Slice, Batch.Live, Batch.Valid, Batch.Ended, Waiting;
    batch.RemainingAre();
    var index: nat, count: nat := 0, |batch.Items()|;
    WaitingNone();
    while index < count
      invariant index <= count == |batch.items| && batch.Valid()
      invariant batch.Quiet(old(batch.host.callbacks), old(batch.host.batchFrees), old(batch.host.bounceFrees))
      invariant Waiting(device.pending, batch.outcome, index) && device.reported == batch.outcome
    {
      SubmitItem(batch, device, index);
      index := index + 1;
    }
  }

  lemma WaitingNone()
    ensures Waiting({}, map[], 0)
  {
  }

  lemma WaitingNext(pending: set<nat>, outcome: map<nat, int>, laterPending: set<nat>, laterOutcome: map<nat, int>, n: nat)
    requires Waiting(pending, outcome, n)
    requires laterPending + laterOutcome.Keys == pending + outcome.Keys + {n}
    requires forall i | i in laterPending :: i !in laterOutcome
    ensures Waiting(laterPending, laterOutcome, n + 1)
  {
    assert forall i: nat :: i in laterPending || i in laterOutcome <==> i in laterPending + laterOutcome.Keys;
  }

  lemma WaitingBelow(pending: set<nat>, outcome: map<nat, int>, n: nat)
    requires Waiting(pending, outcome, n)
    ensures n !in pending && n !in outcome && forall i | i in pending :: i < n && i !in outcome
  {
  }

  lemma NonePending(pending: set<nat>, outcome: map<nat, int>, count: nat)
    requires Waiting(pending, outcome, count) && |outcome| == count
    ensures pending == {}
  {
    WaitingCount(pending, outcome, count);
  }

  lemma SomePending(pending: set<nat>, outcome: map<nat, int>, count: nat)
    requires Waiting(pending, outcome, count) && |outcome| < count
    ensures pending != {}
  {
    WaitingCount(pending, outcome, count);
  }

  // ---------------------------------------------------------------------------------------------
  // Submission
  // ---------------------------------------------------------------------------------------------

  const BATCH_SIZE: nat := 64
  const ITEM_SIZE: nat := 48

  /** A read as the caller passes it, whose buffer may be missing. */
  datatype Asked = Asked(address: Option<nat>, offset: nat, length: nat)

  /** Whether the caller is on an SPDK thread, memory can be allocated, and the message is taken. */
  datatype Call = Call(onSpdkThread: bool, allocates: bool, sendStatus: int)

  function ReadsOf(asked: seq<Asked>): (r: seq<Read>)
    ensures |r| == |asked|
  {
    seq(|asked|, i requires 0 <= i < |asked| =>
      Read(if asked[i].address.Some? then asked[i].address.value else 0, asked[i].offset, asked[i].length))
  }

  /** What each read finds, `disks[i]` being the device as it is when read `i` is served. */
  function Found(disks: seq<nat -> Byte>, items: seq<Read>): (r: seq<seq<Byte>>)
    requires |disks| == |items|
    ensures |r| == |items| && forall i | 0 <= i < |items| :: |r[i]| == items[i].length
  {
    seq(|items|, i requires 0 <= i < |items| => seq(items[i].length, k requires 0 <= k => disks[i](items[i].offset + k)))
  }

  /** No other read's buffer meets this one's. */
  ghost predicate Apart(asked: seq<Asked>, i: nat)
    requires i < |asked| && forall j | 0 <= j < |asked| :: asked[j].address.Some?
  {
    forall j | 0 <= j < |asked| && j != i ::
      || asked[j].address.value + asked[j].length <= asked[i].address.value
      || asked[i].address.value + asked[i].length <= asked[j].address.value
  }

  /** What a read with the status has left in its caller's buffer: the bytes of the device from its offset
      on, or nothing if it went by way of a bounce buffer. */
  ghost predicate Filled(memory: seq<Byte>, before: seq<Byte>, read: Asked, disk: nat -> Byte, status: int, direct: bool)
    requires read.address.Some? && |before| == |memory| && read.address.value + read.length <= |memory|
  {
    var at := read.address.value;
    && (status == 0 ==> forall k | at <= k < at + read.length :: memory[k] == disk(read.offset + (k - at)))
    && (status != 0 && !direct ==> forall k | at <= k < at + read.length :: memory[k] == before[k])
  }

  /** What a batch that has ended leaves in its caller's buffers, told from the reads asked for. */
  lemma FilledAt(batch: Batch, asked: seq<Asked>, disks: seq<nat -> Byte>, i: nat)
    requires |disks| == |asked| == |batch.host.statuses| && i < |asked| && forall j | 0 <= j < |asked| :: asked[j].address.Some?
    requires batch.items == ReadsOf(asked) && batch.content == Found(disks, ReadsOf(asked)) && batch.Delivered()
    requires Apart(asked, i)
    ensures asked[i].address.value + asked[i].length <= batch.host.memory.Length
    ensures Filled(batch.host.memory[..], batch.before, asked[i], disks[i], batch.host.statuses[i], batch.direct)
  {
    hide Found, Filled, Arrived, Holding;
    AloneApart(asked, i);
    FilledFrom(batch.host.memory[..], batch.before, asked, disks, i, batch.outcome[i], batch.direct);
  }

  lemma AloneApart(asked: seq<Asked>, i: nat)
    requires i < |asked| && (forall j | 0 <= j < |asked| :: asked[j].address.Some?) && Apart(asked, i)
    ensures Alone(Addresses(ReadsOf(asked)), ReadsOf(asked), i)
  {
  }

  lemma FilledFrom(memory: seq<Byte>, before: seq<Byte>, asked: seq<Asked>, disks: seq<nat -> Byte>, i: nat, status: int, direct: bool)
    requires |disks| == |asked| && i < |asked| && forall j | 0 <= j < |asked| :: asked[j].address.Some?
    requires |before| == |memory| && Fits(Addresses(ReadsOf(asked)), ReadsOf(asked), |memory|)
    requires Arrived(memory, before, ReadsOf(asked), Found(disks, ReadsOf(asked)), i, status, direct)
    ensures asked[i].address.value + asked[i].length <= |memory| && Filled(memory, before, asked[i], disks[i], status, direct)
  {
    var items, at := ReadsOf(asked), asked[i].address.value;
    assert items[i] == Read(at, asked[i].offset, asked[i].length);
    forall k | at <= k < at + asked[i].length
      ensures memory[k] == Slice(memory, Addresses(items), items, i)[k - at]
      ensures before[k] == Slice(before, Addresses(items), items, i)[k - at]
    {
    }
  }

  /** The first read without a buffer or a length, or longer than can be counted, decides. */
  ghost function ReadsStatus(asked: seq<Asked>): int {
    if asked == [] then 0
    else if asked[0].address.None? || asked[0].length == 0 then -22
    else if asked[0].length > SIZE_MAX then -75
    else ReadsStatus(asked[1..])
  }

  /** Checks the reads in order. */
  method CheckReads(asked: seq<Asked>) returns (status: int)
    ensures status == 0 <==> forall i | 0 <= i < |asked| :: asked[i].address.Some? && 0 < asked[i].length <= SIZE_MAX
    ensures status == ReadsStatus(asked)
  {
    var index: nat := 0;
    while index < |asked|
      invariant index <= |asked| && ReadsStatus(asked) == ReadsStatus(asked[index..])
      invariant index <= |asked| && forall i | 0 <= i < index :: asked[i].address.Some? && 0 < asked[i].length <= SIZE_MAX
    {
      assert asked[index..][1..] == asked[index + 1..];
      if asked[index].address.None? || asked[index].length == 0 {
        return EINVAL;
      }
      if asked[index].length > SIZE_MAX {
        return EOVERFLOW;
      }
      index := index + 1;
    }
    return 0;
  }

  /** What a call is answered: the first obstacle. */
  ghost function CallStatus(asked: seq<Asked>, call: Call): int {
    if asked == [] then -22
    else if call.onSpdkThread then -35
    else if BATCH_SIZE + |asked| * ITEM_SIZE > SIZE_MAX then -75
    else if ReadsStatus(asked) != 0 then ReadsStatus(asked)
    else if !call.allocates then -12
    else call.sendStatus
  }

  ghost predicate Accepts(asked: seq<Asked>, call: Call) {
    && asked != [] && !call.onSpdkThread && BATCH_SIZE + |asked| * ITEM_SIZE <= SIZE_MAX
    && (forall i | 0 <= i < |asked| :: asked[i].address.Some? && 0 < asked[i].length <= SIZE_MAX)
    && call.allocates && call.sendStatus == 0
  }

  /** Submits a batch and follows it to its end.  An accepted batch fills in every status, delivers
      every destination that stands alone, and calls back once; a refused one does nothing. */
  method SubmitReadMany(host: Host, asked: seq<Asked>, disks: seq<nat -> Byte>, call: Call, setting: Setting, device: Device)
    returns (status: int, batch: Batch?)
    requires |host.statuses| == |asked| == |disks| == |setting.capable| && device.pending == {}
    requires forall i | 0 <= i < |asked| && asked[i].address.Some? ::
               asked[i].address.value + asked[i].length <= host.memory.Length
    modifies host, host.memory, device
    ensures status == 0 <==> Accepts(asked, call)
    ensures status != 0 ==> host.callbacks == old(host.callbacks) && host.memory[..] == old(host.memory[..])
    ensures status != 0 ==> host.statuses == old(host.statuses) && host.batchFrees == old(host.batchFrees)
    ensures status != 0 ==> host.bounceFrees == old(host.bounceFrees) && device.pending == {}
    ensures batch != null ==> fresh(batch) && !batch.alive && batch.fields.None?
    ensures status == 0 ==> batch != null && batch.host == host && batch.items == ReadsOf(asked) && |host.statuses| == |asked|
    ensures status == 0 ==> forall i: nat | i < |asked| && Apart(asked, i) ::
              Filled(host.memory[..], old(host.memory[..]), asked[i], disks[i], host.statuses[i], batch.direct)
    ensures status == 0 ==> var fault := PrepareStatus(setting, ReadsOf(asked));
              forall i: nat | i < |asked| ::
                if fault != 0 then host.statuses[i] == fault else i in device.reported && host.statuses[i] == device.reported[i]
    ensures status == 0 ==> batch.before == old(host.memory[..])
    ensures status == 0 ==> batch.Ended(old(host.callbacks), old(host.batchFrees), old(host.bounceFrees))
    ensures status == 0 ==> (batch.direct <==> AllCapable(setting)) && device.pending == {} && Answers(batch, setting, device)
    ensures status == CallStatus(asked, call)
  {
    hide Alone, Recorded, Arrived, Batch.Ended, AllCapable;
    batch := null;
    if asked == [] {
      return EINVAL, null;
    }
    if call.onSpdkThread {
      return EDEADLK, null;
    }
    Divides(|asked|);
    if |asked| > (SIZE_MAX - BATCH_SIZE) / ITEM_SIZE {
      return EOVERFLOW, null;
    }
    status := CheckReads(asked);
    if status != 0 {
      return status, null;
    }
    if !call.allocates {
      return ENOMEM, null;
    }
    batch := new Batch(host, ReadsOf(asked), Found(disks, ReadsOf(asked)));
    if call.sendStatus != 0 {
      batch.Free();
      return call.sendStatus, batch;
    }
    Run(batch, setting, device);
    batch.EndedFreed(old(host.callbacks), old(host.batchFrees), old(host.bounceFrees));
    forall i: nat | i < |asked| && Apart(asked, i)
      ensures Filled(host.memory[..], old(host.memory[..]), asked[i], disks[i], host.statuses[i], batch.direct)
    {
      FilledAt(batch, asked, disks, i);
    }
    StatusesTold(batch, setting, device);
  }

  lemma StatusesTold(batch: Batch, setting: Setting, device: Device)
    requires batch.Delivered() && Answers(batch, setting, device)
    ensures var fault := PrepareStatus(setting, batch.items);
            forall i: nat | i < |batch.items| ::
              if fault != 0 then batch.host.statuses[i] == fault
              else i in device.reported && batch.host.statuses[i] == device.reported[i]
  {
  }

  lemma Divides(count: nat)
    ensures count > (SIZE_MAX - BATCH_SIZE) / ITEM_SIZE <==> BATCH_SIZE + count * ITEM_SIZE > SIZE_MAX
  {
  }
}
