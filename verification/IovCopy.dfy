/** The provider's copies between one buffer and a list of I/O vectors. */
module IovCopy {
  import opened Bytes

  lemma {:induction false} ConcatSplit(pieces: seq<seq<Byte>>, i: nat)
    requires i <= |pieces|
    ensures Concat(pieces) == Concat(pieces[..i]) + Concat(pieces[i..])
  {
    if i == 0 {
      assert pieces[0..] == pieces;
    } else {
      var tail := pieces[1..];
      ConcatSplit(tail, i - 1);
      assert pieces[..i][1..] == tail[..i - 1] && pieces[i..] == tail[i - 1..];
    }
  }

  lemma ConcatNext(pieces: seq<seq<Byte>>, i: nat)
    requires i < |pieces|
    ensures Concat(pieces[..i + 1]) == Concat(pieces[..i]) + pieces[i]
    ensures |Concat(pieces)| >= |Concat(pieces[..i + 1])|
  {
    ConcatSplit(pieces[..i + 1], i);
    ConcatSplit(pieces, i + 1);
    assert pieces[..i + 1][..i] == pieces[..i] && pieces[..i + 1][i..] == [pieces[i]];
    assert Concat([pieces[i]]) == pieces[i] + Concat([]);
  }

  /** The first `copied` bytes of the vectors joined are in the buffer; the rest of it is as before. */
  ghost predicate Gathered(iovs: seq<seq<Byte>>, before: seq<Byte>, now: seq<Byte>, copied: nat, index: nat) {
    && index <= |iovs| && copied <= |before| && copied <= |Concat(iovs[..index])| <= |Concat(iovs)|
    && now == Concat(iovs)[..copied] + before[copied..]
  }

  lemma GatherStep(iovs: seq<seq<Byte>>, before: seq<Byte>, now: seq<Byte>, copied: nat, index: nat, amount: nat)
    requires Gathered(iovs, before, now, copied, index) && index < |iovs| && copied == |Concat(iovs[..index])|
    requires amount <= |iovs[index]| && copied + amount <= |before|
    ensures Gathered(iovs, before, Patched(now, copied, iovs[index][..amount]), copied + amount, index + 1)
    ensures |Concat(iovs[..index + 1])| == copied + |iovs[index]|
  {
    ConcatNext(iovs, index);
    ConcatSplit(iovs, index + 1);
    var all := Concat(iovs);
    assert all[copied..copied + amount] == iovs[index][..amount];
    assert all[..copied + amount] == all[..copied] + iovs[index][..amount];
  }

  lemma GatheredNone(iovs: seq<seq<Byte>>, before: seq<Byte>)
    ensures Gathered(iovs, before, before, 0, 0) && Concat(iovs[..0]) == []
  {
    BothEmpty(iovs, iovs);
  }

  lemma GatheredEnd(iovs: seq<seq<Byte>>, before: seq<Byte>, now: seq<Byte>, copied: nat, index: nat)
    requires Gathered(iovs, before, now, copied, index)
    ensures copied <= |Concat(iovs)| && copied <= |before| && now == Concat(iovs)[..copied] + before[copied..]
    ensures index == |iovs| ==> Concat(iovs) == Concat(iovs[..index])
  {
    assert iovs[..|iovs|] == iovs;
  }

  method CopyFromIovs(destination: array<Byte>, length: nat, iovs: seq<seq<Byte>>) returns (ok: bool)
    requires length <= destination.Length
    modifies destination
    ensures ok <==> length <= |Concat(iovs)|
    ensures var n := Min(length, |Concat(iovs)|); destination[..] == Concat(iovs)[..n] + old(destination[..])[n..]
  {
    hide Concat, Patched, Gathered;
    ghost var before := destination[..];
    GatheredNone(iovs, before);
    var copied: nat, index: nat := 0, 0;
    while index < |iovs| && copied < length
      invariant index <= |iovs| && copied <= length
      invariant Gathered(iovs, before, destination[..], copied, index)
      invariant copied < length ==> copied == |Concat(iovs[..index])|
    {
      var amount := Min(|iovs[index]|, length - copied);
      GatherStep(iovs, before, destination[..], copied, index, amount);
      Memcpy(destination, copied, iovs[index][..amount]);
      copied, index := copied + amount, index + 1;
    }
    GatheredEnd(iovs, before, destination[..], copied, index);
    ok := copied == length;
  }

  ghost function Contents(iovs: seq<array<Byte>>): (r: seq<seq<Byte>>)
    reads iovs
    ensures |r| == |iovs|
  {
    seq(|iovs|, i requires 0 <= i < |iovs| reads iovs => iovs[i][..])
  }

  /** The first `index` vectors hold the first `copied` bytes; all else is as before. */
  ghost predicate Scattered(before: seq<seq<Byte>>, now: seq<seq<Byte>>, source: seq<Byte>, copied: nat, index: nat) {
    && |now| == |before| && index <= |before| && copied <= |source| && copied <= |Concat(before[..index])|
    && Concat(now[..index]) == source[..copied] + Concat(before[..index])[copied..]
    && now[index..] == before[index..]
  }

  lemma BothEmpty(before: seq<seq<Byte>>, now: seq<seq<Byte>>)
    ensures Concat(before[..0]) == [] == Concat(now[..0])
  {
  }

  lemma ScatterStep(before: seq<seq<Byte>>, was: seq<seq<Byte>>, source: seq<Byte>, copied: nat, index: nat, amount: nat)
    requires Scattered(before, was, source, copied, index) && index < |before|
    requires amount <= |before[index]| && copied + amount <= |source| && copied == |Concat(before[..index])|
    ensures was[index] == before[index]
    ensures |Concat(before[..index + 1])| == copied + |before[index]|
    ensures Scattered(before, was[index := Patched(was[index], 0, source[copied..copied + amount])], source, copied + amount, index + 1)
  {
    assert was[index] == was[index..][0] == before[index..][0];
    var piece := Patched(was[index], 0, source[copied..copied + amount]);
    var now := was[index := piece];
    ConcatNext(before, index);
    ConcatNext(now, index);
    assert now[..index] == was[..index] && now[index + 1..] == before[index + 1..] by {
      assert forall k | index < k < |before| :: was[k] == was[index..][k - index] == before[index..][k - index];
    }
    assert piece == source[copied..copied + amount] + before[index][amount..];
    assert source[..copied + amount] == source[..copied] + source[copied..copied + amount];
    assert Concat(before[..index + 1])[copied + amount..] == before[index][amount..];
  }

  lemma ScatteredAll(before: seq<seq<Byte>>, now: seq<seq<Byte>>, source: seq<Byte>, copied: nat, index: nat)
    requires Scattered(before, now, source, copied, index)
    ensures copied <= |Concat(before)| && Concat(now) == source[..copied] + Concat(before)[copied..]
    ensures index == |before| ==> Concat(before) == Concat(before[..index])
  {
    ConcatSplit(before, index);
    ConcatSplit(now, index);
    assert before[..|before|] == before;
  }

  method CopyInto(iovs: seq<array<Byte>>, index: nat, bytes: seq<Byte>)
    requires index < |iovs| && |bytes| <= iovs[index].Length
    requires forall i, j | 0 <= i < j < |iovs| :: iovs[i] != iovs[j]
    modifies iovs[index]
    ensures Contents(iovs) == old(Contents(iovs))[index := Patched(old(iovs[index][..]), 0, bytes)]
  {
    Memcpy(iovs[index], 0, bytes);
  }

  method CopyToIovs(iovs: seq<array<Byte>>, source: array<Byte>, length: nat) returns (ok: bool)
    requires length <= source.Length && source !in iovs
    requires forall i, j | 0 <= i < j < |iovs| :: iovs[i] != iovs[j]
    modifies iovs
    ensures ok <==> length <= |Concat(old(Contents(iovs)))|
    ensures var was := old(Concat(Contents(iovs))); var n := Min(length, |was|);
            Concat(Contents(iovs)) == source[..n] + was[n..]
  {
    hide Concat, Patched;
    ghost var before := Contents(iovs);
    BothEmpty(before, before);
    var copied: nat, index: nat := 0, 0;
    while index < |iovs| && copied < length
      invariant index <= |iovs| && copied <= length
      invariant Scattered(before, Contents(iovs), source[..], copied, index)
      invariant copied < length ==> copied == |Concat(before[..index])|
    {
      ghost var was := Contents(iovs);
      assert iovs[index][..] == was[index] == was[index..][0] == before[index];
      var amount := Min(iovs[index].Length, length - copied);
      CopyInto(iovs, index, source[copied..copied + amount]);
      ScatterStep(before, was, source[..], copied, index, amount);
      copied, index := copied + amount, index + 1;
    }
    ScatteredAll(before, Contents(iovs), source[..], copied, index);
    assert before[..|iovs|] == before;
    ok := copied == length;
  }

  /** What one copy scatters over the vectors the other gathers back. */
  method RoundTrip(iovs: seq<array<Byte>>, source: array<Byte>, destination: array<Byte>, length: nat) returns (ok: bool)
    requires length <= source.Length && length <= destination.Length && source !in iovs && destination != source
    requires forall i, j | 0 <= i < j < |iovs| :: iovs[i] != iovs[j]
    modifies iovs, destination
    ensures ok <==> length <= |Concat(old(Contents(iovs)))|
    ensures ok ==> destination[..length] == source[..length]
  {
    ok := CopyToIovs(iovs, source, length);
    if ok {
      ghost var gathered := Contents(iovs);
      var vectors := seq(|iovs|, i requires 0 <= i < |iovs| reads iovs => iovs[i][..]);
      assert vectors == gathered;
      ok := CopyFromIovs(destination, length, vectors);
      assert destination[..length] == (Concat(gathered)[..length] + destination[..][length..])[..length];
    }
  }
}
