/** The file the endpoint registry keeps its desired endpoints in: a 20-byte header and one 52-byte
    record per endpoint.  The checksum function is a parameter. */
module Codec {
  import opened Wrappers
  import opened Bytes

  const MAX_ENDPOINTS: nat := 1024
  const HEADER_SIZE: nat := 20
  const RECORD_SIZE: nat := 52
  const VERSION: nat := 2
  const MAX_STATE_BYTES: nat := HEADER_SIZE + MAX_ENDPOINTS * RECORD_SIZE

  /** "ZETENDP1" */
  const MAGIC: seq<Byte> := [0x5a, 0x45, 0x54, 0x45, 0x4e, 0x44, 0x50, 0x31]

  type Id = s: seq<Byte> | |s| == 16 witness seq(16, _ => 0)

  /** The one frontend in use; 1, 2 and 4 belonged to retired ones. */
  datatype Frontend = NvmeOfTcp

  const NVME_OF_TCP: Byte := 3

  predicate Retired(frontend: Byte) {
    frontend == 1 || frontend == 2 || frontend == 4
  }

  datatype Spec = Spec(endpointId: Id, poolId: Id, volumeId: Id, frontend: Frontend)

  datatype CodecError = InvalidDesiredState | RetiredEndpointFrontend | TooManyEndpoints

  type U32 = n: nat | n <= U32_MAX

  type Checksum = seq<Byte> -> U32

  function Zeros(n: nat): (r: seq<Byte>)
    ensures |r| == n && forall i | 0 <= i < n :: r[i] == 0
  {
    seq(n, _ => 0)
  }

  predicate IsZero(bytes: seq<Byte>) {
    forall i | 0 <= i < |bytes| :: bytes[i] == 0
  }

  // ---------------------------------------------------------------------------------------------
  // Little-endian integers
  // ---------------------------------------------------------------------------------------------

  function Range(width: nat): (r: nat)
    ensures r > 0
  {
    if width == 0 then 1 else 256 * Range(width - 1)
  }

  function Little(n: nat, width: nat): (r: seq<Byte>)
    ensures |r| == width
  {
    if width == 0 then [] else [n % 256] + Little(n / 256, width - 1)
  }

  function ReadLittle(bytes: seq<Byte>): (n: nat)
    ensures n < Range(|bytes|)
  {
    if bytes == [] then 0 else bytes[0] + 256 * ReadLittle(bytes[1..])
  }

  lemma {:induction false} ReadLittleOf(n: nat, width: nat)
    requires n < Range(width)
    ensures ReadLittle(Little(n, width)) == n
    decreases width
  {
    if width > 0 {
      ReadLittleOf(n / 256, width - 1);
      assert Little(n, width)[1..] == Little(n / 256, width - 1);
    }
  }

  lemma {:induction false} LittleOfRead(bytes: seq<Byte>)
    ensures Little(ReadLittle(bytes), |bytes|) == bytes
    decreases |bytes|
  {
    if bytes != [] {
      LittleOfRead(bytes[1..]);
      assert ReadLittle(bytes) % 256 == bytes[0] && ReadLittle(bytes) / 256 == ReadLittle(bytes[1..]);
    }
  }

  lemma Ranges()
    ensures Range(2) == 0x1_0000 && Range(4) == 0x1_0000_0000
  {
    assert Range(1) == 256 && Range(2) == 0x1_0000 && Range(3) == 0x100_0000;
  }

  // ---------------------------------------------------------------------------------------------
  // The format
  // ---------------------------------------------------------------------------------------------

  function Record(spec: Spec): (r: seq<Byte>)
    ensures |r| == RECORD_SIZE
  {
    spec.endpointId + spec.poolId + spec.volumeId + [NVME_OF_TCP] + Zeros(3)
  }

  function Records(specs: seq<Spec>): (r: seq<Byte>)
    ensures |r| == |specs| * RECORD_SIZE
  {
    if specs == [] then [] else Record(specs[0]) + Records(specs[1..])
  }

  /** The header up to the checksum. */
  function Head(count: nat): (r: seq<Byte>)
    ensures |r| == 16
  {
    MAGIC + Little(VERSION, 2) + Little(RECORD_SIZE, 2) + Little(count, 4)
  }

  function Encoded(specs: seq<Spec>, crc: Checksum): seq<Byte> {
    Head(|specs|) + Little(crc(Records(specs)), 4) + Records(specs)
  }

  function LowFirst(a: nat, b: nat, c: nat, d: nat): nat {
    a + 0x100 * b + 0x1_0000 * c + 0x100_0000 * d
  }

  lemma LittleTwo(n: nat)
    ensures var r := Little(n, 2); r[0] == n % 256 && r[1] == n / 256 % 256
  {
    assert Little(n, 2) == [n % 256] + Little(n / 256, 1);
    assert Little(n / 256, 1) == [n / 256 % 256] + Little(n / 256 / 256, 0);
  }

  lemma LittleFour(n: nat)
    requires n <= U32_MAX
    ensures var r := Little(n, 4); LowFirst(r[0], r[1], r[2], r[3]) == n
  {
    var high := n / 256 / 256;
    assert Little(n, 4) == [n % 256] + Little(n / 256, 3);
    assert Little(n / 256, 3) == [n / 256 % 256] + Little(high, 2);
    LittleTwo(high);
  }

  lemma {:induction false} RecordsAt(specs: seq<Spec>, k: nat)
    requires k < |specs|
    ensures Records(specs)[52 * k..52 * k + 52] == Record(specs[k])
    decreases k
  {
    if k > 0 {
      RecordsAt(specs[1..], k - 1);
      assert Records(specs)[52 * k..52 * k + 52] == Records(specs[1..])[52 * (k - 1)..52 * (k - 1) + 52];
    }
  }

  lemma RecordLayout(spec: Spec)
    ensures var r := Record(spec);
            && |r| == 52 && r[..16] == spec.endpointId && r[16..32] == spec.poolId && r[32..48] == spec.volumeId
            && r[48] == 3 && r[49] == r[50] == r[51] == 0
  {
  }

  /** The bytes of a file.  The magic, then the version 2, the record size 52, the count and the checksum of
      the rest, low bytes first; then the records, each with its three ids, the frontend 3 and three zeros. */
  lemma Layout(specs: seq<Spec>, crc: Checksum)
    requires |specs| <= 1024
    ensures var f := Encoded(specs, crc);
            && |f| == 20 + 52 * |specs|
            && f[..8] == [0x5a, 0x45, 0x54, 0x45, 0x4e, 0x44, 0x50, 0x31]
            && f[8..12] == [2, 0, 52, 0]
            && LowFirst(f[12], f[13], f[14], f[15]) == |specs|
            && LowFirst(f[16], f[17], f[18], f[19]) == crc(f[20..])
            && forall k | 0 <= k < |specs| :: f[20 + 52 * k..72 + 52 * k] == Record(specs[k])
  {
    hide Record, Records;
    var f := Encoded(specs, crc);
    assert Head(|specs|) == f[..16];
    assert f[20..] == Records(specs);
    LittleTwo(2);
    LittleTwo(52);
    LittleFour(|specs|);
    LittleFour(crc(Records(specs)));
    assert f[12..16] == Little(|specs|, 4) && f[16..20] == Little(crc(Records(specs)), 4);
    forall k | 0 <= k < |specs| ensures f[20 + 52 * k..72 + 52 * k] == Record(specs[k]) {
      RecordsAt(specs, k);
      assert f[20..][52 * k..52 * k + 52] == f[20 + 52 * k..72 + 52 * k];
    }
  }

  /** What the last four bytes of a record decide. */
  lemma FrontendMeans(record: seq<Byte>)
    requires |record| == 52
    ensures var r := DecodedRecord(record);
            if record[49] != 0 || record[50] != 0 || record[51] != 0 then r == Err(InvalidDesiredState)
            else if record[48] in [1, 2, 4] then r == Err(RetiredEndpointFrontend)
            else if record[48] != 3 then r == Err(InvalidDesiredState)
            else && r.Ok? && r.value.endpointId == record[..16] && r.value.poolId == record[16..32]
                 && r.value.volumeId == record[32..48]
  {
    assert record[49..] == [record[49], record[50], record[51]];
  }

  function DecodedRecord(record: seq<Byte>): Result<Spec, CodecError>
    requires |record| == RECORD_SIZE
  {
    if !IsZero(record[49..]) then Err(InvalidDesiredState)
    else if Retired(record[48]) then Err(RetiredEndpointFrontend)
    else if record[48] != NVME_OF_TCP then Err(InvalidDesiredState)
    else Ok(Spec(record[..16], record[16..32], record[32..48], NvmeOfTcp))
  }

  function Prepend(specs: seq<Spec>, r: Result<seq<Spec>, CodecError>): Result<seq<Spec>, CodecError> {
    if r.Ok? then Ok(specs + r.value) else r
  }

  /** The first record that does not decode decides. */
  function DecodedRecords(records: seq<Byte>, count: nat): Result<seq<Spec>, CodecError>
    requires |records| == count * RECORD_SIZE
  {
    if count == 0 then Ok([])
    else match DecodedRecord(records[..RECORD_SIZE])
      case Err(e) => Err(e)
      case Ok(spec) => Prepend([spec], DecodedRecords(records[RECORD_SIZE..], count - 1))
  }

  function Version(bytes: seq<Byte>): nat
    requires |bytes| >= HEADER_SIZE
  {
    ReadLittle(bytes[8..10])
  }

  function Count(bytes: seq<Byte>): nat
    requires |bytes| >= HEADER_SIZE
  {
    ReadLittle(bytes[12..16])
  }

  predicate Recognised(bytes: seq<Byte>) {
    |bytes| >= HEADER_SIZE && bytes[..8] == MAGIC
  }

  /** The header is this version's, agrees with the length and carries the records' checksum. */
  predicate Framed(bytes: seq<Byte>, crc: Checksum) {
    && Recognised(bytes) && Version(bytes) == VERSION && ReadLittle(bytes[10..12]) == RECORD_SIZE
    && Count(bytes) <= MAX_ENDPOINTS && |bytes| == HEADER_SIZE + Count(bytes) * RECORD_SIZE
    && ReadLittle(bytes[16..20]) == crc(bytes[HEADER_SIZE..])
  }

  function Decoded(bytes: seq<Byte>, crc: Checksum): Result<seq<Spec>, CodecError> {
    if Recognised(bytes) && Version(bytes) == 1 then Err(RetiredEndpointFrontend)
    else if !Framed(bytes, crc) then Err(InvalidDesiredState)
    else DecodedRecords(bytes[HEADER_SIZE..], Count(bytes))
  }

  // ---------------------------------------------------------------------------------------------
  // Round trips
  // ---------------------------------------------------------------------------------------------

  lemma RecordRoundTrip(spec: Spec)
    ensures DecodedRecord(Record(spec)) == Ok(spec)
  {
    var record := Record(spec);
    assert record[..16] == spec.endpointId && record[16..32] == spec.poolId && record[32..48] == spec.volumeId;
    assert record[48] == NVME_OF_TCP && record[49..] == Zeros(3) && spec.frontend == NvmeOfTcp;
  }

  lemma RecordCanonical(record: seq<Byte>)
    requires |record| == RECORD_SIZE && DecodedRecord(record).Ok?
    ensures Record(DecodedRecord(record).value) == record
  {
    assert record[49..] == Zeros(3);
    assert record == record[..16] + record[16..32] + record[32..48] + [record[48]] + record[49..];
  }

  lemma {:induction false} RecordsRoundTrip(specs: seq<Spec>)
    ensures DecodedRecords(Records(specs), |specs|) == Ok(specs)
  {
    if specs != [] {
      RecordRoundTrip(specs[0]);
      RecordsRoundTrip(specs[1..]);
      assert Records(specs)[..RECORD_SIZE] == Record(specs[0]) && Records(specs)[RECORD_SIZE..] == Records(specs[1..]);
      assert [specs[0]] + specs[1..] == specs;
    }
  }

  lemma {:induction false} RecordsCanonical(records: seq<Byte>, count: nat)
    requires |records| == count * RECORD_SIZE && DecodedRecords(records, count).Ok?
    ensures var specs := DecodedRecords(records, count).value; |specs| == count && Records(specs) == records
  {
    if count > 0 {
      var first, rest := records[..RECORD_SIZE], records[RECORD_SIZE..];
      RecordCanonical(first);
      RecordsCanonical(rest, count - 1);
      var specs := DecodedRecords(records, count).value;
      assert specs[1..] == DecodedRecords(rest, count - 1).value;
      assert records == first + rest;
    }
  }

  lemma HeadParts(bytes: seq<Byte>)
    requires |bytes| >= HEADER_SIZE
    ensures bytes == bytes[..8] + bytes[8..10] + bytes[10..12] + bytes[12..16] + bytes[16..20] + bytes[20..]
  {
  }

  lemma EncodedParts(specs: seq<Spec>, crc: Checksum)
    ensures var b := Encoded(specs, crc);
            && |b| == HEADER_SIZE + |specs| * RECORD_SIZE
            && b[..8] == MAGIC && b[8..10] == Little(VERSION, 2) && b[10..12] == Little(RECORD_SIZE, 2)
            && b[12..16] == Little(|specs|, 4) && b[16..20] == Little(crc(Records(specs)), 4) && b[20..] == Records(specs)
  {
    hide Little, Records;
    SixParts(MAGIC, Little(VERSION, 2), Little(RECORD_SIZE, 2), Little(|specs|, 4), Little(crc(Records(specs)), 4), Records(specs));
  }

  lemma SixParts(a: seq<Byte>, b: seq<Byte>, c: seq<Byte>, d: seq<Byte>, e: seq<Byte>, f: seq<Byte>)
    requires |a| == 8 && |b| == 2 && |c| == 2 && |d| == 4 && |e| == 4
    ensures var s := a + b + c + d + e + f;
            s[..8] == a && s[8..10] == b && s[10..12] == c && s[12..16] == d && s[16..20] == e && s[20..] == f
  {
  }

  /** Decoding what was encoded gives the list back. */
  lemma DecodeOfEncode(specs: seq<Spec>, crc: Checksum)
    requires |specs| <= MAX_ENDPOINTS
    ensures Decoded(Encoded(specs, crc), crc) == Ok(specs)
  {
    hide Encoded, Records, DecodedRecords, Little, ReadLittle, Range;
    EncodedParts(specs, crc);
    Ranges();
    ReadLittleOf(VERSION, 2);
    ReadLittleOf(RECORD_SIZE, 2);
    ReadLittleOf(|specs|, 4);
    ReadLittleOf(crc(Records(specs)), 4);
    RecordsRoundTrip(specs);
  }

  /** Bytes that decode are the encoding of what they decode to. */
  lemma EncodeOfDecode(bytes: seq<Byte>, crc: Checksum)
    requires Decoded(bytes, crc).Ok?
    ensures var specs := Decoded(bytes, crc).value; |specs| <= MAX_ENDPOINTS && Encoded(specs, crc) == bytes
  {
    hide Records, DecodedRecords, Little, ReadLittle, Range;
    HeadParts(bytes);
    LittleOfRead(bytes[8..10]);
    LittleOfRead(bytes[10..12]);
    LittleOfRead(bytes[12..16]);
    LittleOfRead(bytes[16..20]);
    RecordsCanonical(bytes[HEADER_SIZE..], Count(bytes));
  }

  /** The byte strings accepted are exactly the encodings of lists of at most 1024 endpoints. */
  lemma AcceptsExactlyEncodings(bytes: seq<Byte>, crc: Checksum)
    ensures Decoded(bytes, crc).Ok? <==> exists specs: seq<Spec> :: |specs| <= MAX_ENDPOINTS && Encoded(specs, crc) == bytes
  {
    hide Encoded, Decoded;
    if Decoded(bytes, crc).Ok? {
      EncodeOfDecode(bytes, crc);
    }
    if specs: seq<Spec> :| |specs| <= MAX_ENDPOINTS && Encoded(specs, crc) == bytes {
      DecodeOfEncode(specs, crc);
    }
  }

  // ---------------------------------------------------------------------------------------------
  // Rejection
  // ---------------------------------------------------------------------------------------------

  function RecordAt(records: seq<Byte>, i: nat): (r: seq<Byte>)
    requires (i + 1) * RECORD_SIZE <= |records|
    ensures |r| == RECORD_SIZE
  {
    records[i * RECORD_SIZE..(i + 1) * RECORD_SIZE]
  }

  predicate Decodes(records: seq<Byte>, i: nat)
    requires (i + 1) * RECORD_SIZE <= |records|
  {
    DecodedRecord(RecordAt(records, i)).Ok?
  }

  lemma RecordAfter(records: seq<Byte>, i: nat)
    requires (i + 2) * RECORD_SIZE <= |records|
    ensures RecordAt(records[RECORD_SIZE..], i) == RecordAt(records, i + 1)
  {
  }

  /** The first record that does not decode decides. */
  lemma {:induction false} FirstBadDecides(records: seq<Byte>, count: nat, i: nat)
    requires |records| == count * RECORD_SIZE && i < count && !Decodes(records, i)
    requires forall j: nat | j < i :: Decodes(records, j)
    ensures DecodedRecords(records, count) == Err(DecodedRecord(RecordAt(records, i)).error)
    decreases i
  {
    assert RecordAt(records, 0) == records[..RECORD_SIZE];
    if i > 0 {
      var rest := records[RECORD_SIZE..];
      assert Decodes(records, 0);
      forall j: nat | j < i ensures RecordAt(rest, j) == RecordAt(records, j + 1) {
        RecordAfter(records, j);
      }
      forall j: nat | j < i - 1 ensures Decodes(rest, j) {
        assert Decodes(records, j + 1);
      }
      FirstBadDecides(rest, count - 1, i - 1);
    }
  }

  lemma {:induction false} GoodRecordsDecode(records: seq<Byte>, count: nat)
    requires |records| == count * RECORD_SIZE && forall j: nat | j < count :: Decodes(records, j)
    ensures DecodedRecords(records, count).Ok?
    decreases count
  {
    if count > 0 {
      var rest := records[RECORD_SIZE..];
      assert RecordAt(records, 0) == records[..RECORD_SIZE] && Decodes(records, 0);
      forall j: nat | j < count - 1 ensures Decodes(rest, j) {
        RecordAfter(records, j);
        assert Decodes(records, j + 1);
      }
      GoodRecordsDecode(rest, count - 1);
    }
  }

  /** A retired or unknown frontend byte in any record, wherever it stands, rejects the whole file. */
  lemma BadFrontendRejects(bytes: seq<Byte>, crc: Checksum, i: nat)
    requires HEADER_SIZE + (i + 1) * RECORD_SIZE <= |bytes|
    requires RecordAt(bytes[HEADER_SIZE..], i)[48] != NVME_OF_TCP
    ensures Decoded(bytes, crc).Err?
  {
    hide DecodedRecords, Decodes;
    if Framed(bytes, crc) {
      BadRecord(bytes[HEADER_SIZE..], i);
      var first := FirstBad(bytes[HEADER_SIZE..], Count(bytes), i);
      FirstBadDecides(bytes[HEADER_SIZE..], Count(bytes), first);
    }
  }

  lemma BadRecord(records: seq<Byte>, i: nat)
    requires (i + 1) * RECORD_SIZE <= |records| && RecordAt(records, i)[48] != NVME_OF_TCP
    ensures !Decodes(records, i)
  {
  }

  lemma FirstBad(records: seq<Byte>, count: nat, bad: nat) returns (i: nat)
    requires |records| == count * RECORD_SIZE && bad < count && !Decodes(records, bad)
    ensures i <= bad && !Decodes(records, i) && forall j: nat | j < i :: Decodes(records, j)
  {
    hide Decodes;
    i := 0;
    while Decodes(records, i)
      invariant i <= bad && forall j: nat | j < i :: Decodes(records, j)
      decreases bad - i
    {
      i := i + 1;
    }
  }

  ghost predicate FirstRetired(records: seq<Byte>, count: nat, i: nat)
    requires |records| == count * RECORD_SIZE
  {
    && i < count && Retired(RecordAt(records, i)[48]) && IsZero(RecordAt(records, i)[49..])
    && forall j: nat | j < i :: Decodes(records, j)
  }

  lemma {:induction false} RetiredRecords(records: seq<Byte>, count: nat)
    requires |records| == count * RECORD_SIZE
    ensures DecodedRecords(records, count) == Err(RetiredEndpointFrontend) <==> exists i :: FirstRetired(records, count, i)
  {
    hide DecodedRecords;
    if i :| FirstRetired(records, count, i) {
      FirstBadDecides(records, count, i);
    }
    if DecodedRecords(records, count) == Err(RetiredEndpointFrontend) {
      if forall j: nat | j < count :: Decodes(records, j) {
        GoodRecordsDecode(records, count);
      } else {
        var bad: nat :| bad < count && !Decodes(records, bad);
        var i := FirstBad(records, count, bad);
        FirstBadDecides(records, count, i);
        assert FirstRetired(records, count, i);
      }
    }
  }

  /** The retired-frontend error is given exactly for version 1 files and for framed files whose first
      undecodable record is a retired frontend's. */
  lemma RetiredExactly(bytes: seq<Byte>, crc: Checksum)
    ensures Decoded(bytes, crc) == Err(RetiredEndpointFrontend) <==>
            || (Recognised(bytes) && Version(bytes) == 1)
            || (Framed(bytes, crc) && exists i :: FirstRetired(bytes[HEADER_SIZE..], Count(bytes), i))
  {
    hide DecodedRecords, FirstRetired;
    if Framed(bytes, crc) {
      RetiredRecords(bytes[HEADER_SIZE..], Count(bytes));
    }
  }

  // ---------------------------------------------------------------------------------------------
  // The code
  // ---------------------------------------------------------------------------------------------

  lemma PatchNext(buffer: seq<Byte>, at: nat, first: seq<Byte>, second: seq<Byte>)
    requires at + |first| + |second| <= |buffer|
    ensures |Patched(buffer, at, first)| == |buffer|
    ensures Patched(Patched(buffer, at, first), at + |first|, second) == Patched(buffer, at, first + second)
  {
  }

  lemma PatchKeeps(buffer: seq<Byte>, at: nat, first: seq<Byte>, kept: seq<Byte>)
    requires at + |first| + |kept| <= |buffer| && buffer[at + |first|..at + |first| + |kept|] == kept
    ensures Patched(buffer, at, first) == Patched(buffer, at, first + kept)
  {
    var n := at + |first|;
    assert buffer[n..] == buffer[n..n + |kept|] + buffer[n + |kept|..];
  }

  method FillRecord(bytes: array<Byte>, at: nat, spec: Spec)
    requires at + RECORD_SIZE <= bytes.Length && IsZero(bytes[at..at + RECORD_SIZE])
    modifies bytes
    ensures bytes[..] == Patched(old(bytes[..]), at, Record(spec))
  {
    hide Patched;
    ghost var before := bytes[..];
    Memcpy(bytes, at, spec.endpointId);
    PatchNext(before, at, spec.endpointId, spec.poolId);
    Memcpy(bytes, at + 16, spec.poolId);
    PatchNext(before, at, spec.endpointId + spec.poolId, spec.volumeId);
    Memcpy(bytes, at + 32, spec.volumeId);
    ghost var ids := spec.endpointId + spec.poolId + spec.volumeId;
    PatchNext(before, at, ids, [NVME_OF_TCP]);
    Memcpy(bytes, at + 48, [NVME_OF_TCP]);
    assert before[at + 49..at + RECORD_SIZE] == before[at..at + RECORD_SIZE][49..] == Zeros(3);
    PatchKeeps(before, at, ids + [NVME_OF_TCP], Zeros(3));
  }

  method FillHead(bytes: array<Byte>, count: nat)
    requires HEADER_SIZE <= bytes.Length
    modifies bytes
    ensures bytes[..] == Patched(old(bytes[..]), 0, Head(count))
  {
    hide Little, Patched;
    ghost var before := bytes[..];
    Memcpy(bytes, 0, MAGIC);
    PatchNext(before, 0, MAGIC, Little(VERSION, 2));
    Memcpy(bytes, 8, Little(VERSION, 2));
    PatchNext(before, 0, MAGIC + Little(VERSION, 2), Little(RECORD_SIZE, 2));
    Memcpy(bytes, 10, Little(RECORD_SIZE, 2));
    PatchNext(before, 0, MAGIC + Little(VERSION, 2) + Little(RECORD_SIZE, 2), Little(count, 4));
    Memcpy(bytes, 12, Little(count, 4));
  }

  lemma RecordsNext(specs: seq<Spec>, i: nat)
    requires i < |specs|
    ensures Records(specs[..i + 1]) == Records(specs[..i]) + Record(specs[i])
  {
    assert specs[..i + 1] == specs[..i] + [specs[i]];
    RecordsAppend(specs[..i], specs[i]);
  }

  lemma {:induction false} RecordsAppend(specs: seq<Spec>, spec: Spec)
    ensures Records(specs + [spec]) == Records(specs) + Record(spec)
  {
    if specs == [] {
      assert specs + [spec] == [spec];
    } else {
      RecordsAppend(specs[1..], spec);
      assert (specs + [spec])[1..] == specs[1..] + [spec];
    }
  }

  /** The buffer with the first `i` records filled in and the checksum still zero. */
  ghost predicate Filled(bytes: seq<Byte>, specs: seq<Spec>, i: nat) {
    && i <= |specs| && |bytes| == HEADER_SIZE + |specs| * RECORD_SIZE
    && bytes[..HEADER_SIZE] == Head(|specs|) + Zeros(4)
    && bytes[HEADER_SIZE..HEADER_SIZE + i * RECORD_SIZE] == Records(specs[..i])
    && IsZero(bytes[HEADER_SIZE + i * RECORD_SIZE..])
  }

  lemma FilledNone(bytes: seq<Byte>, specs: seq<Spec>)
    requires bytes == Patched(Zeros(HEADER_SIZE + |specs| * RECORD_SIZE), 0, Head(|specs|))
    ensures Filled(bytes, specs, 0)
  {
    hide Head;
    assert bytes[..HEADER_SIZE] == Head(|specs|) + Zeros(4);
    assert specs[..0] == [] && bytes[HEADER_SIZE..HEADER_SIZE + 0 * RECORD_SIZE] == [];
  }

  lemma FillNext(bytes: seq<Byte>, specs: seq<Spec>, i: nat)
    requires Filled(bytes, specs, i) && i < |specs|
    ensures HEADER_SIZE + (i + 1) * RECORD_SIZE <= |bytes|
    ensures IsZero(bytes[HEADER_SIZE + i * RECORD_SIZE..HEADER_SIZE + (i + 1) * RECORD_SIZE])
    ensures Filled(Patched(bytes, HEADER_SIZE + i * RECORD_SIZE, Record(specs[i])), specs, i + 1)
  {
    hide Record, Records, Head;
    var at := HEADER_SIZE + i * RECORD_SIZE;
    assert forall k | at <= k < |bytes| :: bytes[k] == bytes[at..][k - at] == 0;
    var next := Patched(bytes, at, Record(specs[i]));
    RecordsNext(specs, i);
    assert next[..HEADER_SIZE] == bytes[..HEADER_SIZE];
    assert next[HEADER_SIZE..at + RECORD_SIZE] == bytes[HEADER_SIZE..at] + Record(specs[i]);
  }

  lemma FilledAll(bytes: seq<Byte>, specs: seq<Spec>, crc: Checksum)
    requires Filled(bytes, specs, |specs|)
    ensures bytes[HEADER_SIZE..] == Records(specs)
    ensures Patched(bytes, 16, Little(crc(Records(specs)), 4)) == Encoded(specs, crc)
  {
    hide Record, Records, Head, Little;
    assert specs[..|specs|] == specs;
    assert bytes[HEADER_SIZE..] == bytes[HEADER_SIZE..HEADER_SIZE + |specs| * RECORD_SIZE];
    assert bytes[..16] == bytes[..HEADER_SIZE][..16] == Head(|specs|);
  }

  method Encode(specs: seq<Spec>, crc: Checksum) returns (r: Result<seq<Byte>, CodecError>)
    ensures r == if |specs| <= MAX_ENDPOINTS then Ok(Encoded(specs, crc)) else Err(TooManyEndpoints)
  {
    if |specs| > MAX_ENDPOINTS {
      return Err(TooManyEndpoints);
    }
    hide Filled, Patched, Record, Records, Head, Little;
    var bytes := new Byte[HEADER_SIZE + |specs| * RECORD_SIZE](_ => 0);
    assert bytes[..] == Zeros(HEADER_SIZE + |specs| * RECORD_SIZE);
    FillHead(bytes, |specs|);
    FilledNone(bytes[..], specs);
    var index: nat := 0;
    while index < |specs|
      invariant index <= |specs| && Filled(bytes[..], specs, index)
    {
      FillNext(bytes[..], specs, index);
      FillRecord(bytes, HEADER_SIZE + index * RECORD_SIZE, specs[index]);
      index := index + 1;
    }
    FilledAll(bytes[..], specs, crc);
    Memcpy(bytes, 16, Little(crc(bytes[HEADER_SIZE..]), 4));
    return Ok(bytes[..]);
  }

  /** Stops at the first record that does not decode. */
  method DecodeRecords(records: seq<Byte>, count: nat) returns (r: Result<seq<Spec>, CodecError>)
    requires |records| == count * RECORD_SIZE
    ensures r == DecodedRecords(records, count)
  {
    hide DecodedRecords;
    var specs: seq<Spec> := [];
    var index: nat := 0;
    assert records[0..] == records;
    PrependNone([], DecodedRecords(records, count));
    while index < count
      invariant index <= count && |records[index * RECORD_SIZE..]| == (count - index) * RECORD_SIZE
      invariant DecodedRecords(records, count) == Prepend(specs, DecodedRecords(records[index * RECORD_SIZE..], count - index))
    {
      DecodedNext(records, count, index);
      var record := records[index * RECORD_SIZE..(index + 1) * RECORD_SIZE];
      if !IsZero(record[49..]) {
        return Err(InvalidDesiredState);
      }
      if record[48] == 1 || record[48] == 2 || record[48] == 4 {
        return Err(RetiredEndpointFrontend);
      }
      if record[48] != NVME_OF_TCP {
        return Err(InvalidDesiredState);
      }
      var spec := Spec(record[..16], record[16..32], record[32..48], NvmeOfTcp);
      PrependTwice(specs, spec, DecodedRecords(records[(index + 1) * RECORD_SIZE..], count - index - 1));
      specs := specs + [spec];
      index := index + 1;
    }
    DecodedNone(records[index * RECORD_SIZE..]);
    PrependNone(specs, Ok([]));
    return Ok(specs);
  }

  lemma PrependTwice(specs: seq<Spec>, spec: Spec, r: Result<seq<Spec>, CodecError>)
    ensures Prepend(specs, Prepend([spec], r)) == Prepend(specs + [spec], r)
  {
    if r.Ok? {
      assert specs + ([spec] + r.value) == specs + [spec] + r.value;
    }
  }

  lemma PrependNone(specs: seq<Spec>, r: Result<seq<Spec>, CodecError>)
    ensures Prepend([], r) == r && Prepend(specs, Ok([])) == Ok(specs)
  {
    assert specs + [] == specs;
    if r.Ok? {
      assert [] + r.value == r.value;
    }
  }

  lemma DecodedNone(records: seq<Byte>)
    requires |records| == 0
    ensures DecodedRecords(records, 0) == Ok([])
  {
  }

  lemma DecodedNext(records: seq<Byte>, count: nat, i: nat)
    requires |records| == count * RECORD_SIZE && i < count
    ensures (i + 1) * RECORD_SIZE <= |records|
    ensures var record := records[i * RECORD_SIZE..(i + 1) * RECORD_SIZE];
            && |records[i * RECORD_SIZE..]| == (count - i) * RECORD_SIZE
            && |records[(i + 1) * RECORD_SIZE..]| == (count - i - 1) * RECORD_SIZE
            && DecodedRecords(records[i * RECORD_SIZE..], count - i) ==
               if DecodedRecord(record).Err? then Err(DecodedRecord(record).error)
               else Prepend([DecodedRecord(record).value], DecodedRecords(records[(i + 1) * RECORD_SIZE..], count - i - 1))
  {
    hide DecodedRecord, Prepend;
    var rest := records[i * RECORD_SIZE..];
    assert rest[..RECORD_SIZE] == records[i * RECORD_SIZE..(i + 1) * RECORD_SIZE];
    assert rest[RECORD_SIZE..] == records[(i + 1) * RECORD_SIZE..];
  }

  method Decode(bytes: seq<Byte>, crc: Checksum) returns (r: Result<seq<Spec>, CodecError>)
    ensures r == Decoded(bytes, crc)
  {
    if |bytes| < HEADER_SIZE || bytes[..8] != MAGIC {
      return Err(InvalidDesiredState);
    }
    var version := ReadLittle(bytes[8..10]);
    var recordSize := ReadLittle(bytes[10..12]);
    if version == 1 {
      return Err(RetiredEndpointFrontend);
    } else if version != VERSION || recordSize != RECORD_SIZE {
      return Err(InvalidDesiredState);
    }
    var count := ReadLittle(bytes[12..16]);
    if count > MAX_ENDPOINTS || |bytes| != HEADER_SIZE + count * RECORD_SIZE {
      return Err(InvalidDesiredState);
    }
    if ReadLittle(bytes[16..20]) != crc(bytes[HEADER_SIZE..]) {
      return Err(InvalidDesiredState);
    }
    r := DecodeRecords(bytes[HEADER_SIZE..], count);
  }
}
