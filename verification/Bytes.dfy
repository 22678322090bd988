/** Bytes, machine words and files.  A file is a sequence of bytes; a write past its end fills the
    gap with zeros, as a positional write to a file does. */
module Bytes {

  type Byte = n: nat | n < 256

  const U64_MAX: nat := 0xffff_ffff_ffff_ffff
  const U32_MAX: nat := 0xffff_ffff

  type File = seq<Byte>

  function Max(a: nat, b: nat): nat { if a < b then b else a }

  function Min(a: nat, b: nat): nat { if a < b then a else b }

  /** The byte at a position; zero past the end. */
  function Get(f: File, x: nat): Byte {
    if x < |f| then f[x] else 0
  }

  datatype Write = Write(bytes: seq<Byte>, offset: nat) {
    function End(): nat { offset + |bytes| }

    predicate Covers(x: nat) { offset <= x < End() }
  }

  function SizeAfter(size: nat, w: Write): nat {
    if w.bytes == [] then size else Max(size, w.End())
  }

  function Apply(f: File, w: Write): (r: File)
    ensures |r| == SizeAfter(|f|, w)
  {
    seq(SizeAfter(|f|, w), x requires 0 <= x < SizeAfter(|f|, w) =>
      if w.Covers(x) then w.bytes[x - w.offset] else Get(f, x))
  }

  /** The writes applied one by one. */
  function ApplyAll(f: File, writes: seq<Write>): File
    decreases |writes|
  {
    if writes == [] then f else Apply(ApplyAll(f, writes[..|writes| - 1]), writes[|writes| - 1])
  }

  lemma {:induction false} ApplyAllConcat(f: File, a: seq<Write>, b: seq<Write>)
    ensures ApplyAll(f, a + b) == ApplyAll(ApplyAll(f, a), b)
    decreases |b|
  {
    if b == [] {
      assert a + b == a;
    } else {
      assert (a + b)[..|a + b| - 1] == a + b[..|b| - 1];
      ApplyAllConcat(f, a, b[..|b| - 1]);
    }
  }

  ghost predicate Overlap(v: Write, w: Write) {
    exists x: nat :: v.Covers(x) && w.Covers(x)
  }

  ghost predicate Disjoint(writes: seq<Write>) {
    forall i, j | 0 <= i < j < |writes| :: !Overlap(writes[i], writes[j])
  }

  ghost predicate Covered(writes: seq<Write>, x: nat) {
    exists i :: 0 <= i < |writes| && writes[i].Covers(x)
  }

  function SizeAfterAll(size: nat, writes: seq<Write>): nat
    decreases |writes|
  {
    if writes == [] then size
    else SizeAfter(SizeAfterAll(size, writes[..|writes| - 1]), writes[|writes| - 1])
  }

  // ---------------------------------------------------------------------------------------------
  // Progress of a set of writes carried out piecemeal
  // ---------------------------------------------------------------------------------------------

  /** `f` differs from `f0` only where the writes go. */
  ghost predicate Within(f0: File, f: File, writes: seq<Write>) {
    && |f0| <= |f| <= SizeAfterAll(|f0|, writes)
    && forall x: nat | !Covered(writes, x) :: Get(f, x) == Get(f0, x)
  }

  /** The first `done` bytes of the write are in the file. */
  predicate Landed(f: File, w: Write, done: nat) {
    && done <= |w.bytes|
    && (done > 0 ==> w.offset + done <= |f|)
    && forall k | 0 <= k < done :: Get(f, w.offset + k) == w.bytes[k]
  }

  lemma {:induction false} SizeAfterAllGrows(size: nat, writes: seq<Write>, i: nat)
    requires i < |writes|
    ensures size <= SizeAfterAll(size, writes)
    ensures writes[i].bytes != [] ==> writes[i].End() <= SizeAfterAll(size, writes)
    decreases |writes|
  {
    var n := |writes| - 1;
    if n > 0 {
      SizeAfterAllGrows(size, writes[..n], if i < n then i else 0);
    } else {
      assert writes[..n] == [];
    }
  }

  lemma {:induction false} ApplyAllSize(f: File, writes: seq<Write>)
    ensures |ApplyAll(f, writes)| == SizeAfterAll(|f|, writes)
    decreases |writes|
  {
    if writes != [] {
      ApplyAllSize(f, writes[..|writes| - 1]);
    }
  }

  lemma ApplyGet(f: File, w: Write, x: nat)
    ensures Get(Apply(f, w), x) == if w.Covers(x) then w.bytes[x - w.offset] else Get(f, x)
  {
  }

  lemma {:induction false} ApplyAllOutside(f: File, writes: seq<Write>, x: nat)
    requires !Covered(writes, x)
    ensures Get(ApplyAll(f, writes), x) == Get(f, x)
    decreases |writes|
  {
    if writes != [] {
      var n := |writes| - 1;
      assert forall i | 0 <= i < n :: writes[..n][i] == writes[i] && !writes[i].Covers(x);
      assert !Covered(writes[..n], x);
      ApplyAllOutside(f, writes[..n], x);
      ApplyGet(ApplyAll(f, writes[..n]), writes[n], x);
    }
  }

  /** Of disjoint writes, each one is in the end at its place. */
  lemma {:induction false} ApplyAllInside(f: File, writes: seq<Write>, i: nat, x: nat)
    requires Disjoint(writes) && i < |writes| && writes[i].Covers(x)
    ensures Get(ApplyAll(f, writes), x) == writes[i].bytes[x - writes[i].offset]
    decreases |writes|
  {
    var n := |writes| - 1;
    ApplyGet(ApplyAll(f, writes[..n]), writes[n], x);
    if i < n {
      assert !Overlap(writes[i], writes[n]);
      assert !writes[n].Covers(x);
      assert Disjoint(writes[..n]) by {
        forall a, b | 0 <= a < b < n ensures !Overlap(writes[..n][a], writes[..n][b]) {
          assert !Overlap(writes[a], writes[b]);
        }
      }
      ApplyAllInside(f, writes[..n], i, x);
    }
  }

  lemma FilesEqual(a: File, b: File)
    requires |a| == |b| && forall x: nat | x < |a| :: Get(a, x) == Get(b, x)
    ensures a == b
  {
    forall x | 0 <= x < |a| ensures a[x] == b[x] {
      assert Get(a, x) == Get(b, x);
    }
  }

  /** The largest end of a nonempty write, or the old size, is where the writes take the file. */
  lemma {:induction false} SizeReached(size: nat, writes: seq<Write>)
    ensures || SizeAfterAll(size, writes) == size
            || exists i :: 0 <= i < |writes| && writes[i].bytes != [] && SizeAfterAll(size, writes) == writes[i].End()
    decreases |writes|
  {
    if writes != [] {
      var n := |writes| - 1;
      SizeReached(size, writes[..n]);
      var before := SizeAfterAll(size, writes[..n]);
      if SizeAfterAll(size, writes) != before {
        assert writes[n].bytes != [] && SizeAfterAll(size, writes) == writes[n].End();
      } else if before != size {
        var i :| 0 <= i < n && writes[..n][i].bytes != [] && before == writes[..n][i].End();
        assert writes[i].bytes != [] && SizeAfterAll(size, writes) == writes[i].End();
      }
    }
  }

  /** Disjoint writes that have all landed, in whatever order and pieces, leave the file that
      applying them one by one leaves. */
  lemma AllLanded(f0: File, f: File, writes: seq<Write>)
    requires Disjoint(writes) && Within(f0, f, writes)
    requires forall i | 0 <= i < |writes| :: Landed(f, writes[i], |writes[i].bytes|)
    ensures f == ApplyAll(f0, writes)
  {
    var g := ApplyAll(f0, writes);
    ApplyAllSize(f0, writes);
    SizeReached(|f0|, writes);
    assert |f| == |g|;
    forall x: nat | x < |f| ensures Get(f, x) == Get(g, x) {
      if Covered(writes, x) {
        var i :| 0 <= i < |writes| && writes[i].Covers(x);
        ApplyAllInside(f0, writes, i, x);
        assert Landed(f, writes[i], |writes[i].bytes|);
        var k := x - writes[i].offset;
        assert Get(f, writes[i].offset + k) == writes[i].bytes[k];
      } else {
        ApplyAllOutside(f0, writes, x);
      }
    }
    FilesEqual(f, g);
  }

  /** A piece of one write lands: `n` of its bytes are the next ones of that write, whatever else
      it leaves in the rest of that write's range. */
  lemma PieceKeepsWithin(f0: File, f: File, writes: seq<Write>, i: nat, d: nat, piece: Write)
    requires i < |writes| && Within(f0, f, writes)
    requires piece.offset == writes[i].offset + d && d + |piece.bytes| <= |writes[i].bytes|
    ensures Within(f0, Apply(f, piece), writes)
  {
    SizeAfterAllGrows(|f0|, writes, i);
    forall x: nat | !Covered(writes, x) ensures Get(Apply(f, piece), x) == Get(f0, x) {
      assert !writes[i].Covers(x);
      ApplyGet(f, piece, x);
    }
  }

  lemma PieceLands(f: File, w: Write, d: nat, piece: Write, n: nat)
    requires Landed(f, w, d)
    requires piece.offset == w.offset + d && d + |piece.bytes| <= |w.bytes|
    requires n <= |piece.bytes| && piece.bytes[..n] == w.bytes[d..d + n]
    ensures Landed(Apply(f, piece), w, d + n)
  {
    var g := Apply(f, piece);
    forall k | 0 <= k < d + n ensures Get(g, w.offset + k) == w.bytes[k] {
      ApplyGet(f, piece, w.offset + k);
      if k >= d {
        assert piece.bytes[..n][k - d] == w.bytes[d..d + n][k - d];
      }
    }
  }

  lemma PieceSpares(f: File, w: Write, e: nat, other: Write, d: nat, piece: Write)
    requires Landed(f, w, e) && !Overlap(w, other)
    requires piece.offset == other.offset + d && d + |piece.bytes| <= |other.bytes|
    ensures Landed(Apply(f, piece), w, e)
  {
    forall k | 0 <= k < e ensures Get(Apply(f, piece), w.offset + k) == w.bytes[k] {
      assert w.Covers(w.offset + k);
      assert !other.Covers(w.offset + k);
      ApplyGet(f, piece, w.offset + k);
    }
  }

  /** What a piece of one write may touch is within what the writes may touch. */
  lemma WithinPiece(f0: File, f: File, g: File, writes: seq<Write>, i: nat, d: nat, piece: Write)
    requires i < |writes| && Within(f0, f, writes) && Within(f, g, [piece])
    requires piece.offset == writes[i].offset + d && d + |piece.bytes| <= |writes[i].bytes|
    ensures Within(f0, g, writes)
  {
    SizeAfterAllGrows(|f0|, writes, i);
    assert [piece][..0] == [];
    assert SizeAfterAll(|f|, [piece]) == SizeAfter(|f|, piece);
    forall x: nat | !Covered(writes, x) ensures Get(g, x) == Get(f0, x) {
      assert !writes[i].Covers(x);
      assert !Covered([piece], x);
    }
  }

  lemma WithinNone(f0: File, f: File)
    requires Within(f0, f, [])
    ensures f == f0
  {
    FilesEqual(f, f0);
  }

  lemma WithinRefl(f: File, writes: seq<Write>)
    ensures Within(f, f, writes)
  {
    if writes != [] {
      SizeAfterAllGrows(|f|, writes, 0);
    }
  }

  /** One write carried out completely is that write applied. */
  lemma OneLanded(f0: File, f: File, w: Write)
    requires Within(f0, f, [w]) && Landed(f, w, |w.bytes|)
    ensures f == Apply(f0, w)
  {
    AllLanded(f0, f, [w]);
    assert [w][..0] == [];
    assert ApplyAll(f0, [w]) == Apply(ApplyAll(f0, []), w);
  }

  // ---------------------------------------------------------------------------------------------
  // Contiguous writes
  // ---------------------------------------------------------------------------------------------

  function Concat(pieces: seq<seq<Byte>>): seq<Byte> {
    if pieces == [] then [] else pieces[0] + Concat(pieces[1..])
  }

  lemma ApplyAppend(f: File, offset: nat, a: seq<Byte>, b: seq<Byte>)
    ensures Apply(Apply(f, Write(a, offset)), Write(b, offset + |a|)) == Apply(f, Write(a + b, offset))
  {
    var left := Apply(Apply(f, Write(a, offset)), Write(b, offset + |a|));
    var right := Apply(f, Write(a + b, offset));
    forall x: nat | x < |left| ensures Get(left, x) == Get(right, x) {
      ApplyGet(Apply(f, Write(a, offset)), Write(b, offset + |a|), x);
      ApplyGet(f, Write(a, offset), x);
      ApplyGet(f, Write(a + b, offset), x);
    }
    FilesEqual(left, right);
  }

  function Parts(writes: seq<Write>): seq<seq<Byte>> {
    seq(|writes|, i requires 0 <= i < |writes| => writes[i].bytes)
  }

  /** Each write starts where the one before it ends. */
  predicate Adjacent(writes: seq<Write>) {
    forall i | 0 < i < |writes| :: writes[i].offset == writes[i - 1].End()
  }

  /** Adjacent writes joined into one. */
  function Joined(writes: seq<Write>): Write
    requires writes != []
  {
    Write(Concat(Parts(writes)), writes[0].offset)
  }

  lemma PartsTail(writes: seq<Write>)
    requires writes != []
    ensures Parts(writes)[1..] == Parts(writes[1..])
    ensures Concat(Parts(writes)) == writes[0].bytes + Concat(Parts(writes[1..]))
  {
  }

  /** Applying adjacent writes one by one is applying the joined write. */
  lemma {:induction false} ApplyJoined(f: File, writes: seq<Write>)
    requires writes != [] && Adjacent(writes)
    ensures ApplyAll(f, writes) == Apply(f, Joined(writes))
    decreases |writes|
  {
    PartsTail(writes);
    var rest := writes[1..];
    assert [writes[0]][..0] == [];
    assert ApplyAll(f, [writes[0]]) == Apply(f, writes[0]);
    if rest == [] {
      assert writes == [writes[0]];
      assert Joined(writes).bytes == writes[0].bytes;
    } else {
      assert [writes[0]] + rest == writes;
      ApplyAllConcat(f, [writes[0]], rest);
      assert Adjacent(rest);
      ApplyJoined(Apply(f, writes[0]), rest);
      ApplyAppend(f, writes[0].offset, writes[0].bytes, Concat(Parts(rest)));
    }
  }

  lemma {:induction false} JoinedCovers(writes: seq<Write>, x: nat)
    requires writes != [] && Adjacent(writes) && Joined(writes).Covers(x)
    ensures Covered(writes, x)
    decreases |writes|
  {
    PartsTail(writes);
    if !writes[0].Covers(x) {
      var rest := writes[1..];
      assert Adjacent(rest);
      if rest != [] {
        JoinedCovers(rest, x);
        var i :| 0 <= i < |rest| && rest[i].Covers(x);
        assert writes[i + 1].Covers(x);
      }
    }
  }

  lemma {:induction false} JoinedEnd(writes: seq<Write>)
    requires writes != [] && Adjacent(writes)
    ensures Joined(writes).End() == writes[|writes| - 1].End()
    decreases |writes|
  {
    PartsTail(writes);
    var rest := writes[1..];
    if rest != [] {
      assert Adjacent(rest);
      JoinedEnd(rest);
    }
  }

  lemma WithinJoined(f0: File, f: File, writes: seq<Write>)
    requires writes != [] && Adjacent(writes) && Within(f0, f, [Joined(writes)])
    ensures Within(f0, f, writes)
  {
    var w := Joined(writes);
    ApplyJoined(f0, writes);
    ApplyAllSize(f0, writes);
    assert [w][..0] == [];
    assert SizeAfterAll(|f0|, [w]) == SizeAfter(|f0|, w);
    forall x: nat | !Covered(writes, x) ensures Get(f, x) == Get(f0, x) {
      if w.Covers(x) {
        JoinedCovers(writes, x);
      }
      assert !Covered([w], x);
    }
  }

  lemma ConcatFrom(pieces: seq<seq<Byte>>, i: nat)
    requires i < |pieces|
    ensures Concat(pieces[i..]) == pieces[i] + Concat(pieces[i + 1..])
  {
    assert pieces[i..][1..] == pieces[i + 1..];
  }

  // ---------------------------------------------------------------------------------------------
  // Batches
  // ---------------------------------------------------------------------------------------------

  lemma {:induction false} SizeAfterAllConcat(size: nat, a: seq<Write>, b: seq<Write>)
    ensures SizeAfterAll(size, a + b) == SizeAfterAll(SizeAfterAll(size, a), b)
    decreases |b|
  {
    if b == [] {
      assert a + b == a;
    } else {
      assert (a + b)[..|a + b| - 1] == a + b[..|b| - 1];
      SizeAfterAllConcat(size, a, b[..|b| - 1]);
    }
  }

  lemma {:induction false} SizeMonotone(small: nat, large: nat, writes: seq<Write>)
    requires small <= large
    ensures SizeAfterAll(small, writes) <= SizeAfterAll(large, writes)
    decreases |writes|
  {
    if writes != [] {
      SizeMonotone(small, large, writes[..|writes| - 1]);
    }
  }

  lemma CoveredConcat(a: seq<Write>, b: seq<Write>, x: nat)
    ensures Covered(a + b, x) <==> Covered(a, x) || Covered(b, x)
  {
    if Covered(a, x) {
      var i :| 0 <= i < |a| && a[i].Covers(x);
      assert (a + b)[i].Covers(x);
    }
    if Covered(b, x) {
      var i :| 0 <= i < |b| && b[i].Covers(x);
      assert (a + b)[|a| + i].Covers(x);
    }
  }

  /** What two batches may touch, one after the other, is what their concatenation may touch. */
  lemma WithinConcat(f0: File, f: File, g: File, a: seq<Write>, b: seq<Write>)
    requires Within(f0, f, a) && Within(f, g, b)
    ensures Within(f0, g, a + b)
  {
    SizeAfterAllConcat(|f0|, a, b);
    SizeMonotone(|f|, SizeAfterAll(|f0|, a), b);
    forall x: nat | !Covered(a + b, x) ensures Get(g, x) == Get(f0, x) {
      CoveredConcat(a, b, x);
    }
  }

  lemma WithinMore(f0: File, f: File, a: seq<Write>, b: seq<Write>)
    requires Within(f0, f, a)
    ensures Within(f0, f, a + b)
  {
    WithinRefl(f, b);
    WithinConcat(f0, f, f, a, b);
  }

  lemma DisjointSlice(writes: seq<Write>, lo: nat, hi: nat)
    requires lo <= hi <= |writes| && Disjoint(writes)
    ensures Disjoint(writes[lo..hi])
  {
    var part := writes[lo..hi];
    forall i, j | 0 <= i < j < |part| ensures !Overlap(part[i], part[j]) {
      assert part[i] == writes[lo + i] && part[j] == writes[lo + j];
    }
  }

  // ---------------------------------------------------------------------------------------------
  // Buffers
  // ---------------------------------------------------------------------------------------------

  /** Overwrites part of a buffer. */
  function Patched(buffer: seq<Byte>, at: nat, bytes: seq<Byte>): seq<Byte>
    requires at + |bytes| <= |buffer|
  {
    buffer[..at] + bytes + buffer[at + |bytes|..]
  }

  method Memcpy(destination: array<Byte>, at: nat, bytes: seq<Byte>)
    requires at + |bytes| <= destination.Length
    modifies destination
    ensures destination[..] == Patched(old(destination[..]), at, bytes)
  {
    forall i | 0 <= i < |bytes| {
      destination[at + i] := bytes[i];
    }
  }
}
