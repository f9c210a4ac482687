/** The scheduled lambdas, writing into a section's buffer in place (src/opcodes.cpp, src/directive.cpp:59-68). */
module Patching {
  import opened Words
  import opened Results
  import opened Instructions
  import opened WideConstants
  import opened References
  import opened Sections

  /** A buffer with other bytes at `at`. */
  function Spliced(output: seq<byte>, at: nat, bytes: seq<byte>): seq<byte>
    requires at + |bytes| <= |output|
  {
    output[..at] + bytes + output[at + |bytes|..]
  }

  lemma SplicedRegion(output: seq<byte>, at: nat, bytes: seq<byte>)
    requires at + |bytes| <= |output|
    ensures |Spliced(output, at, bytes)| == |output|
    ensures Spliced(output, at, bytes)[at..at + |bytes|] == bytes
  {
  }

  lemma SplicedTwice(output: seq<byte>, at: nat, a: seq<byte>, b: seq<byte>)
    requires at + |a| <= |output| && |a| == |b|
    ensures |Spliced(output, at, a)| == |output|
    ensures Spliced(Spliced(output, at, a), at, b) == Spliced(output, at, b)
  {
  }

  /** Replacing one word of a region. */
  lemma SplicedWord(output: seq<byte>, at: nat, width: nat, k: nat, w: u32)
    requires at + width <= |output| && 4 * k + 4 <= width
    ensures Spliced(output, at + 4 * k, Bytes4(w)) == Spliced(output, at, WithWord(output[at..at + width], k, w))
  {
    var bytes := output[at..at + width];
    assert bytes[..4 * k] == output[at..at + 4 * k];
    assert bytes[4 * k + 4..] == output[at + 4 * k + 4..at + width];
  }

  lemma {:induction false} AssignAllAppend(bytes: seq<byte>, a: seq<Assignment>, b: seq<Assignment>)
    ensures AssignAll(bytes, a + b) == AssignAll(AssignAll(bytes, a), b)
    decreases |a|
  {
    if a == [] {
      assert a + b == b;
    } else {
      assert (a + b)[0] == a[0] && (a + b)[1..] == a[1..] + b;
      AssignAllAppend(Assign(bytes, a[0]), a[1..], b);
    }
  }

  lemma AssignSingle(bytes: seq<byte>, a: Assignment)
    ensures AssignAll(bytes, [a]) == Assign(bytes, a)
  {
    assert [a][1..] == [];
  }

  lemma AssignPair(bytes: seq<byte>, a: Assignment, b: Assignment)
    ensures AssignAll(bytes, [a, b]) == Assign(Assign(bytes, a), b)
  {
    assert [a, b][1..] == [b];
    AssignSingle(Assign(bytes, a), b);
  }

  lemma AssignTriple(bytes: seq<byte>, a: Assignment, b: Assignment, c: Assignment)
    ensures AssignAll(bytes, [a, b, c]) == Assign(Assign(Assign(bytes, a), b), c)
  {
    assert [a, b, c][1..] == [b, c];
    AssignPair(Assign(bytes, a), b, c);
  }

  /** The immediate that was just assigned reads back as its low twelve bits. */
  lemma ImmediateReadsBack(bytes: seq<byte>, k: nat, v: int)
    requires 4 * k + 4 <= |bytes|
    ensures IImm(WordAt(Assign(bytes, IImmTo(k, v)), k)) == v % 0x1000
  {
    var w := SetIImm(WordAt(bytes, k), v);
    assert Assign(bytes, IImmTo(k, v))[4 * k..4 * k + 4] == Bytes4(w);
    Word4RoundTrip(w);
    HighField(WordAt(bytes, k), v % 0x1000);
  }

  lemma HighField(w: u32, v: nat)
    requires v < 0x1000
    ensures (w % 0x100000 + v * 0x100000) / 0x100000 == v
  {
    ModUnique(w % 0x100000 + v * 0x100000, 0x100000, v, w % 0x100000);
  }

  lemma SliceOfSlice(output: seq<byte>, at: nat, width: nat, i: nat, j: nat)
    requires at + width <= |output| && i <= j <= width
    ensures output[at..at + width][i..j] == output[at + i..at + j]
  {
    var a, b := output[at..at + width][i..j], output[at + i..at + j];
    assert |a| == |b|;
    forall k | 0 <= k < |a|
      ensures a[k] == b[k]
    {
      assert a[k] == output[at..at + width][i + k] == output[at + (i + k)];
    }
  }

  /** `at_location(loc, 4 * k)`, read. */
  method ReadWord(s: Section, at: nat, width: nat, k: nat) returns (w: u32)
    requires at + width <= |s.output| && 4 * k + 4 <= width
    ensures w == WordAt(s.output[at..at + width], k)
  {
    SliceOfSlice(s.output, at, width, 4 * k, 4 * k + 4);
    w := Word4(s.output[at + 4 * k..at + 4 * k + 4]);
  }

  lemma WrittenField(output: seq<byte>, at: nat, width: nat, a: Assignment, written: seq<byte>)
    requires at + width <= |output| && 4 * a.word + 4 <= width
    requires written == Spliced(output, at + 4 * a.word, Bytes4(AssignTo(WordAt(output[at..at + width], a.word), a)))
    ensures written == Spliced(output, at, Assign(output[at..at + width], a))
    ensures |written| == |output| && written[at..at + width] == Assign(output[at..at + width], a)
  {
    SplicedWord(output, at, width, a.word, AssignTo(WordAt(output[at..at + width], a.word), a));
    SplicedRegion(output, at, Assign(output[at..at + width], a));
  }

  /** An assignment through the reference that `at_location` returns. */
  method WriteField(s: Section, at: nat, width: nat, a: Assignment)
    requires at + width <= |s.output| && 4 * a.word + 4 <= width
    modifies s`output
    ensures s.output == Spliced(old(s.output), at, Assign(old(s.output)[at..at + width], a))
    ensures |s.output| == |old(s.output)| && s.output[at..at + width] == Assign(old(s.output)[at..at + width], a)
  {
    var w := ReadWord(s, at, width, a.word);
    var offset := at + 4 * a.word;
    s.output := s.output[..offset] + Bytes4(AssignTo(w, a)) + s.output[offset + 4..];
    WrittenField(old(s.output), at, width, a, s.output);
  }

  /** `set_uint32`: the immediate of the second word first, then the upper part, rounded by what reads back. */
  method SetUint32(s: Section, at: nat, width: nat, word: nat, value: int)
    requires at + width <= |s.output| && 4 * word + 8 <= width
    modifies s`output
    ensures |s.output| == |old(s.output)|
    ensures s.output[at..at + width] == AssignAll(old(s.output)[at..at + width], PairAssignments(word, value))
    ensures s.output == Spliced(old(s.output), at, s.output[at..at + width])
  {
    ghost var bytes := s.output[at..at + width];
    WriteField(s, at, width, IImmTo(word + 1, value));
    ghost var first := s.output[at..at + width];
    var i2 := ReadWord(s, at, width, word + 1);
    ImmediateReadsBack(bytes, word + 1, value);
    WriteField(s, at, width, UImmTo(word, (value + IImm(i2)) / 0x1000));
    PairIsAssigned(bytes, first, s.output[at..at + width], word, value);
    SplicedTwice(old(s.output), at, first, s.output[at..at + width]);
  }

  lemma PairIsAssigned(bytes: seq<byte>, first: seq<byte>, second: seq<byte>, word: nat, value: int)
    requires first == Assign(bytes, IImmTo(word + 1, value))
    requires second == Assign(first, UImmTo(word, RoundedUpper(value)))
    ensures second == AssignAll(bytes, PairAssignments(word, value))
  {
    AssignPair(bytes, IImmTo(word + 1, value), UImmTo(word, RoundedUpper(value)));
  }

  /** Writing one word leaves the others. */
  lemma OtherWord(bytes: seq<byte>, a: Assignment, k: nat)
    requires 4 * a.word + 4 <= |bytes| && 4 * k + 4 <= |bytes| && k != a.word
    ensures WordAt(Assign(bytes, a), k) == WordAt(bytes, k)
  {
    var r := Assign(bytes, a);
    assert r[4 * k..4 * k + 4] == bytes[4 * k..4 * k + 4];
  }

  /** `la` relative to the program counter: the second word first, then the opcode and the upper part of the first. */
  method PatchRelative(s: Section, at: nat, diff: int)
    requires at + 8 <= |s.output|
    modifies s`output
    ensures s.output == Spliced(old(s.output), at, AssignAll(old(s.output)[at..at + 8],
      [IImmTo(1, diff), OpcodeTo(0, RV32I_AUIPC), UImmTo(0, RoundedUpper(diff))]))
  {
    ghost var output, bytes := s.output, s.output[at..at + 8];
    WriteField(s, at, 8, IImmTo(1, diff));
    ghost var first := s.output[at..at + 8];
    WriteField(s, at, 8, OpcodeTo(0, RV32I_AUIPC));
    ghost var second := s.output[at..at + 8];
    var i2 := ReadWord(s, at, 8, 1);
    ImmediateReadsBack(bytes, 1, diff);
    OtherWord(first, OpcodeTo(0, RV32I_AUIPC), 1);
    WriteField(s, at, 8, UImmTo(0, (diff + IImm(i2)) / 0x1000));
    AssignTriple(bytes, IImmTo(1, diff), OpcodeTo(0, RV32I_AUIPC), UImmTo(0, RoundedUpper(diff)));
    SplicedTwice(output, at, first, second);
    SplicedTwice(output, at, second, s.output[at..at + 8]);
  }

  /** `la` with an absolute address. */
  method PatchAbsolute(s: Section, at: nat, target: u128)
    requires at + 8 <= |s.output|
    modifies s`output
    ensures s.output == Spliced(old(s.output), at, AssignAll(old(s.output)[at..at + 8],
      [IImmTo(1, target), UImmTo(0, Wrap(target + target % 0x1000) / 0x1000)]))
  {
    ghost var output, bytes := s.output, s.output[at..at + 8];
    WriteField(s, at, 8, IImmTo(1, target));
    ghost var first := s.output[at..at + 8];
    var i2 := ReadWord(s, at, 8, 1);
    ImmediateReadsBack(bytes, 1, target);
    var sum := target + IImm(i2);
    WriteField(s, at, 8, UImmTo(0, Wrap(sum) / 0x1000));
    AssignPair(bytes, IImmTo(1, target), UImmTo(0, Wrap(target + target % 0x1000) / 0x1000));
    SplicedTwice(output, at, first, s.output[at..at + 8]);
  }

  /** `la`. */
  method PatchLa(s: Section, at: nat, pc: u128, target: u128)
    requires at + 8 <= |s.output|
    modifies s`output
    ensures s.output == Spliced(old(s.output), at, Patch(LaKind, old(s.output)[at..at + 8], pc, target, pc))
  {
    var diff := S64(target - pc);
    if RelativelyClose(diff) {
      PatchRelative(s, at, diff);
    } else {
      PatchAbsolute(s, at, target);
    }
  }

  /** `laq`: four pairs, at words 0, 2, 6 and 10. */
  method PatchLaq(s: Section, at: nat, pc: u128, target: u128)
    requires at + 56 <= |s.output|
    modifies s`output
    ensures s.output == Spliced(old(s.output), at, Patch(LaqKind, old(s.output)[at..at + 56], pc, target, pc))
  {
    ghost var output, bytes := s.output, s.output[at..at + 56];
    SetUint32(s, at, 56, 0, S32(High(target, 3)));
    ghost var b1 := s.output[at..at + 56];
    SetUint32(s, at, 56, 2, S32(High(target, 2)));
    ghost var b2 := s.output[at..at + 56];
    SetUint32(s, at, 56, 6, S32(High(target, 1)));
    ghost var b3 := s.output[at..at + 56];
    SetUint32(s, at, 56, 10, S32(target));
    ghost var b4 := s.output[at..at + 56];
    AllPairs(bytes, b1, b2, b3, b4, target);
    SplicedTwice(output, at, b1, b2);
    SplicedTwice(output, at, b2, b3);
    SplicedTwice(output, at, b3, b4);
  }

  lemma AllPairs(bytes: seq<byte>, b1: seq<byte>, b2: seq<byte>, b3: seq<byte>, b4: seq<byte>, target: u128)
    requires b1 == AssignAll(bytes, PairAssignments(0, S32(High(target, 3))))
    requires b2 == AssignAll(b1, PairAssignments(2, S32(High(target, 2))))
    requires b3 == AssignAll(b2, PairAssignments(6, S32(High(target, 1))))
    requires b4 == AssignAll(b3, PairAssignments(10, S32(target)))
    ensures forall pc: u128, before: u128 :: Patch(LaqKind, bytes, pc, target, before) == b4
  {
    var p0, p1 := PairAssignments(0, S32(High(target, 3))), PairAssignments(2, S32(High(target, 2)));
    var p2, p3 := PairAssignments(6, S32(High(target, 1))), PairAssignments(10, S32(target));
    AssignAllAppend(bytes, p0, p1);
    AssignAllAppend(bytes, p0 + p1, p2);
    AssignAllAppend(bytes, p0 + p1 + p2, p3);
  }

  /** `farcall`: no rounding of the upper part. */
  method PatchFarCall(s: Section, at: nat, pc: u128, target: u128)
    requires at + 8 <= |s.output|
    modifies s`output
    ensures s.output == Spliced(old(s.output), at, Patch(FarCallKind, old(s.output)[at..at + 8], pc, target, pc))
  {
    ghost var output, bytes := s.output, s.output[at..at + 8];
    WriteField(s, at, 8, UImmTo(0, target / 0x1000));
    ghost var first := s.output[at..at + 8];
    WriteField(s, at, 8, IImmTo(1, target));
    AssignPair(bytes, UImmTo(0, target / 0x1000), IImmTo(1, target));
    SplicedTwice(output, at, first, s.output[at..at + 8]);
  }

  /** A fixup of one assignment to one word. */
  method PatchOne(s: Section, at: nat, a: Assignment)
    requires at + 4 <= |s.output| && a.word == 0
    modifies s`output
    ensures s.output == Spliced(old(s.output), at, AssignAll(old(s.output)[at..at + 4], [a]))
  {
    AssignSingle(s.output[at..at + 4], a);
    WriteField(s, at, 4, a);
  }

  /** What a fixup does to its bytes does not depend on `before`, but for `.size`. */
  lemma OnlySizeLooksBack(kind: Kind, bytes: seq<byte>, pc: u128, target: u128, before: u128)
    requires !kind.SizeKind?
    ensures Patch(kind, bytes, pc, target, before) == Patch(kind, bytes, pc, target, pc)
  {
  }

  /**
   A buffer after a fixup. The quantifier keeps proofs that only pass this on from looking into the fixup.
  */
  ghost predicate Patches(kind: Kind, at: nat, pc: u128, target: u128, before: u128, was: seq<byte>, now: seq<byte>)
    requires at + Width(kind) <= |was|
  {
    forall k: Kind {:trigger Width(k)} :: k == kind ==>
      now == Spliced(was, at, Patch(k, was[at..at + Width(k)], pc, target, before))
  }

  /** The scheduled lambda of each kind; false when it throws. */
  method ApplyFixup(s: Section, at: nat, kind: Kind, pc: u128, target: u128, before: u128) returns (ok: bool)
    requires at + Width(kind) <= |s.output|
    modifies s`output
    ensures ok <==> !Rejects(kind, pc, target)
    ensures ok <==> (kind == JumpKind ==> LooksNear(pc, target))
    ensures ok ==> Patches(kind, at, pc, target, before, old(s.output), s.output) && |s.output| == |old(s.output)|
    ensures !ok ==> s.output == old(s.output)
  {
    ok := ApplyLambda(s, at, kind, pc, target, before);
    RejectsExactly(kind, pc, target);
  }

  method ApplyLambda(s: Section, at: nat, kind: Kind, pc: u128, target: u128, before: u128) returns (ok: bool)
    requires at + Width(kind) <= |s.output|
    modifies s`output
    ensures ok <==> !Rejects(kind, pc, target)
    ensures ok ==>
              s.output == Spliced(old(s.output), at,
                                  Patch(kind, old(s.output)[at..at + Width(kind)], pc, target, before))
    ensures ok ==> |s.output| == |old(s.output)|
    ensures !ok ==> s.output == old(s.output)
  {
    ghost var bytes := s.output[at..at + Width(kind)];
    ok := true;
    match kind {
      case LaKind =>
        OnlySizeLooksBack(kind, bytes, pc, target, before);
        PatchLa(s, at, pc, target);
      case LaqKind =>
        OnlySizeLooksBack(kind, bytes, pc, target, before);
        PatchLaq(s, at, pc, target);
      case BranchKind =>
        PatchOne(s, at, BImmTo(0, S32(target - pc)));
      case JumpKind =>
        var diff := S64(target - pc);
        if diff < -2048 || diff > 2047 {
          return false;
        }
        PatchOne(s, at, JImmTo(0, diff));
      case FarCallKind =>
        OnlySizeLooksBack(kind, bytes, pc, target, before);
        PatchFarCall(s, at, pc, target);
      case SizeKind =>
        PatchOne(s, at, WordTo(0, SizeValue(pc, target, before)));
    }
  }
}
