/**
 128-bit constants: `set` and `laq` (src/opcodes.cpp:68-112, 143-180). Both load the most significant
 32-bit lane and then shift in the others through a temporary register.
*/
module WideConstants {
  import opened Words
  import opened Instructions
  import opened Machine
  import opened Immediates

  type lane = n: int | 0 <= n < 4

  /** `x >> 32 * n` */
  function High(x: u128, n: nat): u128
    requires n <= 4
  {
    match n
    case 0 => x
    case 1 => x / 0x1_0000_0000
    case 2 => x / 0x1_0000_0000_0000_0000
    case 3 => x / 0x1_0000_0000_0000_0000_0000_0000
    case 4 => 0
  }

  /** The `n` low 32-bit lanes of `x`. */
  function Low(x: u128, n: nat): u128
    requires n <= 4
  {
    match n
    case 0 => 0
    case 1 => x % 0x1_0000_0000
    case 2 => x % 0x1_0000_0000_0000_0000
    case 3 => x % 0x1_0000_0000_0000_0000_0000_0000
    case 4 => x
  }

  /** The `n`-th 32-bit lane of `x`, unsigned and as the `int32_t` the program reads. */
  function Lane(x: u128, n: lane): u32 {
    High(x, n) % 0x1_0000_0000
  }

  function SignedLane(x: u128, n: lane): int32 {
    S32(Lane(x, n))
  }

  function ShiftLeft32(dst: reg): u32 {
    IType(RV32I_OP_IMM, dst, 1, dst, 32)
  }

  function AddTo(dst: reg, temp: reg): u32 {
    RType(RV32I_OP, dst, 0, dst, temp, 0)
  }

  /** Code loading one lane: of fixed size for a label, as short as possible for a constant. */
  function LoadLane(full: bool, rd: reg, v: int32): seq<u32> {
    if full then FullPair(rd, v) else LoadImm(rd, v)
  }

  /** Make room in `dst` if asked to, and add `temp`. */
  function Joining(dst: reg, temp: reg, shift: bool): seq<u32> {
    (if shift then [ShiftLeft32(dst)] else []) + [AddTo(dst, temp)]
  }

  /** Code for lanes 3 down to `n`: a constant's shift is left out while everything above is zero. */
  function Lanes(full: bool, dst: reg, temp: reg, x: u128, n: lane): seq<u32>
    decreases 3 - n
  {
    if n == 3 then LoadLane(full, dst, SignedLane(x, 3))
    else
      Lanes(full, dst, temp, x, n + 1) + LoadLane(full, temp, SignedLane(x, n))
      + Joining(dst, temp, full || High(x, n + 1) != 0)
  }

  /** What `set` emits. */
  function SetCode(dst: reg, temp: reg, x: u128): seq<u32> {
    if x < 0x1_0000_0000 then LoadImm(dst, S32(x)) else Lanes(false, dst, temp, x, 0)
  }

  /** The fourteen instructions of `laq` for the address `x`. */
  function LaqCode(dst: reg, temp: reg, x: u128): seq<u32> {
    Lanes(true, dst, temp, x, 0)
  }

  /** The address `laq` is emitted for until its label is known: 0x7FFFFFFF in every lane. */
  const LAQ_PLACEHOLDER: u128 := 0x7FFF_FFFF_7FFF_FFFF_7FFF_FFFF_7FFF_FFFF

  // ---- Emitting it --------------------------------------------------------------------------------

  /** What the program keeps of the words above lane `n` is zero exactly when they are. */
  ghost predicate Tracks(valueSoFar: u128, x: u128, n: lane) {
    && (valueSoFar == 0 <==> High(x, n + 1) == 0)
    && (valueSoFar == 0 <==> Low(valueSoFar, 3 - n) == 0)
  }

  method BuildSet(dst: reg, temp: reg, imm: u128) returns (res: seq<u32>)
    ensures res == SetCode(dst, temp, imm)
  {
    if imm < 0x1_0000_0000 {
      res := BuildUint32([], dst, S32(imm));
      return;
    }
    res := BuildUint32([], dst, SignedLane(imm, 3));
    var valueSoFar: u128 := Wrap(SignedLane(imm, 3));
    TracksFirst(imm);
    var i := 2;
    while i >= 0
      invariant -1 <= i <= 2
      invariant i >= 0 ==> Tracks(valueSoFar, imm, i)
      invariant res == Lanes(false, dst, temp, imm, i + 1)
    {
      var part := SignedLane(imm, i);
      var shift := valueSoFar != 0;
      res := BuildUint32(res, temp, part);
      if valueSoFar != 0 {
        res := res + [ShiftLeft32(dst)];
      }
      if i > 0 {
        TracksNext(valueSoFar, imm, i);
      }
      valueSoFar := Bitwise128(Or, Wrap(valueSoFar * P32), Wrap(part));
      res := res + [AddTo(dst, temp)];
      assert res == Lanes(false, dst, temp, imm, i + 1) + LoadImm(temp, part) + Joining(dst, temp, shift);
      i := i - 1;
    }
  }

  method BuildLaqPlaceholder(dst: reg, temp: reg) returns (res: seq<u32>)
    ensures res == LaqCode(dst, temp, LAQ_PLACEHOLDER)
  {
    PlaceholderPair(dst);
    PlaceholderPair(temp);
    res := BuildUint32([], dst, 0x7FFF_FFFF);
    PlaceholderLanes();
    var i := 0;
    while i < 3
      invariant 0 <= i <= 3
      invariant res == Lanes(true, dst, temp, LAQ_PLACEHOLDER, 3 - i)
    {
      ghost var before := res;
      res := BuildUint32(res, temp, 0x7FFF_FFFF);
      res := res + [ShiftLeft32(dst)];
      res := res + [AddTo(dst, temp)];
      assert res == before + FullPair(temp, 0x7FFF_FFFF) + Joining(dst, temp, true);
      i := i + 1;
    }
  }

  /** The placeholder value needs both instructions, so every pair has its two slots. */
  lemma PlaceholderPair(rd: reg)
    ensures LoadImm(rd, 0x7FFF_FFFF) == FullPair(rd, 0x7FFF_FFFF)
  {
    assert S12(0x7FFF_FFFF) == -1 && Upper(0x7FFF_FFFF) == 0x80000;
  }

  lemma PlaceholderLanes()
    ensures forall n: lane :: SignedLane(LAQ_PLACEHOLDER, n) == 0x7FFF_FFFF
  {
    ModUnique(LAQ_PLACEHOLDER, P32, 0x7FFF_FFFF_7FFF_FFFF_7FFF_FFFF, 0x7FFF_FFFF);
    ModUnique(LAQ_PLACEHOLDER, 0x1_0000_0000_0000_0000, 0x7FFF_FFFF_7FFF_FFFF, 0x7FFF_FFFF_7FFF_FFFF);
    ModUnique(LAQ_PLACEHOLDER, 0x1_0000_0000_0000_0000_0000_0000, 0x7FFF_FFFF, 0x7FFF_FFFF_7FFF_FFFF_7FFF_FFFF);
    forall n: lane
      ensures SignedLane(LAQ_PLACEHOLDER, n) == 0x7FFF_FFFF
    {
      assert Lane(LAQ_PLACEHOLDER, n) == 0x7FFF_FFFF;
    }
  }

  lemma TracksFirst(x: u128)
    ensures Tracks(Wrap(SignedLane(x, 3)), x, 2)
  {
    LaneZero(x, 3);
    LaneAbove(x, 3);
    SignExtendedLow(SignedLane(x, 3), 1);
  }

  lemma TracksNext(v: u128, x: u128, n: lane)
    requires n > 0 && Tracks(v, x, n)
    ensures Tracks(Bitwise128(Or, Wrap(v * 0x1_0000_0000), Wrap(SignedLane(x, n))), x, n - 1)
  {
    var s, w := Wrap(v * P32), Wrap(SignedLane(x, n));
    ShiftedLow(v, 3 - n);
    OrZero(s, w, 4 - n);
    SignExtendedLow(SignedLane(x, n), 4 - n);
    LaneAbove(x, n);
    LaneZero(x, n);
  }

  lemma LaneZero(x: u128, n: lane)
    ensures Wrap(SignedLane(x, n)) == 0 <==> Lane(x, n) == 0
  {
    SignedZero(Lane(x, n));
  }

  lemma SignedZero(u: u32)
    ensures Wrap(S32(u)) == 0 <==> u == 0
  {
  }

  /** An OR is zero, whole or in its low lanes, exactly when both operands are. */
  lemma OrZero(s: u128, w: u128, n: nat)
    requires n <= 4
    ensures var r := Bitwise128(Or, s, w);
            && (r == 0 <==> s == 0 && w == 0)
            && (Low(r, n) == 0 <==> Low(s, n) == 0 && Low(w, n) == 0)
  {
    OrZeroLow(s, w, 4);
    OrZeroLow(s, w, n);
  }

  lemma OrZeroLow(s: u128, w: u128, n: nat)
    requires n <= 4
    ensures Low(Bitwise128(Or, s, w), n) == 0 <==> Low(s, n) == 0 && Low(w, n) == 0
  {
    var r := Bitwise128(Or, s, w);
    LowMod(s, n);
    LowMod(w, n);
    LowMod(r, n);
    OrLowBits(s, w, 32 * n);
  }

  lemma LowMod(x: u128, n: nat)
    requires n <= 4
    ensures x % Pow2(32 * n) == Low(x, n)
  {
    Pow2At32();
    Pow2At64();
    Pow2At128();
    Pow2Sum(32, 64);
    match n
    case 0 =>
    case 1 =>
    case 2 =>
    case 3 =>
    case 4 =>
  }

  lemma ShiftedLow(v: u128, n: nat)
    requires n <= 3
    ensures Low(Wrap(v * 0x1_0000_0000), n + 1) == 0x1_0000_0000 * Low(v, n)
  {
    match n
    case 0 => ModMod(v * P32, 0x1_0000_0000, 0x1_0000_0000_0000_0000_0000_0000);
    case 1 =>
      ModMod(v * P32, 0x1_0000_0000_0000_0000, 0x1_0000_0000_0000_0000);
      ScaleMod(v, P32, 0x1_0000_0000);
    case 2 =>
      ModMod(v * P32, 0x1_0000_0000_0000_0000_0000_0000, 0x1_0000_0000);
      ScaleMod(v, P32, 0x1_0000_0000_0000_0000);
    case 3 =>
      ScaleMod(v, P32, 0x1_0000_0000_0000_0000_0000_0000);
  }

  /** Shifting by one more lane takes that lane off. */
  lemma LaneAbove(x: u128, n: lane)
    ensures High(x, n) == High(x, n + 1) * 0x1_0000_0000 + Lane(x, n)
  {
    match n
    case 0 =>
    case 1 => DivDiv(x, 0x1_0000_0000, P32);
    case 2 => DivDiv(x, 0x1_0000_0000_0000_0000, P32);
    case 3 =>
  }

  lemma SignExtendedLow(v: int32, n: nat)
    requires 1 <= n <= 4
    ensures Low(Wrap(v), n) == 0 <==> Wrap(v) == 0
  {
    match n
    case 1 =>
    case 2 =>
    case 3 =>
    case 4 =>
  }

  // ---- Running it ---------------------------------------------------------------------------------

  /** The machine after `n` instructions that left `d` in `dst` and `t` in `temp`. */
  function After2(m: Core, n: nat, dst: reg, d: int, temp: reg, t: int): Core {
    Write(Write(m, temp, t), dst, d).(pc := Wrap(m.pc + 4 * n))
  }

  /** Loading `temp` after `dst`, or after an earlier value of `temp`, and then updating `dst`. */
  lemma After2Next(m: Core, n: nat, n': nat, dst: reg, d: int, d': int, temp: reg, t: int, t': int)
    requires dst != temp && dst != 0 && temp != 0
    ensures After2(After2(m, n, dst, d, temp, t), n', dst, d', temp, t') == After2(m, n + n', dst, d', temp, t')
    ensures After2(After(m, n, dst, d), n', dst, d', temp, t') == After2(m, n + n', dst, d', temp, t')
  {
    WrapAdd(m.pc + 4 * n, 4 * n');
    assert m.pc + 4 * n + 4 * n' == m.pc + 4 * (n + n');
    assert m.regs[temp := Wrap(t)][dst := Wrap(d)][temp := Wrap(t')][dst := Wrap(d')]
        == m.regs[temp := Wrap(t')][dst := Wrap(d')];
    assert m.regs[dst := Wrap(d)][temp := Wrap(t')][dst := Wrap(d')] == m.regs[temp := Wrap(t')][dst := Wrap(d')];
  }

  lemma ShiftRuns(m: Core, dst: reg, h: int)
    requires dst != 0 && Read(m, dst) == Wrap(h)
    ensures Runs(m, [ShiftLeft32(dst)], After(m, 1, dst, h * 0x1_0000_0000))
  {
    StepShift32(m, dst);
    WrapShift32(h);
    RunsStep(m, ShiftLeft32(dst), After(m, 1, dst, h * P32));
  }

  lemma AddRuns(m: Core, dst: reg, temp: reg, h: int, d: int, t: int)
    requires dst != 0 && temp != 0 && Read(m, dst) == Wrap(h) && Read(m, temp) == Wrap(t)
    requires d == h + t
    ensures Runs(m, [AddTo(dst, temp)], After(m, 1, dst, d))
  {
    StepAdd(m, dst, temp);
    WrapAdd(h, t);
    AfterEqual(m, 1, dst, Read(m, dst) + Read(m, temp), d);
    RunsStep(m, AddTo(dst, temp), After(m, 1, dst, d));
  }

  /** Joining a lane: `dst` becomes `dst * 2^32 + temp`; a skipped shift is one that would shift zero. */
  lemma JoiningRuns(m: Core, join: seq<u32>, dst: reg, temp: reg, shift: bool, h: int, d: int, t: int)
    requires dst != temp && dst != 0 && temp != 0
    requires join == Joining(dst, temp, shift) && d == h * 0x1_0000_0000 + t
    requires Read(m, dst) == Wrap(h) && Read(m, temp) == Wrap(t)
    requires shift || h == 0
    ensures Runs(m, join, After(m, |join|, dst, d))
  {
    if shift {
      var m1 := After(m, 1, dst, h * P32);
      ShiftRuns(m, dst, h);
      AddRuns(m1, dst, temp, h * P32, d, t);
      AfterTwice(m, 1, 1, dst, h * P32, d);
      RunsConcat(m, [ShiftLeft32(dst)], m1, [AddTo(dst, temp)], After(m, 2, dst, d));
    } else {
      AddRuns(m, dst, temp, h, d, t);
      assert join == [AddTo(dst, temp)];
    }
  }

  /** The lanes from `n` up, loaded with `Loaded` and weighted: what is left in `dst` before truncation. */
  function Weighted(x: u128, n: lane): int
    decreases 3 - n
  {
    if n == 3 then Loaded(SignedLane(x, 3))
    else Weighted(x, n + 1) * 0x1_0000_0000 + Loaded(SignedLane(x, n))
  }

  lemma {:induction false} HighLanesZero(x: u128, n: lane)
    requires High(x, n) == 0
    ensures Weighted(x, n) == 0
    decreases 3 - n
  {
    LaneAbove(x, n);
    if n < 3 {
      HighLanesZero(x, n + 1);
    }
  }

  lemma LoadLaneRuns(m: Core, full: bool, rd: reg, v: int32)
    ensures Runs(m, LoadLane(full, rd, v), After(m, |LoadLane(full, rd, v)|, rd, Loaded(v)))
  {
    if full {
      FullPairRuns(m, rd, v);
    } else {
      LoadImmRuns(m, rd, v);
    }
  }

  /** The lanes down to `n`, run from any machine: both registers are known once a second lane is in. */
  lemma {:induction false} LanesRun(m: Core, full: bool, dst: reg, temp: reg, x: u128, n: lane)
    requires dst != temp && dst != 0 && temp != 0 && n < 3
    ensures Runs(m, Lanes(full, dst, temp, x, n),
                 After2(m, |Lanes(full, dst, temp, x, n)|, dst, Weighted(x, n), temp, Loaded(SignedLane(x, n))))
    decreases 3 - n
  {
    var upper, load := Lanes(full, dst, temp, x, n + 1), LoadLane(full, temp, SignedLane(x, n));
    var shift := full || High(x, n + 1) != 0;
    var h, t := Weighted(x, n + 1), Loaded(SignedLane(x, n));
    var t' := if n == 2 then 0 else Loaded(SignedLane(x, n + 1));
    var m1 := if n == 2 then After(m, |upper|, dst, h) else After2(m, |upper|, dst, h, temp, t');
    if n == 2 {
      LoadLaneRuns(m, full, dst, SignedLane(x, 3));
    } else {
      LanesRun(m, full, dst, temp, x, n + 1);
    }
    LoadLaneRuns(m1, full, temp, SignedLane(x, n));
    if High(x, n + 1) == 0 {
      HighLanesZero(x, n + 1);
    }
    NextLaneRuns(m, Lanes(full, dst, temp, x, n), upper, load, Joining(dst, temp, shift), shift, n == 2, dst, h,
                 Weighted(x, n), temp, t', t);
  }

  lemma NextLaneRuns(m: Core, code: seq<u32>, upper: seq<u32>, load: seq<u32>, join: seq<u32>, shift: bool, first: bool,
                     dst: reg, h: int, d: int, temp: reg, t': int, t: int)
    requires dst != temp && dst != 0 && temp != 0
    requires shift || h == 0
    requires code == upper + load + join && join == Joining(dst, temp, shift) && d == h * 0x1_0000_0000 + t
    requires var m1 := if first then After(m, |upper|, dst, h) else After2(m, |upper|, dst, h, temp, t');
             Runs(m, upper, m1) && Runs(m1, load, After(m1, |load|, temp, t))
    ensures Runs(m, code, After2(m, |code|, dst, d, temp, t))
  {
    var m1 := if first then After(m, |upper|, dst, h) else After2(m, |upper|, dst, h, temp, t');
    var m2 := After(m1, |load|, temp, t);
    JoiningRuns(m2, join, dst, temp, shift, h, d, t);
    ChainRuns(m, upper, load, join, first, dst, h, d, temp, t', t);
  }

  /** The same with the joining code known only by its effect. */
  lemma ChainRuns(m: Core, upper: seq<u32>, load: seq<u32>, join: seq<u32>, first: bool,
                  dst: reg, h: int, d: int, temp: reg, t': int, t: int)
    requires dst != temp && dst != 0 && temp != 0
    requires var m1 := if first then After(m, |upper|, dst, h) else After2(m, |upper|, dst, h, temp, t');
             var m2 := After(m1, |load|, temp, t);
             Runs(m, upper, m1) && Runs(m1, load, m2) && Runs(m2, join, After(m2, |join|, dst, d))
    ensures Runs(m, upper + load + join, After2(m, |upper + load + join|, dst, d, temp, t))
  {
    var m1 := if first then After(m, |upper|, dst, h) else After2(m, |upper|, dst, h, temp, t');
    var m2 := After(m1, |load|, temp, t);
    RunsConcat(m, upper, m1, load, m2);
    RunsConcat(m, upper + load, m2, join, After(m2, |join|, dst, d));
    JoinedState(m, |upper|, |load|, |join|, first, dst, h, d, temp, t', t);
  }

  lemma JoinedState(m: Core, n1: nat, n2: nat, n3: nat, first: bool, dst: reg, h: int, d: int, temp: reg, t': int,
                    t: int)
    requires dst != temp && dst != 0 && temp != 0
    ensures var m1 := if first then After(m, n1, dst, h) else After2(m, n1, dst, h, temp, t');
            After(After(m1, n2, temp, t), n3, dst, d) == After2(m, n1 + n2 + n3, dst, d, temp, t)
  {
    var m1 := if first then After(m, n1, dst, h) else After2(m, n1, dst, h, temp, t');
    WrapAdd(m1.pc + 4 * n2, 4 * n3);
    assert After(After(m1, n2, temp, t), n3, dst, d) == After2(m1, n2 + n3, dst, d, temp, t);
    After2Next(m, n1, n2 + n3, dst, h, d, temp, t', t);
  }

  /**
   `set` on the machine, for every constant: with distinct nonzero registers the code leaves the
   weighted sum of the loaded lanes in `dst` (or the one loaded word of a small constant), the low
   lane in `temp` if it was used, and nothing else changes.
  */
  lemma SetRuns(m: Core, dst: reg, temp: reg, x: u128)
    requires dst != temp && dst != 0 && temp != 0
    ensures Runs(m, SetCode(dst, temp, x),
                 if x < 0x1_0000_0000 then After(m, |SetCode(dst, temp, x)|, dst, Loaded(S32(x)))
                 else After2(m, |SetCode(dst, temp, x)|, dst, Weighted(x, 0), temp, Loaded(SignedLane(x, 0))))
  {
    if x < P32 {
      LoadImmRuns(m, dst, S32(x));
    } else {
      LanesRun(m, false, dst, temp, x, 0);
    }
  }

  // ---- When it is exact ---------------------------------------------------------------------------

  /** The lanes below the top one load exactly. */
  predicate LowLanesExact(x: u128) {
    Lane(x, 0) < 0x7FFF_F800 && Lane(x, 1) < 0x7FFF_F800 && Lane(x, 2) < 0x7FFF_F800
  }

  function Borrow(u: u32): int {
    if u >= 0x7FFF_F800 then 1 else 0
  }

  lemma LoadedLane(u: u32)
    ensures Loaded(S32(u)) == u - 0x1_0000_0000 * Borrow(u)
  {
  }

  /** What the lanes from `n` up borrow from the ones above them. */
  function Borrowed(x: u128, n: lane): int
    decreases 3 - n
  {
    if n == 3 then 0x1_0000_0000 * Borrow(Lane(x, 3))
    else (Borrow(Lane(x, n)) + Borrowed(x, n + 1)) * 0x1_0000_0000
  }

  lemma {:induction false} WeightedBorrow(x: u128, n: lane)
    ensures Weighted(x, n) == High(x, n) - Borrowed(x, n)
    decreases 3 - n
  {
    LaneAbove(x, n);
    LoadedLane(Lane(x, n));
    if n < 3 {
      WeightedBorrow(x, n + 1);
    }
  }

  /** The weighted sum is the constant exactly when its three low lanes load exactly. */
  lemma WeightedExact(x: u128)
    ensures Wrap(Weighted(x, 0)) == x <==> LowLanesExact(x)
  {
    WeightedBorrow(x, 0);
    var b3, b2, b1, b0 := Borrow(Lane(x, 3)), Borrow(Lane(x, 2)), Borrow(Lane(x, 1)), Borrow(Lane(x, 0));
    assert Borrowed(x, 0) == (b0 + (b1 + (b2 + b3 * P32) * P32) * P32) * P32 by {
      assert Borrowed(x, 2) == (b2 + P32 * b3) * P32;
      assert Borrowed(x, 1) == (b1 + Borrowed(x, 2)) * P32;
    }
    BorrowExact(x, b3, b2, b1, b0);
  }

  lemma BorrowExact(x: u128, b3: int, b2: int, b1: int, b0: int)
    requires 0 <= b3 <= 1 && 0 <= b2 <= 1 && 0 <= b1 <= 1 && 0 <= b0 <= 1
    ensures Wrap(x - (b0 + (b1 + (b2 + b3 * P32) * P32) * P32) * P32) == x <==> b2 == b1 == b0 == 0
  {
    var k := (b0 + (b1 + b2 * P32) * P32) * P32;
    assert (b0 + (b1 + (b2 + b3 * P32) * P32) * P32) * P32 == k + P128 * b3;
    WrapMultiple(x - k, -b3);
    assert 0 <= k < P128;
    if x >= k {
      ModUnique(x - k, P128, 0, x - k);
    } else {
      ModUnique(x - k, P128, -1, x - k + P128);
    }
  }

  // ---- Registers that are not two different ones ------------------------------------------------------

  /** `set` and `laq` with the same register twice, or with register 0. */
  predicate Shared(dst: reg, temp: reg) {
    dst == temp || dst == 0 || temp == 0
  }

  /** What the lanes from `n` up leave then: the last one twice, or the first one alone. */
  function SharedValue(full: bool, dst: reg, temp: reg, x: u128, n: lane): int
    decreases 3 - n
  {
    if n == 3 then Loaded(SignedLane(x, 3))
    else if dst == temp then
      2 * (Loaded(SignedLane(x, n)) * if full || High(x, n + 1) != 0 then 0x1_0000_0000 else 1)
    else SharedValue(full, dst, temp, x, n + 1) * 0x1_0000_0000
  }

  lemma {:induction false} SharedZero(full: bool, dst: reg, temp: reg, x: u128, n: lane)
    requires High(x, n) == 0 && dst != temp
    ensures SharedValue(full, dst, temp, x, n) == 0
    decreases 3 - n
  {
    LaneAbove(x, n);
    if n < 3 {
      SharedZero(full, dst, temp, x, n + 1);
    }
  }

  /** Only the two registers change, and `dst` holds the value unless it is register 0. */
  ghost predicate Leaves(m: Core, m': Core, dst: reg, temp: reg, v: int) {
    && (dst != 0 ==> Read(m', dst) == Wrap(v))
    && forall r: reg :: r != dst && r != temp ==> Read(m', r) == Read(m, r)
  }

  /** The shift, if there is one, and the addition, whatever the registers are. */
  lemma AnyJoiningRuns(m: Core, dst: reg, temp: reg, shift: bool) returns (m1: Core, m': Core)
    ensures Runs(m, Joining(dst, temp, shift), m')
    ensures m1 == if shift then After(m, 1, dst, Read(m, dst) * 0x1_0000_0000) else m
    ensures m' == After(m1, 1, dst, Read(m1, dst) + Read(m1, temp))
  {
    m1 := if shift then After(m, 1, dst, Read(m, dst) * P32) else m;
    m' := After(m1, 1, dst, Read(m1, dst) + Read(m1, temp));
    StepAdd(m1, dst, temp);
    RunsStep(m1, AddTo(dst, temp), m');
    if shift {
      StepShift32(m, dst);
      RunsStep(m, ShiftLeft32(dst), m1);
      RunsConcat(m, [ShiftLeft32(dst)], m1, [AddTo(dst, temp)], m');
    } else {
      assert Joining(dst, temp, shift) == [AddTo(dst, temp)];
    }
  }

  /** The last lane twice. */
  lemma JoinedTwice(m: Core, m1: Core, m': Core, r: reg, shift: bool, t: int, scale: int)
    requires r != 0 && Read(m, r) == Wrap(t) && scale == if shift then 0x1_0000_0000 else 1
    requires m1 == if shift then After(m, 1, r, Read(m, r) * 0x1_0000_0000) else m
    requires m' == After(m1, 1, r, Read(m1, r) + Read(m1, r))
    ensures Read(m', r) == Wrap(2 * (t * scale))
  {
    WrapShift32(t);
    WrapAdd(t * scale, t * scale);
    assert Read(m1, r) == Wrap(t * scale);
    assert t * scale + t * scale == 2 * (t * scale);
  }

  /** Nothing is added to the lanes above. */
  lemma JoinedZero(m: Core, m1: Core, m': Core, dst: reg, shift: bool, h: int)
    requires dst != 0 && Read(m, dst) == Wrap(h) && (shift || h == 0)
    requires m1 == if shift then After(m, 1, dst, Read(m, dst) * 0x1_0000_0000) else m
    requires m' == After(m1, 1, dst, Read(m1, dst) + 0)
    ensures Read(m', dst) == Wrap(h * 0x1_0000_0000)
  {
    WrapShift32(h);
    WrapAdd(h * P32, 0);
  }

  lemma {:induction false} SharedRun(m: Core, full: bool, dst: reg, temp: reg, x: u128, n: lane) returns (m': Core)
    requires Shared(dst, temp)
    ensures Runs(m, Lanes(full, dst, temp, x, n), m')
    ensures Leaves(m, m', dst, temp, SharedValue(full, dst, temp, x, n))
    decreases 3 - n
  {
    if n == 3 {
      m' := After(m, |LoadLane(full, dst, SignedLane(x, 3))|, dst, Loaded(SignedLane(x, 3)));
      LoadLaneRuns(m, full, dst, SignedLane(x, 3));
    } else {
      var upper, load := Lanes(full, dst, temp, x, n + 1), LoadLane(full, temp, SignedLane(x, n));
      var shift, t := full || High(x, n + 1) != 0, Loaded(SignedLane(x, n));
      var m1 := SharedRun(m, full, dst, temp, x, n + 1);
      var m2 := After(m1, |load|, temp, t);
      LoadLaneRuns(m1, full, temp, SignedLane(x, n));
      var m3;
      m3, m' := AnyJoiningRuns(m2, dst, temp, shift);
      RunsConcat(m, upper, m1, load, m2);
      RunsConcat(m, upper + load, m2, Joining(dst, temp, shift), m');
      SharedJoined(m, m1, m2, m3, m', |load|, full, dst, temp, x, n, shift, t);
    }
  }

  lemma SharedJoined(m: Core, m1: Core, m2: Core, m3: Core, m': Core, k: nat, full: bool, dst: reg, temp: reg,
                     x: u128, n: lane, shift: bool, t: int)
    requires Shared(dst, temp) && n < 3 && shift == (full || High(x, n + 1) != 0) && t == Loaded(SignedLane(x, n))
    requires Leaves(m, m1, dst, temp, SharedValue(full, dst, temp, x, n + 1)) && m2 == After(m1, k, temp, t)
    requires m3 == if shift then After(m2, 1, dst, Read(m2, dst) * 0x1_0000_0000) else m2
    requires m' == After(m3, 1, dst, Read(m3, dst) + Read(m3, temp))
    ensures Leaves(m, m', dst, temp, SharedValue(full, dst, temp, x, n))
  {
    if dst != 0 {
      if dst == temp {
        JoinedTwice(m2, m3, m', dst, shift, t, if shift then P32 else 1);
      } else {
        if High(x, n + 1) == 0 {
          SharedZero(full, dst, temp, x, n + 1);
        }
        JoinedZero(m2, m3, m', dst, shift, SharedValue(full, dst, temp, x, n + 1));
      }
    }
  }

  /** The last lane twice is never the constant, but for 0. */
  lemma TwiceExact(x: u128, v: int)
    requires v == 2 * (Loaded(SignedLane(x, 0)) * 0x1_0000_0000)
    ensures Wrap(v) == x <==> x == 0
  {
    LoadedLane(Lane(x, 0));
    if Wrap(v) == x {
      var q := v / P128;
      assert v == P128 * q + x;
      LowLaneZero(x, Loaded(SignedLane(x, 0)), q);
    }
  }

  lemma LowLaneZero(x: u128, l: int, q: int)
    requires 2 * (l * 0x1_0000_0000) == 0x1_0000_0000_0000_0000_0000_0000_0000_0000 * q + x
    ensures Lane(x, 0) == 0
  {
    var k := 2 * l - 0x1_0000_0000_0000_0000_0000_0000 * q;
    ModUnique(x, P32, k, 0);
  }

  /** The first lane alone is the constant if the others are zero. */
  lemma FirstLaneExact(x: u128, v: int)
    requires v == Loaded(SignedLane(x, 3)) * 0x1_0000_0000 * 0x1_0000_0000 * 0x1_0000_0000
    ensures Wrap(v) == x <==> x % 0x1_0000_0000_0000_0000_0000_0000 == 0
  {
    var u: int := Lane(x, 3);
    LoadedLane(Lane(x, 3));
    WrapMultiple(u * 0x1_0000_0000_0000_0000_0000_0000, -Borrow(u));
    ModUnique(u * 0x1_0000_0000_0000_0000_0000_0000, P128, 0, u * 0x1_0000_0000_0000_0000_0000_0000);
    assert u == x / 0x1_0000_0000_0000_0000_0000_0000;
  }

  // ---- When the registers are any ---------------------------------------------------------------------

  /** When `laq` is exact, for every two registers. */
  predicate AddressExact(dst: reg, temp: reg, x: u128) {
    if dst == 0 || dst == temp then x == 0
    else if temp == 0 then x % 0x1_0000_0000_0000_0000_0000_0000 == 0
    else LowLanesExact(x)
  }

  /** When `set` is exact: a constant below 2^32 needs no second register. */
  predicate SetExact(dst: reg, temp: reg, x: u128) {
    if dst != 0 && x < 0x1_0000_0000 then LowLanesExact(x) else AddressExact(dst, temp, x)
  }

  lemma SharedExact(full: bool, dst: reg, temp: reg, x: u128)
    requires Shared(dst, temp) && dst != 0 && (full || x >= 0x1_0000_0000)
    ensures Wrap(SharedValue(full, dst, temp, x, 0)) == x <==> AddressExact(dst, temp, x)
  {
    if dst == temp {
      TwiceExact(x, SharedValue(full, dst, temp, x, 0));
    } else {
      var v3 := SharedValue(full, dst, temp, x, 3);
      assert SharedValue(full, dst, temp, x, 1) == v3 * P32 * P32;
      FirstLaneExact(x, SharedValue(full, dst, temp, x, 0));
    }
  }

  /**
   When `set` keeps the promise of the README ("Loads up to 128-bit constant"): with two different registers,
   exactly when no lane but the top one is 0x7FFFF800 or more; for a constant below 2^32 its only lane counts as
   well. `SetExact` covers the other registers.
  */
  lemma SetLoadsConstant(m: Core, dst: reg, temp: reg, x: u128) returns (m': Core)
    ensures Runs(m, SetCode(dst, temp, x), m')
    ensures Read(m', dst) == x <==> SetExact(dst, temp, x)
    ensures forall r: reg :: r != dst && r != temp ==> Read(m', r) == Read(m, r)
  {
    if x < P32 {
      m' := After(m, |SetCode(dst, temp, x)|, dst, Loaded(S32(x)));
      LoadImmRuns(m, dst, S32(x));
      SmallLanes(x);
      LoadedLane(x);
      BorrowExact(x, 0, 0, 0, Borrow(x));
    } else if Shared(dst, temp) {
      m' := SharedRun(m, false, dst, temp, x, 0);
      if dst != 0 {
        SharedExact(false, dst, temp, x);
      }
    } else {
      m' := After2(m, |SetCode(dst, temp, x)|, dst, Weighted(x, 0), temp, Loaded(SignedLane(x, 0)));
      SetRuns(m, dst, temp, x);
      WeightedExact(x);
    }
  }

  lemma SmallLanes(x: u128)
    requires x < 0x1_0000_0000
    ensures Lane(x, 0) == x && Lane(x, 1) == 0 && Lane(x, 2) == 0
  {
  }

  /** A constant `set` gets wrong: the 32-bit value 0xFFFFFFFF comes out as 2^128 - 1. */
  lemma SetWrongExample(m: Core) returns (m': Core)
    ensures Runs(m, SetCode(5, 6, 0xFFFF_FFFF), m')
    ensures Read(m', 5) == 0xFFFF_FFFF_FFFF_FFFF_FFFF_FFFF_FFFF_FFFF
  {
    var x: u128 := 0xFFFF_FFFF;
    SetRuns(m, 5, 6, x);
    m' := After(m, |SetCode(5, 6, x)|, 5, Loaded(S32(x)));
    LoadedLane(x);
    WrapMultiple(P128 - 1, -1);
  }

  /** `laq` loads the address, with two different registers, exactly when its three low lanes are below 0x7FFFF800. */
  lemma LaqLoadsAddress(m: Core, dst: reg, temp: reg, x: u128) returns (m': Core)
    ensures Runs(m, LaqCode(dst, temp, x), m')
    ensures !Shared(dst, temp) ==> m' == After2(m, 14, dst, Weighted(x, 0), temp, Loaded(SignedLane(x, 0)))
    ensures Read(m', dst) == x <==> AddressExact(dst, temp, x)
    ensures forall r: reg :: r != dst && r != temp ==> Read(m', r) == Read(m, r)
  {
    if Shared(dst, temp) {
      m' := SharedRun(m, true, dst, temp, x, 0);
      if dst != 0 {
        SharedExact(true, dst, temp, x);
      }
    } else {
      m' := After2(m, 14, dst, Weighted(x, 0), temp, Loaded(SignedLane(x, 0)));
      LanesRun(m, true, dst, temp, x, 0);
      FullLanesLength(dst, temp, x, 0);
      WeightedExact(x);
    }
  }

  /** An address that `laq` gets wrong: 0x7FFFF800 comes out as 2^128 - 2^31 - 2048. */
  lemma LaqWrongExample(m: Core, dst: reg, temp: reg, x: u128) returns (m': Core)
    requires !Shared(dst, temp) && x == 0x7FFF_F800
    ensures Runs(m, LaqCode(dst, temp, x), m') && Read(m', dst) == Wrap(-0x8000_0800)
  {
    m' := LaqLoadsAddress(m, dst, temp, x);
    SmallWeighted(x);
  }

  lemma SmallWeighted(x: u128)
    requires x == 0x7FFF_F800
    ensures Weighted(x, 0) == -0x8000_0800
  {
    assert High(x, 1) == 0;
    HighLanesZero(x, 1);
    assert Lane(x, 0) == x;
  }

  lemma {:induction false} FullLanesLength(dst: reg, temp: reg, x: u128, n: lane)
    ensures |Lanes(true, dst, temp, x, n)| == 14 - 4 * n
    decreases 3 - n
  {
    if n < 3 {
      FullLanesLength(dst, temp, x, n + 1);
    }
  }
}
