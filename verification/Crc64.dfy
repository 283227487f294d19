/**
 CRC-64 by table lookup (shared/lk/crc64.c, shared/lk/crc64.h) and the generator of its tables
 (shared/lk/gen/gen_crc64table.c), against the polynomial division that they abbreviate: section
 5.2.1.3.4 of the NVM Command Set Specification for the reflected form, Annex B of ECMA-182 for
 the other.
 */
module Crc64 {
  import opened Division
  import opened Wrappers

  const NVME_POLY: bv64 := 0x9A6C9329AC4BC9B5
  const ECMA182_POLY: bv64 := 0x42F0E1EBA9EA3693

  // ---------------------------------------------------------------- 64-bit registers

  function Xor(a: bv64, b: bv64): bv64 { a ^ b }
  function Right(c: bv64): bv64 { c >> 1 }
  function Left(c: bv64): bv64 { c << 1 }
  predicate LowBit(c: bv64) { c & 1 != 0 }
  predicate HighBit(c: bv64) { c & 0x8000_0000_0000_0000 != 0 }

  /** The register whose highest term is in the lowest bit. */
  function Reflected(): Register<bv64> {
    Register(Xor, Right, LowBit, 0, 1, 0x8000_0000_0000_0000)
  }

  /** The register whose highest term is in the highest bit. */
  function Direct(): Register<bv64> {
    Register(Xor, Left, HighBit, 0, 0x8000_0000_0000_0000, 1)
  }

  lemma Associate(a: bv64, b: bv64, c: bv64)
    ensures Xor(a, Xor(b, c)) == Xor(Xor(a, b), c)
  {
    calc {
      Xor(a, Xor(b, c));
      Xor(a, b ^ c);
      a ^ (b ^ c);
      (a ^ b) ^ c;
      Xor(a ^ b, c);
      Xor(Xor(a, b), c);
    }
  }

  lemma Swap(a: bv64, b: bv64, c: bv64)
    ensures Xor(Xor(a, c), b) == Xor(Xor(a, b), c)
  {
    calc {
      Xor(Xor(a, c), b);
      Xor(a ^ c, b);
      (a ^ c) ^ b;
      (a ^ b) ^ c;
      Xor(a ^ b, c);
      Xor(Xor(a, b), c);
    }
  }

  lemma Cancel(a: bv64, b: bv64)
    ensures a ^ b == b ^ a && (a ^ b) ^ b == a && a ^ 0 == a
  {
  }

  lemma ReflectedBitLaws(a: bv64, b: bv64)
    ensures Right(Xor(a, b)) == Xor(Right(a), Right(b))
    ensures LowBit(Xor(a, b)) <==> (LowBit(a) != LowBit(b))
  {
  }

  lemma DirectBitLaws(a: bv64, b: bv64)
    ensures Left(Xor(a, b)) == Xor(Left(a), Left(b))
    ensures HighBit(Xor(a, b)) <==> (HighBit(a) != HighBit(b))
  {
  }

  ghost predicate Regroups(a: bv64, b: bv64, c: bv64) {
    Xor(Xor(a, c), b) == Xor(Xor(a, b), c) && Xor(a, Xor(b, c)) == Xor(Xor(a, b), c)
  }

  ghost predicate Cancels(a: bv64, b: bv64) {
    Xor(a, b) == Xor(b, a) && Xor(Xor(a, b), b) == a && Xor(a, 0) == a
  }

  lemma AllRegroup()
    ensures forall a, b, c {:trigger Three(a, b, c)} :: Three(a, b, c) ==> Regroups(a, b, c)
  {
    forall a: bv64, b: bv64, c: bv64 | Three(a, b, c) ensures Regroups(a, b, c) {
      Swap(a, b, c);
      Associate(a, b, c);
    }
  }

  lemma AllCancel()
    ensures forall a, b {:trigger Two(a, b)} :: Two(a, b) ==> Cancels(a, b)
  {
    forall a: bv64, b: bv64 | Two(a, b) ensures Cancels(a, b) {
      Cancel(a, b);
    }
  }

  lemma ReflectedLaws()
    ensures Laws(Reflected())
  {
    AllRegroup();
    AllCancel();
    forall a: bv64, b: bv64 | Two(a, b)
      ensures Right(Xor(a, b)) == Xor(Right(a), Right(b)) && (LowBit(Xor(a, b)) <==> (LowBit(a) != LowBit(b)))
    {
      ReflectedBitLaws(a, b);
    }
  }

  lemma DirectLaws()
    ensures Laws(Direct())
  {
    AllRegroup();
    AllCancel();
    forall a: bv64, b: bv64 | Two(a, b)
      ensures Left(Xor(a, b)) == Xor(Left(a), Left(b)) && (HighBit(Xor(a, b)) <==> (HighBit(a) != HighBit(b)))
    {
      DirectBitLaws(a, b);
    }
  }

  // ---------------------------------------------------------------- Eight bits at a time

  /** A byte's bits as the terms of highest degree. */
  function LowLane(b: bv8): bv64 { b as bv64 }
  function HighLane(b: bv8): bv64 { (b as bv64) << 56 }

  lemma ReflectedByte(c: bv64, b: bv8)
    ensures c ^ (b as bv64) == (c & 0xffff_ffff_ffff_ff00) ^ ((c & 0xff) ^ (b as bv64))
    ensures (c & 0xff) ^ (b as bv64) < 256
    ensures (c & 0xffff_ffff_ffff_ff00) >> 8 == c >> 8
  {
  }

  lemma DirectByte(c: bv64, b: bv8)
    ensures c ^ ((b as bv64) << 56) == (c & 0x00ff_ffff_ffff_ffff) ^ (((c >> 56) ^ (b as bv64)) << 56)
    ensures (c >> 56) ^ (b as bv64) < 256
    ensures (c & 0x00ff_ffff_ffff_ffff) << 8 == c << 8
  {
  }

  lemma LowByteEmpty(c: bv64)
    requires c & 0xff == 0
    ensures !LowBit(c) && !LowBit(c >> 1) && !LowBit(c >> 2) && !LowBit(c >> 3)
    ensures !LowBit(c >> 4) && !LowBit(c >> 5) && !LowBit(c >> 6) && !LowBit(c >> 7)
  {
  }

  lemma HighByteEmpty(c: bv64)
    requires c >> 56 == 0
    ensures !HighBit(c) && !HighBit(c << 1) && !HighBit(c << 2) && !HighBit(c << 3)
    ensures !HighBit(c << 4) && !HighBit(c << 5) && !HighBit(c << 6) && !HighBit(c << 7)
  {
  }

  lemma RightTwice(c: bv64)
    ensures Right(c >> 1) == c >> 2 && Right(c >> 2) == c >> 3 && Right(c >> 3) == c >> 4
    ensures Right(c >> 4) == c >> 5 && Right(c >> 5) == c >> 6 && Right(c >> 6) == c >> 7 && Right(c >> 7) == c >> 8
  {
  }

  lemma LeftTwice(c: bv64)
    ensures Left(c << 1) == c << 2 && Left(c << 2) == c << 3 && Left(c << 3) == c << 4
    ensures Left(c << 4) == c << 5 && Left(c << 5) == c << 6 && Left(c << 6) == c << 7 && Left(c << 7) == c << 8
  {
  }

  lemma ShiftEight<T>(r: Register<T>, c0: T, c1: T, c2: T, c3: T, c4: T, c5: T, c6: T, c7: T, c8: T)
    requires r.shift(c0) == c1 && r.shift(c1) == c2 && r.shift(c2) == c3 && r.shift(c3) == c4
    requires r.shift(c4) == c5 && r.shift(c5) == c6 && r.shift(c6) == c7 && r.shift(c7) == c8
    ensures ShiftN(r, c0, 8) == c8
  {
    assert ShiftN(r, c0, 8) == ShiftN(r, c2, 6);
    assert ShiftN(r, c2, 6) == ShiftN(r, c4, 4);
    assert ShiftN(r, c4, 4) == ShiftN(r, c6, 2);
  }

  lemma EightNoCarries<T>(r: Register<T>, c0: T, c1: T, c2: T, c3: T, c4: T, c5: T, c6: T, c7: T)
    requires r.shift(c0) == c1 && r.shift(c1) == c2 && r.shift(c2) == c3 && r.shift(c3) == c4
    requires r.shift(c4) == c5 && r.shift(c5) == c6 && r.shift(c6) == c7
    requires !r.top(c0) && !r.top(c1) && !r.top(c2) && !r.top(c3) && !r.top(c4) && !r.top(c5) && !r.top(c6) && !r.top(c7)
    ensures NoCarries(r, c0, 8)
  {
    assert NoCarries(r, c6, 2);
    assert NoCarries(r, c4, 4);
    assert NoCarries(r, c2, 6);
  }

  /** Without a low byte nothing needs reducing for eight steps. */
  lemma ReflectedRest(p: bv64, c: bv64)
    requires c & 0xff == 0
    ensures TimesXPow(Reflected(), p, c, 8) == c >> 8
  {
    LowByteEmpty(c);
    RightTwice(c);
    EightNoCarries(Reflected(), c, c >> 1, c >> 2, c >> 3, c >> 4, c >> 5, c >> 6, c >> 7);
    ShiftEight(Reflected(), c, c >> 1, c >> 2, c >> 3, c >> 4, c >> 5, c >> 6, c >> 7, c >> 8);
    JustShifts(Reflected(), p, c, 8);
  }

  lemma DirectRest(p: bv64, c: bv64)
    requires c >> 56 == 0
    ensures TimesXPow(Direct(), p, c, 8) == c << 8
  {
    HighByteEmpty(c);
    LeftTwice(c);
    EightNoCarries(Direct(), c, c << 1, c << 2, c << 3, c << 4, c << 5, c << 6, c << 7);
    ShiftEight(Direct(), c, c << 1, c << 2, c << 3, c << 4, c << 5, c << 6, c << 7, c << 8);
    JustShifts(Direct(), p, c, 8);
  }

  lemma LowLaneShiftsOut(c: bv64)
    requires c < 256
    ensures ShiftN(Reflected(), c, 8) == Reflected().zero
  {
    RightTwice(c);
    ShiftEight(Reflected(), c, c >> 1, c >> 2, c >> 3, c >> 4, c >> 5, c >> 6, c >> 7, c >> 8);
    assert c >> 8 == 0;
  }

  lemma HighLaneShiftsOut(i: bv64)
    requires i < 256
    ensures ShiftN(Direct(), i << 56, 8) == Direct().zero
  {
    var c := i << 56;
    LeftTwice(c);
    ShiftEight(Direct(), c, c << 1, c << 2, c << 3, c << 4, c << 5, c << 6, c << 7, c << 8);
    assert c << 8 == 0;
  }

  /** The index into the table, and what is left of the register beside it. */
  function LowIndex(c: bv64, b: bv8): bv64 { (c & 0xff) ^ (b as bv64) }
  function LowRest(c: bv64): bv64 { c & 0xffff_ffff_ffff_ff00 }
  function HighIndex(c: bv64, b: bv8): bv64 { (c >> 56) ^ (b as bv64) }
  function HighRest(c: bv64): bv64 { c & 0x00ff_ffff_ffff_ffff }

  lemma LowSplit(c: bv64, b: bv8)
    ensures Xor(LowRest(c), LowIndex(c, b)) == Xor(c, LowLane(b))
    ensures LowRest(c) & 0xff == 0 && LowRest(c) >> 8 == c >> 8
  {
    ReflectedByte(c, b);
  }

  lemma HighSplit(c: bv64, b: bv8)
    ensures Xor(HighRest(c), HighIndex(c, b) << 56) == Xor(c, HighLane(b))
    ensures HighRest(c) >> 56 == 0 && HighRest(c) << 8 == c << 8
  {
    DirectByte(c, b);
  }

  lemma LinearSplit<T(!new)>(r: Register<T>, p: T, rest: T, at: T, up: T, all: T)
    requires Laws(r) && r.xor(rest, at) == all && TimesXPow(r, p, rest, 8) == up
    ensures r.xor(up, TimesXPow(r, p, at, 8)) == TimesXPow(r, p, all, 8)
  {
    TimesXPowLinear(r, p, rest, at, 8);
  }

  /** The lookup that replaces eight steps. */
  lemma ReflectedByteStep(p: bv64, c: bv64, b: bv8)
    ensures Xor(c >> 8, TimesXPow(Reflected(), p, LowIndex(c, b), 8)) == TimesXPow(Reflected(), p, Xor(c, LowLane(b)), 8)
  {
    LowSplit(c, b);
    ReflectedLaws();
    ReflectedRest(p, LowRest(c));
    LinearSplit(Reflected(), p, LowRest(c), LowIndex(c, b), c >> 8, Xor(c, LowLane(b)));
  }

  lemma DirectByteStep(p: bv64, c: bv64, b: bv8)
    ensures Xor(c << 8, TimesXPow(Direct(), p, HighIndex(c, b) << 56, 8)) == TimesXPow(Direct(), p, Xor(c, HighLane(b)), 8)
  {
    HighSplit(c, b);
    DirectLaws();
    DirectRest(p, HighRest(c));
    LinearSplit(Direct(), p, HighRest(c), HighIndex(c, b) << 56, c << 8, Xor(c, HighLane(b)));
  }

  // ---------------------------------------------------------------- The tables

  /** The terms of highest degree. */
  function Upper(c: bv64): bv64 { c << 56 }

  /** Entry i is what eight steps make of byte i. */
  ghost predicate IsReflectedEntry(p: bv64, i: nat, e: bv64) {
    i < 256 && forall u {:trigger Look(u)} :: Look(u) ==> e == TimesXPow(Reflected(), p, i as bv64, 8)
  }

  ghost predicate IsDirectEntry(p: bv64, i: nat, e: bv64) {
    i < 256 && forall u {:trigger Look(u)} :: Look(u) ==> e == TimesXPow(Direct(), p, Upper(i as bv64), 8)
  }

  ghost predicate ReflectedSoFar(p: bv64, table: seq<bv64>, n: nat) {
    n <= |table| && forall i: nat {:trigger table[i]} :: i < n ==> IsReflectedEntry(p, i, table[i])
  }

  ghost predicate DirectSoFar(p: bv64, table: seq<bv64>, n: nat) {
    n <= |table| && forall i: nat {:trigger table[i]} :: i < n ==> IsDirectEntry(p, i, table[i])
  }

  ghost predicate IsReflectedTable(p: bv64, table: seq<bv64>) {
    |table| == 256 && ReflectedSoFar(p, table, 256)
  }

  ghost predicate IsDirectTable(p: bv64, table: seq<bv64>) {
    |table| == 256 && DirectSoFar(p, table, 256)
  }

  lemma ReflectedEntryAdded(p: bv64, table: seq<bv64>, n: nat, e: bv64)
    requires n < |table| && ReflectedSoFar(p, table, n) && IsReflectedEntry(p, n, e)
    ensures ReflectedSoFar(p, table[n := e], n + 1)
  {
    var table' := table[n := e];
    forall i: nat | i < n + 1 ensures IsReflectedEntry(p, i, table'[i]) {
      assert i < n ==> table'[i] == table[i];
    }
  }

  lemma DirectEntryAdded(p: bv64, table: seq<bv64>, n: nat, e: bv64)
    requires n < |table| && DirectSoFar(p, table, n) && IsDirectEntry(p, n, e)
    ensures DirectSoFar(p, table[n := e], n + 1)
  {
    var table' := table[n := e];
    forall i: nat | i < n + 1 ensures IsDirectEntry(p, i, table'[i]) {
      assert i < n ==> table'[i] == table[i];
    }
  }

  lemma ShiftOneMore(c: bv64, j: bv64)
    requires j < 8
    ensures c >> (j + 1) == Right(c >> j)
  {
    assert c >> (j + 1) == (c >> j) >> 1;
  }

  /** A loop counter's value after n turns. */
  ghost function Counted(n: nat): bv64 {
    if n == 0 then 0 else Counted(n - 1) + 1
  }

  lemma CountedToEight(n: nat)
    requires n <= 8
    ensures Counted(n) < 8 <==> n < 8
  {
    assert Counted(2) == 2 && Counted(4) == 4 && Counted(6) == 6 && Counted(8) == 8;
    assert Counted(1) == 1 && Counted(3) == 3 && Counted(5) == 5 && Counted(7) == 7;
  }

  /** A register's next value, with the carry of another. */
  function NextRight(crc: bv64, carry: bool, poly: bv64): bv64 {
    if carry then Xor(Right(crc), poly) else Right(crc)
  }

  function NextLeft(crc: bv64, carry: bool, poly: bv64): bv64 {
    if carry then Xor(Left(crc), poly) else Left(crc)
  }

  lemma ReflectedCarry(crc: bv64, w: bv64, poly: bv64)
    ensures Xor(NextRight(crc, LowBit(Xor(crc, w)), poly), Right(w)) == TimesX(Reflected(), poly, Xor(crc, w))
  {
    ReflectedLaws();
    CarryOfSum(Reflected(), poly, crc, w);
  }

  lemma DirectCarry(crc: bv64, w: bv64, poly: bv64)
    ensures Xor(NextLeft(crc, HighBit(Xor(crc, w)), poly), Left(w)) == TimesX(Direct(), poly, Xor(crc, w))
  {
    DirectLaws();
    CarryOfSum(Direct(), poly, crc, w);
  }

  method ReflectedBit(crc: bv64, w: bv64, poly: bv64) returns (next: bv64)
    ensures Xor(next, Right(w)) == TimesX(Reflected(), poly, Xor(crc, w))
  {
    if (crc ^ w) & 1 != 0 {
      next := (crc >> 1) ^ poly;
    } else {
      next := crc >> 1;
    }
    assert next == NextRight(crc, LowBit(Xor(crc, w)), poly);
    ReflectedCarry(crc, w, poly);
  }

  method DirectBit(crc: bv64, w: bv64, poly: bv64) returns (next: bv64)
    ensures Xor(next, Left(w)) == TimesX(Direct(), poly, Xor(crc, w))
  {
    if (crc ^ w) & 0x8000_0000_0000_0000 != 0 {
      next := (crc << 1) ^ poly;
    } else {
      next := crc << 1;
    }
    assert next == NextLeft(crc, HighBit(Xor(crc, w)), poly);
    DirectCarry(crc, w, poly);
  }

  lemma IndexFits(i: nat)
    requires i < 256
    ensures (i as bv64) < 256
  {
  }

  /** After n of eight turns the two registers' sum has been multiplied n times. */
  ghost predicate ReflectedTurned(crc: bv64, c: bv64, j: bv64, poly: bv64, n: nat) {
    j <= 8 && forall u {:trigger Look(u)} :: Look(u) ==>
      c >> j == ShiftN(Reflected(), c, n) && Xor(crc, ShiftN(Reflected(), c, n)) == TimesXPow(Reflected(), poly, c, n)
  }

  method ReflectedTurn(crc: bv64, c: bv64, j: bv64, poly: bv64, ghost n: nat) returns (next: bv64)
    requires j < 8 && ReflectedTurned(crc, c, j, poly, n)
    ensures ReflectedTurned(next, c, j + 1, poly, n + 1)
  {
    assert Look(0);
    TimesXPowNext(Reflected(), poly, c, n);
    ShiftNNext(Reflected(), c, n);
    ShiftOneMore(c, j);
    next := ReflectedBit(crc, c >> j, poly);
  }

  lemma ReflectedTurnsEnd(crc: bv64, c: bv64, j: bv64, poly: bv64)
    requires c < 256 && ReflectedTurned(crc, c, j, poly, 8)
    ensures crc == TimesXPow(Reflected(), poly, c, 8)
  {
    assert Look(0);
    LowLaneShiftsOut(c);
    Cancel(crc, 0);
  }

  lemma ReflectedTurnsStart(c: bv64, poly: bv64)
    ensures ReflectedTurned(0, c, 0, poly, 0)
  {
    assert Xor(0, c) == c && c >> 0 == c;
  }

  method ReflectedEntry(i: nat, poly: bv64) returns (crc: bv64)
    requires i < 256
    ensures IsReflectedEntry(poly, i, crc)
  {
    crc := 0;
    var c := i as bv64;
    var j: bv64 := 0;
    ghost var n := 0;
    ReflectedTurnsStart(c, poly);
    while j < 8
      invariant n <= 8 && j == Counted(n) && ReflectedTurned(crc, c, j, poly, n)
      decreases 8 - n
    {
      CountedToEight(n);
      crc := ReflectedTurn(crc, c, j, poly, n);
      j, n := j + 1, n + 1;
    }
    CountedToEight(n);
    IndexFits(i);
    ReflectedTurnsEnd(crc, c, j, poly);
  }

  /** Fills the table for bytes sent lowest bit first. */
  method GenerateReflectedTable(table: array<bv64>, poly: bv64)
    requires table.Length == 256
    modifies table
    ensures IsReflectedTable(poly, table[..])
  {
    for i := 0 to 256
      invariant ReflectedSoFar(poly, table[..], i)
    {
      var entry := ReflectedEntry(i, poly);
      ReflectedEntryAdded(poly, table[..], i, entry);
      ghost var was := table[..];
      table[i] := entry;
      assert table[..] == was[i := entry];
    }
  }

  ghost predicate DirectTurned(crc: bv64, c: bv64, c0: bv64, poly: bv64, n: nat) {
    forall u {:trigger Look(u)} :: Look(u) ==>
      c == ShiftN(Direct(), c0, n) && Xor(crc, c) == TimesXPow(Direct(), poly, c0, n)
  }

  method DirectTurn(crc: bv64, c: bv64, poly: bv64, ghost c0: bv64, ghost n: nat) returns (next: bv64)
    requires DirectTurned(crc, c, c0, poly, n)
    ensures DirectTurned(next, c << 1, c0, poly, n + 1)
  {
    assert Look(0);
    TimesXPowNext(Direct(), poly, c0, n);
    ShiftNNext(Direct(), c0, n);
    next := DirectBit(crc, c, poly);
  }

  lemma DirectTurnsEnd(crc: bv64, c: bv64, i: bv64, poly: bv64)
    requires i < 256 && DirectTurned(crc, c, i << 56, poly, 8)
    ensures crc == TimesXPow(Direct(), poly, i << 56, 8)
  {
    assert Look(0);
    HighLaneShiftsOut(i);
    Cancel(crc, 0);
  }

  lemma DirectTurnsStart(c: bv64, poly: bv64)
    ensures DirectTurned(0, c, c, poly, 0)
  {
    assert Xor(0, c) == c;
  }

  method DirectEntry(i: nat, poly: bv64) returns (crc: bv64)
    requires i < 256
    ensures IsDirectEntry(poly, i, crc)
  {
    crc := 0;
    var c := (i as bv64) << 56;
    ghost var c0 := c;
    DirectTurnsStart(c, poly);
    for j := 0 to 8
      invariant DirectTurned(crc, c, c0, poly, j)
    {
      crc := DirectTurn(crc, c, poly, c0, j);
      c := c << 1;
    }
    IndexFits(i);
    DirectTurnsEnd(crc, c, i as bv64, poly);
  }

  /** Fills the table for bytes sent highest bit first. */
  method GenerateTable(table: array<bv64>, poly: bv64)
    requires table.Length == 256
    modifies table
    ensures IsDirectTable(poly, table[..])
  {
    for i := 0 to 256
      invariant DirectSoFar(poly, table[..], i)
    {
      var entry := DirectEntry(i, poly);
      DirectEntryAdded(poly, table[..], i, entry);
      ghost var was := table[..];
      table[i] := entry;
      assert table[..] == was[i := entry];
    }
  }

  // ---------------------------------------------------------------- The checksums

  /** The register after a byte, bit by bit or all at once. */
  ghost predicate ReflectedFed(p: bv64, c: bv64, b: bv8, next: bv64) {
    forall u {:trigger Look(u)} :: Look(u) ==> next == TimesXPow(Reflected(), p, Xor(c, LowLane(b)), 8)
  }

  ghost predicate DirectFed(p: bv64, c: bv64, b: bv8, next: bv64) {
    forall u {:trigger Look(u)} :: Look(u) ==> next == TimesXPow(Direct(), p, Xor(c, HighLane(b)), 8)
  }

  lemma SameIndex(at: bv64)
    ensures (at as nat) as bv64 == at
  {
  }

  lemma ReflectedLookup(p: bv64, c: bv64, b: bv8, e: bv64, next: bv64)
    requires IsReflectedEntry(p, LowIndex(c, b) as nat, e) && next == (c >> 8) ^ e
    ensures ReflectedFed(p, c, b, next)
  {
    assert Look(0);
    SameIndex(LowIndex(c, b));
    ReflectedByteStep(p, c, b);
  }

  lemma OpenDirectEntry(p: bv64, at: bv64, e: bv64)
    requires IsDirectEntry(p, at as nat, e)
    ensures e == TimesXPow(Direct(), p, Upper(at), 8)
  {
    assert Look(0);
    SameIndex(at);
  }

  lemma DirectStepTo(p: bv64, c: bv64, b: bv8, e: bv64, next: bv64)
    requires e == TimesXPow(Direct(), p, Upper(HighIndex(c, b)), 8) && next == Xor(c << 8, e)
    ensures DirectFed(p, c, b, next)
  {
    DirectByteStep(p, c, b);
  }

  lemma DirectLookup(p: bv64, c: bv64, b: bv8, e: bv64, next: bv64)
    requires IsDirectEntry(p, HighIndex(c, b) as nat, e) && next == (c << 8) ^ e
    ensures DirectFed(p, c, b, next)
  {
    OpenDirectEntry(p, HighIndex(c, b), e);
    assert next == Xor(c << 8, e);
    DirectStepTo(p, c, b, e, next);
  }

  method NvmeByte(table: seq<bv64>, crc: bv64, b: bv8) returns (next: bv64)
    requires IsReflectedTable(NVME_POLY, table)
    ensures ReflectedFed(NVME_POLY, crc, b, next)
  {
    ReflectedByte(crc, b);
    var e := table[((crc & 0xff) ^ (b as bv64)) as nat];
    next := (crc >> 8) ^ e;
    ReflectedLookup(NVME_POLY, crc, b, e, next);
  }

  lemma NvmeFeeds(seed: bv64, data: seq<bv8>, i: nat, crc: bv64, next: bv64)
    requires i < |data| && crc == Feed(Reflected(), NVME_POLY, seed, MessageBits(Reflected(), LowLane, data[..i]))
    requires ReflectedFed(NVME_POLY, crc, data[i], next)
    ensures next == Feed(Reflected(), NVME_POLY, seed, MessageBits(Reflected(), LowLane, data[..i + 1]))
  {
    assert Look(0);
    ReflectedLaws();
    LowLaneShiftsOut(LowLane(data[i]));
    FeedLastByte(Reflected(), NVME_POLY, LowLane, seed, data, i);
  }

  method NvmeGeneric(table: seq<bv64>, seed: bv64, data: seq<bv8>) returns (crc: bv64)
    requires IsReflectedTable(NVME_POLY, table)
    ensures crc == Feed(Reflected(), NVME_POLY, seed, MessageBits(Reflected(), LowLane, data))
  {
    crc := seed;
    for i := 0 to |data|
      invariant crc == Feed(Reflected(), NVME_POLY, seed, MessageBits(Reflected(), LowLane, data[..i]))
    {
      var next := NvmeByte(table, crc, data[i]);
      NvmeFeeds(seed, data, i, crc, next);
      crc := next;
    }
    assert data[..|data|] == data;
  }

  method BeByte(table: seq<bv64>, crc: bv64, b: bv8) returns (next: bv64)
    requires IsDirectTable(ECMA182_POLY, table)
    ensures DirectFed(ECMA182_POLY, crc, b, next)
  {
    DirectByte(crc, b);
    var e := table[((crc >> 56) ^ (b as bv64)) as nat];
    next := (crc << 8) ^ e;
    DirectLookup(ECMA182_POLY, crc, b, e, next);
  }

  lemma BeFeeds(seed: bv64, data: seq<bv8>, i: nat, crc: bv64, next: bv64)
    requires i < |data| && crc == Feed(Direct(), ECMA182_POLY, seed, MessageBits(Direct(), HighLane, data[..i]))
    requires DirectFed(ECMA182_POLY, crc, data[i], next)
    ensures next == Feed(Direct(), ECMA182_POLY, seed, MessageBits(Direct(), HighLane, data[..i + 1]))
  {
    assert Look(0);
    DirectLaws();
    HighLaneShiftsOut(LowLane(data[i]));
    FeedLastByte(Direct(), ECMA182_POLY, HighLane, seed, data, i);
  }

  /** The big-endian checksum. */
  ghost function Be(seed: bv64, data: seq<bv8>): bv64 {
    Feed(Direct(), ECMA182_POLY, seed, MessageBits(Direct(), HighLane, data))
  }

  method BeGeneric(table: seq<bv64>, seed: bv64, data: seq<bv8>) returns (crc: bv64)
    requires IsDirectTable(ECMA182_POLY, table)
    ensures crc == Be(seed, data)
  {
    crc := seed;
    for i := 0 to |data|
      invariant crc == Feed(Direct(), ECMA182_POLY, seed, MessageBits(Direct(), HighLane, data[..i]))
    {
      var next := BeByte(table, crc, data[i]);
      BeFeeds(seed, data, i, crc, next);
      crc := next;
    }
    assert data[..|data|] == data;
  }

  /** The NVMe checksum: bits are inverted before and after. */
  ghost function Nvme(seed: bv64, data: seq<bv8>): bv64 {
    !Feed(Reflected(), NVME_POLY, !seed, MessageBits(Reflected(), LowLane, data))
  }

  /** A checksum as the NVM Command Set Specification has it: the complement of the remainder of the message with its
      first 64 bits inverted. */
  ghost predicate IsNvmeRemainder(data: seq<bv8>, crc: bv64) {
    forall bits {:trigger Sent(data, bits)} :: Sent(data, bits) ==>
      crc ^ 0xffff_ffff_ffff_ffff == Remainder(Reflected(), NVME_POLY, Inverted(bits, 64) + Zeros(64))
  }

  /** The bits of a message, each byte's lowest first. */
  ghost predicate Sent(data: seq<bv8>, bits: seq<bool>) {
    bits == MessageBits(Reflected(), LowLane, data)
  }

  method CrcNvme(table: seq<bv64>, seed: bv64, data: seq<bv8>) returns (crc: bv64)
    requires IsReflectedTable(NVME_POLY, table)
    ensures crc == Nvme(seed, data)
    ensures seed == 0 && |data| >= 8 ==> IsNvmeRemainder(data, crc)
  {
    crc := NvmeGeneric(table, !seed, data);
    crc := !crc;
    if seed == 0 && |data| >= 8 {
      NvmeIsRemainder(data);
    }
  }

  lemma NotTwice(c: bv64)
    ensures !(!c) == c
  {
  }

  /** Passing a checksum on as the next seed checks the pieces as one. */
  lemma NvmeChains(seed: bv64, a: seq<bv8>, b: seq<bv8>)
    ensures Nvme(Nvme(seed, a), b) == Nvme(seed, a + b)
  {
    var f := Feed(Reflected(), NVME_POLY, !seed, MessageBits(Reflected(), LowLane, a));
    FeedMessages(Reflected(), NVME_POLY, LowLane, !seed, a, b);
    calc {
      Nvme(Nvme(seed, a), b);
      Nvme(!f, b);
      { NotTwice(f); }
      !Feed(Reflected(), NVME_POLY, f, MessageBits(Reflected(), LowLane, b));
      !Feed(Reflected(), NVME_POLY, !seed, MessageBits(Reflected(), LowLane, a + b));
      Nvme(seed, a + b);
    }
  }

  // ---------------------------------------------------------------- Polynomial division

  lemma ReflectedOneUp(p: bv64, c: bv64, n: nat)
    requires c & 0xff == 0 && TimesXPow(Reflected(), p, Reflected().one, n) == c
    ensures TimesXPow(Reflected(), p, Reflected().one, n + 8) == c >> 8
  {
    TimesXPowAdds(Reflected(), p, Reflected().one, n, 8);
    ReflectedRest(p, c);
  }

  lemma DirectOneUp(p: bv64, c: bv64, n: nat)
    requires c >> 56 == 0 && TimesXPow(Direct(), p, Direct().one, n) == c
    ensures TimesXPow(Direct(), p, Direct().one, n + 8) == c << 8
  {
    TimesXPowAdds(Direct(), p, Direct().one, n, 8);
    DirectRest(p, c);
  }

  lemma SevenUp<T>(r: Register<T>, p: T, c0: T, c1: T, c2: T, c3: T, c4: T, c5: T, c6: T, c7: T)
    requires r.shift(c0) == c1 && r.shift(c1) == c2 && r.shift(c2) == c3 && r.shift(c3) == c4
    requires r.shift(c4) == c5 && r.shift(c5) == c6 && r.shift(c6) == c7
    requires !r.top(c0) && !r.top(c1) && !r.top(c2) && !r.top(c3) && !r.top(c4) && !r.top(c5) && !r.top(c6)
    ensures TimesXPow(r, p, c0, 7) == c7
  {
    assert TimesXPow(r, p, c0, 7) == TimesXPow(r, p, c2, 5);
    assert TimesXPow(r, p, c2, 5) == TimesXPow(r, p, c4, 3);
    assert TimesXPow(r, p, c4, 3) == TimesXPow(r, p, c6, 1);
  }

  /** x multiplied with itself 63 times is the term of highest degree. */
  lemma ReflectedOneToTop(p: bv64)
    ensures TimesXPow(Reflected(), p, Reflected().one, 63) == Reflected().topTerm
  {
    ReflectedOneUp(p, 0x8000_0000_0000_0000, 0);
    ReflectedOneUp(p, 0x0080_0000_0000_0000, 8);
    ReflectedOneUp(p, 0x0000_8000_0000_0000, 16);
    ReflectedOneUp(p, 0x0000_0080_0000_0000, 24);
    ReflectedOneUp(p, 0x0000_0000_8000_0000, 32);
    ReflectedOneUp(p, 0x0000_0000_0080_0000, 40);
    ReflectedOneUp(p, 0x0000_0000_0000_8000, 48);
    SevenUp(Reflected(), p, 0x80, 0x40, 0x20, 0x10, 8, 4, 2, 1);
    TimesXPowAdds(Reflected(), p, Reflected().one, 56, 7);
  }

  lemma DirectOneToTop(p: bv64)
    ensures TimesXPow(Direct(), p, Direct().one, 63) == Direct().topTerm
  {
    DirectOneUp(p, 0x1, 0);
    DirectOneUp(p, 0x100, 8);
    DirectOneUp(p, 0x1_0000, 16);
    DirectOneUp(p, 0x100_0000, 24);
    DirectOneUp(p, 0x1_0000_0000, 32);
    DirectOneUp(p, 0x100_0000_0000, 40);
    DirectOneUp(p, 0x1_0000_0000_0000, 48);
    SevenUp(Direct(), p, 0x100_0000_0000_0000, 0x200_0000_0000_0000, 0x400_0000_0000_0000, 0x800_0000_0000_0000,
      0x1000_0000_0000_0000, 0x2000_0000_0000_0000, 0x4000_0000_0000_0000, 0x8000_0000_0000_0000);
    TimesXPowAdds(Direct(), p, Direct().one, 56, 7);
  }

  /** What a message leaves in the reflected register, from any seed, in terms of division alone. */
  lemma ReflectedCrcIsDivision(p: bv64, seed: bv64, data: seq<bv8>)
    ensures var bits := MessageBits(Reflected(), LowLane, data);
      Feed(Reflected(), p, seed, bits)
        == Reflected().xor(TimesXPow(Reflected(), p, seed, |bits|), Remainder(Reflected(), p, bits + Zeros(64)))
  {
    ReflectedLaws();
    ReflectedOneToTop(p);
    FeedIsDivision(Reflected(), p, seed, MessageBits(Reflected(), LowLane, data), 63);
  }

  lemma DirectCrcIsDivision(p: bv64, seed: bv64, data: seq<bv8>)
    ensures var bits := MessageBits(Direct(), HighLane, data);
      Feed(Direct(), p, seed, bits)
        == Direct().xor(TimesXPow(Direct(), p, seed, |bits|), Remainder(Direct(), p, bits + Zeros(64)))
  {
    DirectLaws();
    DirectOneToTop(p);
    FeedIsDivision(Direct(), p, seed, MessageBits(Direct(), HighLane, data), 63);
  }

  lemma OnesOnes(r: Register<bv64>, c0: bv64, c1: bv64, c2: bv64, c3: bv64, c4: bv64, c5: bv64, c6: bv64, c7: bv64, c8: bv64, n: nat)
    requires r.shift(c0) == c1 && r.shift(c1) == c2 && r.shift(c2) == c3 && r.shift(c3) == c4
    requires r.shift(c4) == c5 && r.shift(c5) == c6 && r.shift(c6) == c7 && r.shift(c7) == c8
    requires r.top(c0) && r.top(c1) && r.top(c2) && r.top(c3) && r.top(c4) && r.top(c5) && r.top(c6) && r.top(c7)
    requires AllOnes(r, c8, n)
    ensures AllOnes(r, c0, n + 8)
  {
    assert AllOnes(r, c6, n + 2);
    assert AllOnes(r, c4, n + 4);
    assert AllOnes(r, c2, n + 6);
  }

  lemma ReflectedOnesByte(c: bv64, n: nat)
    requires c & 0xff == 0xff && AllOnes(Reflected(), c >> 8, n)
    ensures AllOnes(Reflected(), c, n + 8)
  {
    RightTwice(c);
    LowByteFull(c);
    OnesOnes(Reflected(), c, c >> 1, c >> 2, c >> 3, c >> 4, c >> 5, c >> 6, c >> 7, c >> 8, n);
  }

  lemma LowByteFull(c: bv64)
    requires c & 0xff == 0xff
    ensures LowBit(c) && LowBit(c >> 1) && LowBit(c >> 2) && LowBit(c >> 3)
    ensures LowBit(c >> 4) && LowBit(c >> 5) && LowBit(c >> 6) && LowBit(c >> 7)
  {
  }

  lemma ReflectedOnes()
    ensures AllOnes(Reflected(), 0xffff_ffff_ffff_ffff, 64)
  {
    ReflectedOnesByte(0xff, 0);
    ReflectedOnesByte(0xffff, 8);
    ReflectedOnesByte(0xff_ffff, 16);
    ReflectedOnesByte(0xffff_ffff, 24);
    ReflectedOnesByte(0xff_ffff_ffff, 32);
    ReflectedOnesByte(0xffff_ffff_ffff, 40);
    ReflectedOnesByte(0xff_ffff_ffff_ffff, 48);
    ReflectedOnesByte(0xffff_ffff_ffff_ffff, 56);
  }

  /** The checksum of at least eight bytes is the one specified. */
  lemma NvmeIsRemainder(data: seq<bv8>)
    requires |data| >= 8
    ensures IsNvmeRemainder(data, Nvme(0, data))
  {
    var f := Feed(Reflected(), NVME_POLY, 0xffff_ffff_ffff_ffff, MessageBits(Reflected(), LowLane, data));
    ReflectedLaws();
    ReflectedOneToTop(NVME_POLY);
    ReflectedOnes();
    OnesInvert(Reflected(), NVME_POLY, 0xffff_ffff_ffff_ffff, MessageBits(Reflected(), LowLane, data), 63);
    Complement(f);
  }

  /** From any seed, and for messages of any length: the complement of the remainder, offset by the seed's complement. */
  lemma NvmeIsDivision(seed: bv64, data: seq<bv8>)
    ensures var bits := MessageBits(Reflected(), LowLane, data);
      !Nvme(seed, data) == Reflected().xor(TimesXPow(Reflected(), NVME_POLY, !seed, |bits|),
        Remainder(Reflected(), NVME_POLY, bits + Zeros(64)))
  {
    var f := Feed(Reflected(), NVME_POLY, !seed, MessageBits(Reflected(), LowLane, data));
    ReflectedCrcIsDivision(NVME_POLY, !seed, data);
    NotTwice(f);
  }

  lemma Complement(f: bv64)
    ensures !(0 as bv64) == 0xffff_ffff_ffff_ffff && (!f) ^ 0xffff_ffff_ffff_ffff == f
  {
  }

  /** From seed 0 the big-endian checksum is the remainder itself. */
  lemma BeIsRemainder(data: seq<bv8>)
    ensures var bits := MessageBits(Direct(), HighLane, data);
      Be(0, data) == Remainder(Direct(), ECMA182_POLY, bits + Zeros(64))
  {
    var bits := MessageBits(Direct(), HighLane, data);
    DirectCrcIsDivision(ECMA182_POLY, 0, data);
    DirectLaws();
    TimesXPowZero(Direct(), ECMA182_POLY, |bits|);
    Cancel(Remainder(Direct(), ECMA182_POLY, bits + Zeros(64)), 0);
  }

  // ---------------------------------------------------------------- Fixed values

  /** The digits 1 to 9. */
  const DIGITS: seq<bv8> := [0x31, 0x32, 0x33, 0x34, 0x35, 0x36, 0x37, 0x38, 0x39]

  function NvmeStep(c: bv64): bv64 {
    if c & 1 != 0 then (c >> 1) ^ 0x9a6c_9329_ac4b_c9b5 else c >> 1
  }

  function BeStep(c: bv64): bv64 {
    if c & 0x8000_0000_0000_0000 != 0 then (c << 1) ^ 0x42f0_e1eb_a9ea_3693 else c << 1
  }

  function NvmeSteps(c: bv64): bv64 {
    NvmeStep(NvmeStep(NvmeStep(NvmeStep(NvmeStep(NvmeStep(NvmeStep(NvmeStep(c))))))))
  }

  function BeSteps(c: bv64): bv64 {
    BeStep(BeStep(BeStep(BeStep(BeStep(BeStep(BeStep(BeStep(c))))))))
  }

  lemma EightSteps<T(!new)>(r: Register<T>, p: T, step: T -> T, c: T)
    requires forall x {:trigger step(x)} :: step(x) == TimesX(r, p, x)
    ensures step(step(step(step(step(step(step(step(c)))))))) == TimesXPow(r, p, c, 8)
  {
    var c2, c4 := step(step(c)), step(step(step(step(c))));
    var c6 := step(step(c4));
    assert TimesXPow(r, p, c, 8) == TimesXPow(r, p, c2, 6);
    assert TimesXPow(r, p, c2, 6) == TimesXPow(r, p, c4, 4);
    assert TimesXPow(r, p, c4, 4) == TimesXPow(r, p, c6, 2);
  }

  lemma NvmeStepsAre(c: bv64)
    ensures NvmeSteps(c) == TimesXPow(Reflected(), NVME_POLY, c, 8)
  {
    EightSteps(Reflected(), NVME_POLY, NvmeStep, c);
  }

  lemma BeStepsAre(c: bv64)
    ensures BeSteps(c) == TimesXPow(Direct(), ECMA182_POLY, c, 8)
  {
    EightSteps(Direct(), ECMA182_POLY, BeStep, c);
  }

  lemma NvmeFedBy(c: bv64, b: bv8, w: bv64)
    requires w == Xor(c, LowLane(b))
    ensures ReflectedFed(NVME_POLY, c, b, NvmeSteps(w))
  {
    NvmeStepsAre(w);
  }

  lemma BeFedBy(c: bv64, b: bv8, w: bv64)
    requires w == Xor(c, HighLane(b))
    ensures DirectFed(ECMA182_POLY, c, b, BeSteps(w))
  {
    BeStepsAre(w);
  }

  /** What the register holds after the first i digits. */
  ghost predicate NvmeHolds(i: nat, c: bv64) {
    i <= |DIGITS| && forall u {:trigger Look(u)} :: Look(u) ==>
      c == Feed(Reflected(), NVME_POLY, 0xffff_ffff_ffff_ffff, MessageBits(Reflected(), LowLane, DIGITS[..i]))
  }

  ghost predicate BeHolds(i: nat, c: bv64) {
    i <= |DIGITS| && forall u {:trigger Look(u)} :: Look(u) ==>
      c == Feed(Direct(), ECMA182_POLY, 0, MessageBits(Direct(), HighLane, DIGITS[..i]))
  }

  /** Digit i takes the register from c to next. */
  ghost predicate NvmeLink(i: nat, c: bv64, next: bv64) {
    i < |DIGITS| && forall u {:trigger Look(u)} :: Look(u) ==> next == NvmeSteps(Xor(c, LowLane(DIGITS[i])))
  }

  ghost predicate BeLink(i: nat, c: bv64, next: bv64) {
    i < |DIGITS| && forall u {:trigger Look(u)} :: Look(u) ==> next == BeSteps(Xor(c, HighLane(DIGITS[i])))
  }

  lemma NvmeNext(i: nat, c: bv64, next: bv64)
    requires NvmeHolds(i, c) && NvmeLink(i, c, next)
    ensures NvmeHolds(i + 1, next)
  {
    assert Look(0);
    NvmeFedBy(c, DIGITS[i], Xor(c, LowLane(DIGITS[i])));
    NvmeFeeds(0xffff_ffff_ffff_ffff, DIGITS, i, c, next);
  }

  lemma BeNext(i: nat, c: bv64, next: bv64)
    requires BeHolds(i, c) && BeLink(i, c, next)
    ensures BeHolds(i + 1, next)
  {
    assert Look(0);
    BeFedBy(c, DIGITS[i], Xor(c, HighLane(DIGITS[i])));
    BeFeeds(0, DIGITS, i, c, next);
  }

  lemma NvmeEmpty()
    ensures NvmeHolds(0, 0xffff_ffff_ffff_ffff)
  {
    assert DIGITS[..0] == [];
  }

  lemma BeEmpty()
    ensures BeHolds(0, 0)
  {
    assert DIGITS[..0] == [];
  }

  lemma NvmeAll(c: bv64)
    requires NvmeHolds(9, c)
    ensures Nvme(0, DIGITS) == !c
  {
    assert DIGITS[..9] == DIGITS;
    var f := Feed(Reflected(), NVME_POLY, 0xffff_ffff_ffff_ffff, MessageBits(Reflected(), LowLane, DIGITS));
    assert c == f by {
      assert Look(0);
    }
    Complement(f);
  }

  lemma BeAll(c: bv64)
    requires BeHolds(9, c)
    ensures Be(0, DIGITS) == c
  {
    assert Look(0);
    assert DIGITS[..9] == DIGITS;
  }

  lemma NvmeLinksFirst()
    ensures NvmeLink(0, 0xffff_ffff_ffff_ffff, 0xdc6a_5e3c_b9e4_412d)
    ensures NvmeLink(1, 0xdc6a_5e3c_b9e4_412d, 0x96f1_8dfa_140c_58b1)
    ensures NvmeLink(2, 0x96f1_8dfa_140c_58b1, 0x6427_8334_3634_d71f)
  {
    assert NvmeSteps(Xor(0xffff_ffff_ffff_ffff, LowLane(0x31))) == 0xdc6a_5e3c_b9e4_412d;
    assert NvmeSteps(Xor(0xdc6a_5e3c_b9e4_412d, LowLane(0x32))) == 0x96f1_8dfa_140c_58b1;
    assert NvmeSteps(Xor(0x96f1_8dfa_140c_58b1, LowLane(0x33))) == 0x6427_8334_3634_d71f;
  }

  lemma NvmeLinksMiddle()
    ensures NvmeLink(3, 0x6427_8334_3634_d71f, 0xd60a_2418_1d00_8e2b)
    ensures NvmeLink(4, 0xd60a_2418_1d00_8e2b, 0xe995_1d48_009d_3507)
    ensures NvmeLink(5, 0xe995_1d48_009d_3507, 0xf6a6_6499_e1f7_a4cf)
  {
    assert NvmeSteps(Xor(0x6427_8334_3634_d71f, LowLane(0x34))) == 0xd60a_2418_1d00_8e2b;
    assert NvmeSteps(Xor(0xd60a_2418_1d00_8e2b, LowLane(0x35))) == 0xe995_1d48_009d_3507;
    assert NvmeSteps(Xor(0xe995_1d48_009d_3507, LowLane(0x36))) == 0xf6a6_6499_e1f7_a4cf;
  }

  lemma NvmeLinksLast()
    ensures NvmeLink(6, 0xf6a6_6499_e1f7_a4cf, 0x62fd_0208_be12_5d88)
    ensures NvmeLink(7, 0x62fd_0208_be12_5d88, 0x132f_6f67_3d37_6b6b)
    ensures NvmeLink(8, 0x132f_6f67_3d37_6b6b, 0x5174_eb79_f586_6777)
  {
    assert NvmeSteps(Xor(0xf6a6_6499_e1f7_a4cf, LowLane(0x37))) == 0x62fd_0208_be12_5d88;
    assert NvmeSteps(Xor(0x62fd_0208_be12_5d88, LowLane(0x38))) == 0x132f_6f67_3d37_6b6b;
    assert NvmeSteps(Xor(0x132f_6f67_3d37_6b6b, LowLane(0x39))) == 0x5174_eb79_f586_6777;
  }

  /** The check value that the specification gives. */
  lemma NvmeCheck()
    ensures Nvme(0, DIGITS) == 0xae8b_1486_0a79_9888
  {
    NvmeLinksFirst();
    NvmeLinksMiddle();
    NvmeLinksLast();
    NvmeEmpty();
    NvmeNext(0, 0xffff_ffff_ffff_ffff, 0xdc6a_5e3c_b9e4_412d);
    NvmeNext(1, 0xdc6a_5e3c_b9e4_412d, 0x96f1_8dfa_140c_58b1);
    NvmeNext(2, 0x96f1_8dfa_140c_58b1, 0x6427_8334_3634_d71f);
    NvmeNext(3, 0x6427_8334_3634_d71f, 0xd60a_2418_1d00_8e2b);
    NvmeNext(4, 0xd60a_2418_1d00_8e2b, 0xe995_1d48_009d_3507);
    NvmeNext(5, 0xe995_1d48_009d_3507, 0xf6a6_6499_e1f7_a4cf);
    NvmeNext(6, 0xf6a6_6499_e1f7_a4cf, 0x62fd_0208_be12_5d88);
    NvmeNext(7, 0x62fd_0208_be12_5d88, 0x132f_6f67_3d37_6b6b);
    NvmeNext(8, 0x132f_6f67_3d37_6b6b, 0x5174_eb79_f586_6777);
    NvmeAll(0x5174_eb79_f586_6777);
  }

  lemma BeLinksFirst()
    ensures BeLink(0, 0x0, 0xe8b7_68eb_18c8_b8a2)
    ensures BeLink(1, 0xe8b7_68eb_18c8_b8a2, 0xea2d_7b6f_8056_c695)
    ensures BeLink(2, 0xea2d_7b6f_8056_c695, 0xb72f_ddcb_e416_aa20)
  {
    assert BeSteps(Xor(0x0, HighLane(0x31))) == 0xe8b7_68eb_18c8_b8a2;
    assert BeSteps(Xor(0xe8b7_68eb_18c8_b8a2, HighLane(0x32))) == 0xea2d_7b6f_8056_c695;
    assert BeSteps(Xor(0xea2d_7b6f_8056_c695, HighLane(0x33))) == 0xb72f_ddcb_e416_aa20;
  }

  lemma BeLinksMiddle()
    ensures BeLink(3, 0xb72f_ddcb_e416_aa20, 0x1e36_0c18_91a6_0f78)
    ensures BeLink(4, 0x1e36_0c18_91a6_0f78, 0xaf01_07d8_6177_f1d5)
    ensures BeLink(5, 0xaf01_07d8_6177_f1d5, 0x4156_683f_2f4d_cb0f)
  {
    assert BeSteps(Xor(0xb72f_ddcb_e416_aa20, HighLane(0x34))) == 0x1e36_0c18_91a6_0f78;
    assert BeSteps(Xor(0x1e36_0c18_91a6_0f78, HighLane(0x35))) == 0xaf01_07d8_6177_f1d5;
    assert BeSteps(Xor(0xaf01_07d8_6177_f1d5, HighLane(0x36))) == 0x4156_683f_2f4d_cb0f;
  }

  lemma BeLinksLast()
    ensures BeLink(6, 0x4156_683f_2f4d_cb0f, 0xeaf8_11a8_4b13_21e7)
    ensures BeLink(7, 0xeaf8_11a8_4b13_21e7, 0x3732_f4b6_474a_5a2b)
    ensures BeLink(8, 0x3732_f4b6_474a_5a2b, 0x6c40_df5f_0b49_7347)
  {
    assert BeSteps(Xor(0x4156_683f_2f4d_cb0f, HighLane(0x37))) == 0xeaf8_11a8_4b13_21e7;
    assert BeSteps(Xor(0xeaf8_11a8_4b13_21e7, HighLane(0x38))) == 0x3732_f4b6_474a_5a2b;
    assert BeSteps(Xor(0x3732_f4b6_474a_5a2b, HighLane(0x39))) == 0x6c40_df5f_0b49_7347;
  }

  /** The check value for the polynomial of ECMA-182. */
  lemma BeCheck()
    ensures Be(0, DIGITS) == 0x6c40_df5f_0b49_7347
  {
    BeLinksFirst();
    BeLinksMiddle();
    BeLinksLast();
    BeEmpty();
    BeNext(0, 0x0, 0xe8b7_68eb_18c8_b8a2);
    BeNext(1, 0xe8b7_68eb_18c8_b8a2, 0xea2d_7b6f_8056_c695);
    BeNext(2, 0xea2d_7b6f_8056_c695, 0xb72f_ddcb_e416_aa20);
    BeNext(3, 0xb72f_ddcb_e416_aa20, 0x1e36_0c18_91a6_0f78);
    BeNext(4, 0x1e36_0c18_91a6_0f78, 0xaf01_07d8_6177_f1d5);
    BeNext(5, 0xaf01_07d8_6177_f1d5, 0x4156_683f_2f4d_cb0f);
    BeNext(6, 0x4156_683f_2f4d_cb0f, 0xeaf8_11a8_4b13_21e7);
    BeNext(7, 0xeaf8_11a8_4b13_21e7, 0x3732_f4b6_474a_5a2b);
    BeNext(8, 0x3732_f4b6_474a_5a2b, 0x6c40_df5f_0b49_7347);
    BeAll(0x6c40_df5f_0b49_7347);
  }
}
