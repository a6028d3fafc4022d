/** A concrete machine on which the expansions run, and on which some destinations go wrong. */
module Witness {
  import opened Bits
  import opened Machine
  import opened Scratch
  import opened MiniRv
  import opened Tables
  import opened Effects
  import opened Rv32
  import opened Expand
  import opened SimRelation
  import opened GenLut
  import opened Destinations
  import opened MacroLoads
  import opened MacroEqual

  const STACK := 0x100_0000

  function RomByte(rom: map<int, int>, a: int): int {
    if a in rom && 0 <= rom[a] < 256 then rom[a] else 0
  }

  /** The ROM in memory, the stack pointer far above it, x in s0, all else zero. */
  function Start(L: Layout, x: int): State {
    State(seq(32, r => 0)[SP := STACK][S0 := x], seq(W, a => RomByte(L.rom, a)))
  }

  lemma FileBytes(file: seq<int>)
    requires LutFile(file)
    ensures forall a | 0 <= a < |file| :: 0 <= file[a] < 256
  {
    hide Expr;
    forall a | 0 <= a < |file|
      ensures 0 <= file[a] < 256
    {
      FileByte(file, a);
    }
  }

  /** Every byte of the file belongs to an entry of a table. */
  lemma FileByte(file: seq<int>, a: nat)
    requires LutFile(file) && a < |file|
    ensures 0 <= file[a] < 256
  {
    var t := if a < 0x1_0000 then AND8 else if a < 0x2_0000 then OR8 else if a < 0x3_0000 then XOR8
             else if a < 0x3_8000 then SLL8 else if a < 0x4_0000 then SRL8 else SRA8;
    TableByte(file, t, a - Offset(t));
  }

  lemma TableByte(file: seq<int>, t: Table, d: nat)
    requires LutFile(file) && d < EntrySize(t) * 256 * Rows(t)
    ensures Offset(t) + d < |file| && 0 <= file[Offset(t) + d] < 256
  {
    hide Expr, Split, Written;
    var j, i, k := Locate(d, EntrySize(t), Rows(t));
    assert TableIn(file, Offset(t), t) && RowIn(file, Offset(t), t, j) && EntryIn(file, Offset(t), t, j, i);
    var at := Offset(t) + EntrySize(t) * (256 * j + i);
    assert file[at + k] == file[at..at + EntrySize(t)][k];
    WrittenBytes(EntrySize(t), Expr(t, j, i), k);
  }

  lemma Locate(d: nat, size: nat, rows: nat) returns (j: nat, i: nat, k: nat)
    requires (size == 1 || size == 4) && d < size * 256 * rows
    ensures j < rows && i < 256 && k < size && d == size * (256 * j + i) + k
  {
    var n := d / size;
    k := d % size;
    j, i := n / 256, n % 256;
  }

  lemma WrittenBytes(size: nat, res: int, k: nat)
    requires size == 1 || size == 4
    requires k < size
    ensures |Written(size, res)| == size && 0 <= Written(size, res)[k] < 256
  {
  }

  lemma RomBytes(file: seq<int>, a: int)
    requires LutFile(file) && a in FlatLayout(file).rom
    ensures 0 <= a < FILE_SIZE + 284 && 0 <= FlatLayout(file).rom[a] < 256
  {
    hide LutFile;
    FileLength(file);
    FileBytes(file);
    TailBytes();
    var b := file + Tail();
    assert b[a] == if a < |file| then file[a] else Tail()[a - |file|];
  }

  lemma TailBytes()
    ensures |Tail()| == 284 && forall k | 0 <= k < |Tail()| :: 0 <= Tail()[k] < 256
  {
  }

  /** The relation holds at the start, so the simulation has somewhere to begin. */
  lemma StartOK(file: seq<int>, x: int)
    requires LutFile(file) && 0 <= x < W
    ensures (var L, s := FlatLayout(file), Start(FlatLayout(file), x);
             LayoutOK(L) && RomOK(L, s) && StackOK(L, s) && Sim(L, {}, s, s))
  {
    hide LutFile, FlatLayout, LayoutOK;
    var L, s := FlatLayout(file), Start(FlatLayout(file), x);
    FlatLayoutOK(file);
    CheckAddress(file);
    assert Room(s);
    forall a | a in L.rom
      ensures Holds(L, s, a) && !InScratch(s, a)
    {
      RomBytes(file, a);
    }
  }

  lemma CheckAddress(file: seq<int>)
    requires LutFile(file)
    ensures FlatLayout(file).check == FILE_SIZE + 284
  {
    hide LutFile;
    FileLength(file);
  }

  /** seqz s0, x0 with 5 in s0: the answer is 1, and s0 still holds 5. */
  lemma SeqzIntoS0Fails(file: seq<int>) returns (L: Layout, s: State, t: State)
    requires LutFile(file)
    ensures LayoutOK(L) && RomOK(L, s) && t == Run(SeqzCode(L, S0, ZERO), s) && WellTyped(t)
    ensures s.regs[ZERO] == 0 && t.regs[S0] == 5 && !Effect(L, S0, Truth(s.regs[ZERO] == 0), s, t)
    ensures !SeqzWorks(FlatLayout(file), S0)
  {
    hide LutFile, FlatLayout, Start, LayoutOK, RomOK, SeqzCode, Run, StackOK, Sim, Rest, Effect, EndsClear;
    StartOK(file, 5);
    L, s := FlatLayout(file), Start(FlatLayout(file), 5);
    StartRegs(L, 5);
    var g;
    t, g := SeqzRuns(L, S0, ZERO, s);
    var u := SeqzExactly(L, S0, ZERO, s);
    assert SltzInput(L, ZERO, s) && !SeqzRight(L, S0, ZERO, s);
  }

  /** The words below 0 and 1 are zero in the start state. */
  lemma EndsZero(file: seq<int>)
    requires LutFile(file)
    ensures (var L, s := FlatLayout(file), Start(FlatLayout(file), 5);
             WellTyped(s) && CheckApart(L, s) && EndsClear(L, s) && !Pops(s.mem, 1, 1, 5))
  {
    hide LutFile, FlatLayout, Start, LayoutOK, RomOK, StackOK, Sim, Join;
    var L, s := FlatLayout(file), Start(FlatLayout(file), 5);
    StartOK(file, 5);
    StartRegs(L, 5);
    StackApart(L, {}, s, s);
    FileLength(file);
    CheckAddress(file);
    forall a | W - 8 <= a < W
      ensures s.mem[a] == 0 && Clear(L, s, a)
    {
      ZeroAbove(file, 5, a);
    }
    LowBytes(s.mem, LoadWord(s.mem, W - 3));
  }

  /** A word whose three low bytes are zero is not 5. */
  lemma LowBytes(m: seq<int>, w: Word)
    requires w.b0 == w.b1 == w.b2 == 0
    ensures Join(w) != 5
  {
  }

  /** seqz sp, x0 with 5 in s0: sp becomes 1, and s0 comes from the zero word below. */
  lemma SeqzIntoSpFails(file: seq<int>)
    requires LutFile(file)
    ensures !SeqzWorks(FlatLayout(file), SP)
  {
    hide LutFile, FlatLayout, Start, LayoutOK, RomOK, SeqzCode, Run, StackOK, Sim, Pops, EndsClear, Effect;
    var L, s := FlatLayout(file), Start(FlatLayout(file), 5);
    StartOK(file, 5);
    StartRegs(L, 5);
    EndsZero(file);
    var t := SeqzExactly(L, SP, ZERO, s);
    assert SltzInput(L, ZERO, s) && !SeqzRight(L, SP, ZERO, s);
  }

  /** seq rd, x0, x0 into s0 holding 5, into s1 holding 0, and into sp. */
  lemma SeqFails(file: seq<int>, rd: Reg)
    requires LutFile(file) && (rd == S0 || rd == S1 || rd == SP)
    ensures !SeqWorks(FlatLayout(file), rd)
  {
    hide LutFile, FlatLayout, Start, LayoutOK, RomOK, SeqCode, Run, StackOK, Sim, Pops, EndsClear, Effect, CheckApart;
    var L, s := FlatLayout(file), Start(FlatLayout(file), 5);
    StartOK(file, 5);
    StartRegs(L, 5);
    EndsZero(file);
    var t := SeqExactly(L, rd, ZERO, ZERO, s);
    assert SeqInput(L, ZERO, ZERO, s) && !SeqRight(L, rd, ZERO, ZERO, s);
  }

  /** Far above the tables and the stack the memory is zero. */
  lemma ZeroAbove(file: seq<int>, x: int, a: int)
    requires LutFile(file) && 0 <= x < W && STACK <= a < W
    ensures Start(FlatLayout(file), x).mem[a] == 0 && Clear(FlatLayout(file), Start(FlatLayout(file), x), a)
  {
    hide LutFile, FlatLayout;
    StartOK(file, x);
    CheckAddress(file);
    if a in FlatLayout(file).rom {
      RomBytes(file, a);
      assert false;
    }
  }

  /** sltz sp, s0 with 0x100_0000 in s0 stores 2 at 2^32 - 22. */
  lemma SltzIntoSpFails(file: seq<int>)
    requires LutFile(file)
    ensures !SltzWorks(FlatLayout(file), SP)
  {
    hide LutFile, FlatLayout, LayoutOK, RomOK, Run, Msb, StackOK, Sim, Rest, Effect, MsbMemory, Start;
    var L, x := FlatLayout(file), 0x100_0000;
    var s := Start(L, x);
    StartOK(file, x);
    StartRegs(L, x);
    var t := SltzExactly(L, SP, S0, s);
    ZeroAbove(file, x, W - 22);
    StrayTwo(s.mem);
    assert MsbMemory(s.mem, STACK, x)[W - 22] != s.mem[W - 22];
    assert SltzInput(L, S0, s) && !SltzRight(L, SP, S0, s);
  }

  lemma StartRegs(L: Layout, x: int)
    requires 0 <= x < W
    ensures WellTyped(Start(L, x)) && Start(L, x).regs[SP] == STACK && Start(L, x).regs[S0] == x
    ensures Start(L, x).regs[ZERO] == 0 == Start(L, x).regs[S1]
  {
  }

  lemma StrayTwo(m: seq<int>)
    requires |m| == W
    ensures MsbMemory(m, STACK, 0x100_0000)[W - 22] == 2
  {
    hide StoreWord;
    var m1 := StoreWord(m, Addr(STACK, -24), Split(0x100_0000));
    StoreLength(m, Addr(STACK, -24), Split(0x100_0000));
    assert Split(0x100_0000).b3 == 1 && Split(2) == Word(2, 0, 0, 0) && Addr(2, -24) == W - 22;
    StoredBytes(m1, W - 22, Split(2));
  }

  lemma StoreLength(m: seq<int>, a: int, w: Word)
    requires |m| == W
    ensures |StoreWord(m, a, w)| == W
  {
  }

  lemma StoredBytes(m: seq<int>, a: int, w: Word)
    requires |m| == W && 0 <= a && a + 3 < W
    ensures (var r := StoreWord(m, a, w);
             && |r| == W && r[a] == w.b0 && r[a + 1] == w.b1 && r[a + 2] == w.b2 && r[a + 3] == w.b3
             && forall x | 0 <= x < W && !(a <= x <= a + 3) :: r[x] == m[x])
  {
  }

  /** lb sp, 0(s0) with s0 pointing at a byte 1 stores it at 2^32 - 12. */
  lemma LbIntoSpFails(file: seq<int>)
    requires LutFile(file)
    ensures !LbWorks(FlatLayout(file), SP)
  {
    hide LutFile, FlatLayout, LayoutOK, RomOK, Run, LbCode, StackOK, Sim, Rest, Quiet, LbMemory, Start, SignExtend8;
    var L, x := FlatLayout(file), FILE_SIZE;
    var s := Start(L, x);
    StartOK(file, x);
    StartRegs(L, x);
    OneAtSame(file, x);
    RoomOf(L, s);
    var t := LbExactly(L, 0, S0, s);
    ZeroAbove(file, x, W - 12);
    ZeroAbove(file, x, W - 13);
    ZeroAbove(file, x, W - 14);
    ZeroAbove(file, x, W - 15);
    StrayOne(s.mem);
    assert t.mem[W - 12] != s.mem[W - 12];
    assert LbInput(L, 0, S0, s) && !LbRight(L, SP, 0, S0, s);
  }

  lemma OneAtSame(file: seq<int>, x: int)
    requires LutFile(file) && 0 <= x < W
    ensures (var L, s := FlatLayout(file), Start(FlatLayout(file), x);
             Addr(FILE_SIZE, 0) == FILE_SIZE && s.mem[FILE_SIZE] == 1 && WellTyped(s) && Clear(L, s, FILE_SIZE))
  {
    hide LutFile;
    FileLength(file);
    CheckAddress(file);
    StartRegs(FlatLayout(file), x);
    assert (file + Tail())[FILE_SIZE] == 1;
  }

  lemma StrayOne(m: seq<int>)
    requires |m| == W && m[W - 15] == m[W - 14] == m[W - 13] == m[W - 12] == 0
    ensures LbMemory(m, STACK, 1)[W - 12] == 1
  {
    hide StoreWord;
    StoredBytes(m, STACK - 16, Split(0));
    var m1 := StoreWord(m, Addr(STACK, -16), Split(0));
    var m2 := m1[Addr(1, -13) := 1];
    assert Addr(1, -13) == W - 12 && Addr(1, -16) == W - 15 && Addr(STACK, -16) == STACK - 16;
    assert LoadWord(m2, W - 15) == Word(0, 0, 0, 1);
    assert Join(Word(0, 0, 0, 1)) == 0x100_0000 && Addr(0x100_0000, -16) == 0x100_0000 - 16;
    StoredBytes(m2, 0x100_0000 - 16, Split(0x100_0000));
  }

  /** The destinations that suit each macro (tp and gp aside, which compiled code leaves alone). */
  lemma DestinationsExactly(file: seq<int>, rd: Reg)
    requires LutFile(file) && Free(rd)
    ensures LbWorks(FlatLayout(file), rd) <==> rd != SP
    ensures SltzWorks(FlatLayout(file), rd) <==> rd != SP
    ensures SeqzWorks(FlatLayout(file), rd) <==> rd != SP && rd != S0
    ensures SeqWorks(FlatLayout(file), rd) <==> rd != SP && rd != S0 && rd != S1
  {
    hide LbWorks, SltzWorks, SeqzWorks, SeqWorks, LutFile, FlatLayout;
    if rd == SP {
      LbIntoSpFails(file);
      SltzIntoSpFails(file);
      SeqzIntoSpFails(file);
    } else {
      LbSuits(FlatLayout(file), rd);
      SltzSuits(FlatLayout(file), rd);
      if rd == S0 {
        var L, s, t := SeqzIntoS0Fails(file);
      } else {
        SeqzSuits(FlatLayout(file), rd);
      }
    }
    if rd == S0 || rd == S1 || rd == SP {
      SeqFails(file, rd);
    } else {
      SeqSuits(FlatLayout(file), rd);
    }
  }
}
