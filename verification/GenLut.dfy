/** The table generator (gen-lut.c), and the tables in the places where the macros look. */
module GenLut {
  import opened Bits
  import opened Machine
  import opened MiniRv
  import opened Tables
  import opened ShiftArith
  import opened MacroLogic
  import opened MacroShift

  datatype Table = AND8 | OR8 | XOR8 | SLL8 | SRL8 | SRA8

  function Rows(t: Table): nat {
    if t.AND8? || t.OR8? || t.XOR8? then 256 else 32
  }

  function EntrySize(t: Table): nat {
    if t.AND8? || t.OR8? || t.XOR8? then 1 else 4
  }

  /** The expressions of gen-lut.c:19-24; the last three are 32-bit, the very last one an arithmetic shift. */
  function Expr(t: Table, j: nat, i: nat): int {
    match t
    case AND8 => And(j, i)
    case OR8 => Or(j, i)
    case XOR8 => Xor(j, i)
    case SLL8 => Shl32(i, j)
    case SRL8 => Shr((i * 0x100_0000) % W, j)
    case SRA8 => Sar32((i * 0x100_0000) % W, j)
  }

  /** Where a table starts in the file: the macros compute the same offsets (inst-replace.h:73-78). */
  function Offset(t: Table): nat {
    match t
    case AND8 => 0
    case OR8 => 0x1_0000
    case XOR8 => 0x2_0000
    case SLL8 => 0x3_0000
    case SRL8 => 0x3_8000
    case SRA8 => 0x4_0000
  }

  const FILE_SIZE := 0x4_8000

  /** fwrite of the low entry_size bytes of res, on a little-endian host. */
  function Written(size: nat, res: int): seq<int> {
    var w := Split(res);
    if size == 1 then [w.b0] else [w.b0, w.b1, w.b2, w.b3]
  }

  /** Entry (j, i) stands in the file where row-major order puts it. */
  ghost predicate EntryIn(file: seq<int>, base: nat, t: Table, j: nat, i: nat) {
    var at, size := base + EntrySize(t) * (256 * j + i), EntrySize(t);
    at + size <= |file| && file[at..at + size] == Written(size, Expr(t, j, i))
  }

  ghost predicate RowIn(file: seq<int>, base: nat, t: Table, j: nat) {
    forall i | 0 <= i < 256 :: EntryIn(file, base, t, j, i)
  }

  ghost predicate TableIn(file: seq<int>, base: nat, t: Table) {
    forall j | 0 <= j < Rows(t) :: RowIn(file, base, t, j)
  }

  lemma EntryStays(file: seq<int>, more: seq<int>, base: nat, t: Table, j: nat, i: nat)
    requires EntryIn(file, base, t, j, i)
    ensures EntryIn(file + more, base, t, j, i)
  {
    hide Expr, Written;
    var at, size := base + EntrySize(t) * (256 * j + i), EntrySize(t);
    assert (file + more)[at..at + size] == file[at..at + size];
  }

  lemma EntryAppended(file: seq<int>, base: nat, t: Table, j: nat, i: nat)
    requires |file| == base + EntrySize(t) * (256 * j + i)
    ensures EntryIn(file + Written(EntrySize(t), Expr(t, j, i)), base, t, j, i)
    ensures |Written(EntrySize(t), Expr(t, j, i))| == EntrySize(t)
  {
    hide Expr;
    var e := Written(EntrySize(t), Expr(t, j, i));
    assert (file + e)[|file|..|file| + |e|] == e;
  }

  lemma TableStays(file: seq<int>, more: seq<int>, base: nat, t: Table)
    requires TableIn(file, base, t)
    ensures TableIn(file + more, base, t)
  {
    hide EntryIn;
    forall j | 0 <= j < Rows(t)
      ensures RowIn(file + more, base, t, j)
    {
      assert RowIn(file, base, t, j);
      forall i | 0 <= i < 256
        ensures EntryIn(file + more, base, t, j, i)
      {
        EntryStays(file, more, base, t, j, i);
      }
    }
  }

  lemma RowsStay(file: seq<int>, more: seq<int>, base: nat, t: Table, j: nat, i: nat)
    requires forall j' | 0 <= j' < j :: RowIn(file, base, t, j')
    requires forall i' | 0 <= i' < i :: EntryIn(file, base, t, j, i')
    ensures forall j' | 0 <= j' < j :: RowIn(file + more, base, t, j')
    ensures forall i' | 0 <= i' < i :: EntryIn(file + more, base, t, j, i')
  {
    hide EntryIn;
    forall j', i' | 0 <= j' < j && 0 <= i' < 256
      ensures EntryIn(file + more, base, t, j', i')
    {
      assert RowIn(file, base, t, j');
      EntryStays(file, more, base, t, j', i');
    }
    forall i' | 0 <= i' < i
      ensures EntryIn(file + more, base, t, j, i')
    {
      EntryStays(file, more, base, t, j, i');
    }
  }

  /** gen-lut.c:10-17: one table appended, entry by entry. */
  method GenTable(t: Table, fp: seq<int>) returns (file: seq<int>)
    ensures |file| == |fp| + EntrySize(t) * 256 * Rows(t) && fp <= file && TableIn(file, |fp|, t)
  {
    file := fp;
    ghost var base := |fp|;
    var j := 0;
    while j < Rows(t)
      invariant 0 <= j <= Rows(t) && |file| == base + EntrySize(t) * (256 * j) && fp <= file
      invariant forall j' | 0 <= j' < j :: RowIn(file, base, t, j')
    {
      var i := 0;
      while i < 256
        invariant 0 <= i <= 256 && |file| == base + EntrySize(t) * (256 * j + i) && fp <= file
        invariant forall j' | 0 <= j' < j :: RowIn(file, base, t, j')
        invariant forall i' | 0 <= i' < i :: EntryIn(file, base, t, j, i')
      {
        var res := Expr(t, j, i);
        EntryAppended(file, base, t, j, i);
        RowsStay(file, Written(EntrySize(t), res), base, t, j, i);
        file := file + Written(EntrySize(t), res);
        i := i + 1;
      }
      j := j + 1;
    }
  }

  /** The finished file. */
  ghost predicate LutFile(file: seq<int>) {
    |file| == FILE_SIZE && forall t: Table :: TableIn(file, Offset(t), t)
  }

  /** gen-lut.c:6-29 */
  method Generate() returns (file: seq<int>)
    ensures LutFile(file)
  {
    hide TableIn;
    var f1 := GenTable(AND8, []);
    var f2 := GenTable(OR8, f1);
    var f3 := GenTable(XOR8, f2);
    var f4 := GenTable(SLL8, f3);
    var f5 := GenTable(SRL8, f4);
    file := GenTable(SRA8, f5);
    PrefixTable(f1, file, 0, AND8);
    PrefixTable(f2, file, |f1|, OR8);
    PrefixTable(f3, file, |f2|, XOR8);
    PrefixTable(f4, file, |f3|, SLL8);
    PrefixTable(f5, file, |f4|, SRL8);
  }

  lemma PrefixTable(f: seq<int>, file: seq<int>, base: nat, t: Table)
    requires f <= file && TableIn(f, base, t)
    ensures TableIn(file, base, t)
  {
    TableStays(f, file[|f|..], base, t);
    assert file == f + file[|f|..];
  }

  // ---------------------------------------------------------------- the file in memory

  lemma LutByte(L: Layout, file: seq<int>, t: Table, j: nat, i: nat)
    requires LutFile(file) && BytesAt(L.rom, L.lut, file) && j < Rows(t) && i < 256
    ensures EntryIn(file, Offset(t), t, j, i)
    ensures forall k | 0 <= k < EntrySize(t) ::
              ByteAt(L.rom, L.lut + (Offset(t) + EntrySize(t) * (256 * j + i) + k),
                     Written(EntrySize(t), Expr(t, j, i))[k])
  {
    hide Expr;
    assert TableIn(file, Offset(t), t) && RowIn(file, Offset(t), t, j) && EntryIn(file, Offset(t), t, j, i);
    var at, size := Offset(t) + EntrySize(t) * (256 * j + i), EntrySize(t);
    forall k | 0 <= k < size
      ensures ByteAt(L.rom, L.lut + (at + k), Written(size, Expr(t, j, i))[k])
    {
      assert ByteAt(L.rom, L.lut + (at + k), file[at + k]);
      assert file[at..at + size][k] == file[at + k];
    }
  }

  lemma ByteEntry(L: Layout, file: seq<int>, op: Logic, j: nat, i: nat)
    requires LutFile(file) && BytesAt(L.rom, L.lut, file) && j < 256 && i < 256
    ensures ByteAt(L.rom, LogicTable(L, op) + 256 * j + i, BitOp(op, j, i))
  {
    hide LutFile, BytesAt, ByteAt, Expr, Written, BitOp;
    var t := LogicFile(op);
    LutByte(L, file, t, j, i);
    ByteWritten(op, j, i);
    assert ByteAt(L.rom, L.lut + (Offset(t) + EntrySize(t) * (256 * j + i) + 0),
                  Written(EntrySize(t), Expr(t, j, i))[0]);
  }

  function LogicFile(op: Logic): Table {
    match op
    case AND => AND8
    case OR => OR8
    case XOR => XOR8
  }

  lemma ByteWritten(op: Logic, j: nat, i: nat)
    requires j < 256 && i < 256
    ensures Written(1, Expr(LogicFile(op), j, i)) == [BitOp(op, j, i)]
  {
    hide And, Or, Xor, Pow2;
    Powers();
    BitSplit(op, j, i, 8, 256);
    MulDivMod(j, 256, 0, j);
    MulDivMod(i, 256, 0, i);
  }

  lemma WordEntry(L: Layout, file: seq<int>, kind: Shift, j: nat, i: nat)
    requires LutFile(file) && BytesAt(L.rom, L.lut, file) && j < 32 && i < 256
    ensures WordAt(L.rom, ShiftTable(L, kind) + 4 * (256 * j + i), Entry(kind, i, j))
  {
    hide LutFile, BytesAt, ByteAt, Split, Shl32, Shr, Sar32;
    var t := match kind case SLL => SLL8 case SRL => SRL8 case SRA => SRA8;
    LutByte(L, file, t, j, i);
    var e := Written(4, Expr(t, j, i));
    var a := ShiftTable(L, kind) + 4 * (256 * j + i);
    assert ByteAt(L.rom, a + 0, e[0]) && ByteAt(L.rom, a + 1, e[1]) && ByteAt(L.rom, a + 2, e[2])
        && ByteAt(L.rom, a + 3, e[3]);
  }

  /** The generated file, placed where the macros expect it, holds what they look up. */
  lemma LutServes(L: Layout, file: seq<int>)
    requires LutFile(file) && BytesAt(L.rom, L.lut, file)
    ensures forall j, i | 0 <= j < 256 && 0 <= i < 256 :: LogicEntry(L, j, i)
    ensures forall j, i | 0 <= j < 32 && 0 <= i < 256 :: ShiftEntry(L, j, i)
  {
    hide LutFile, BytesAt, ByteAt, WordAt;
    forall j, i | 0 <= j < 256 && 0 <= i < 256
      ensures LogicEntry(L, j, i)
    {
      ByteEntry(L, file, AND, j, i);
      ByteEntry(L, file, OR, j, i);
      ByteEntry(L, file, XOR, j, i);
    }
    forall j, i | 0 <= j < 32 && 0 <= i < 256
      ensures ShiftEntry(L, j, i)
    {
      WordEntry(L, file, SLL, j, i);
      WordEntry(L, file, SRL, j, i);
      WordEntry(L, file, SRA, j, i);
    }
  }

  // ---------------------------------------------------------------- a layout that works

  /** The tables of inst-replace.h:41-71 behind the generated file. */
  function Tail(): seq<int> {
    [1, 0, 0, 0, 0, 0, 0, 0] + ([0] + seq(255, _ => 1)) + [0, 1, 0, 0, 1, 1, 0, 1] + [0, 1, 1, 1, 0, 0, 0, 1]
        + [0, 1, 1, 1]
  }

  function RomOf(bytes: seq<int>): map<int, int> {
    map a | 0 <= a < |bytes| :: bytes[a]
  }

  /** Everything in the ROM at address 0, the compare array behind it. */
  function FlatLayout(file: seq<int>): Layout {
    var n := |file|;
    Layout(RomOf(file + Tail()), n, n + 8, n + 264, n + 272, n + 280, 0, n + 284)
  }

  lemma PartAt(bytes: seq<int>, base: nat, part: seq<int>)
    requires base + |part| <= |bytes| && bytes[base..base + |part|] == part
    ensures BytesAt(RomOf(bytes), base, part)
  {
    forall i | 0 <= i < |part|
      ensures ByteAt(RomOf(bytes), base + i, part[i])
    {
      assert bytes[base..base + |part|][i] == bytes[base + i];
    }
  }

  lemma TailParts(file: seq<int>)
    ensures (var n, b := |file|, file + Tail();
             && |b| == n + 284 && b[0..n] == file && b[n..n + 8] == [1, 0, 0, 0, 0, 0, 0, 0]
             && b[n + 8..n + 264] == [0] + seq(255, _ => 1)
             && b[n + 264..n + 272] == [0, 1, 0, 0, 1, 1, 0, 1] && b[n + 272..n + 280] == [0, 1, 1, 1, 0, 0, 0, 1]
             && b[n + 280..n + 284] == [0, 1, 1, 1])
  {
  }

  /** The layout the macros ask for exists: this one, with any file the generator writes. */
  lemma FlatLayoutOK(file: seq<int>)
    requires LutFile(file)
    ensures LayoutOK(FlatLayout(file))
  {
    hide LutFile, LogicEntry, ShiftEntry, ByteAt, Tail;
    var L, n, b := FlatLayout(file), |file|, file + Tail();
    FileLength(file);
    TailParts(file);
    PartAt(b, 0, file);
    PartAt(b, n, [1, 0, 0, 0, 0, 0, 0, 0]);
    var zeros := [0] + seq(255, _ => 1);
    PartAt(b, n + 8, zeros);
    PartAt(b, n + 264, [0, 1, 0, 0, 1, 1, 0, 1]);
    PartAt(b, n + 272, [0, 1, 1, 1, 0, 0, 0, 1]);
    PartAt(b, n + 280, [0, 1, 1, 1]);
    LutServes(L, file);
    forall i | 0 <= i < 256
      ensures ZeroEntry(L, i)
    {
      assert ByteAt(L.rom, L.zero8 + i, zeros[i]);
    }
  }

  lemma FileLength(file: seq<int>)
    requires LutFile(file)
    ensures |file| == FILE_SIZE
  {
  }
}
