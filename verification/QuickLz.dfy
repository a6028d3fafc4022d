/** qlz_compress and its headers: sizes read back, output bounded, and the source recoverable (lzip/quicklz.c). */
module QuickLz {
  import opened Bits
  import opened Options
  import opened QlzTokens
  import opened QlzFormat
  import opened QlzGreedy
  import opened QlzTable
  import opened QlzCompress

  // ---------------------------------------------------------------- the header

  /** Bit 1 of the first byte tells one-byte from four-byte sizes (quicklz.c:122-145). */
  function SizeBytes(first: nat): nat {
    if And(first, 2) == 2 then 4 else 1
  }

  function HeaderSize(b: seq<int>): nat
    requires b != [] && b[0] >= 0
  {
    2 * SizeBytes(b[0]) + 1
  }

  function SizeCompressed(b: seq<int>): int
    requires b != [] && b[0] >= 0 && HeaderSize(b) <= |b|
  {
    Number(b[1..1 + SizeBytes(b[0])])
  }

  function SizeDecompressed(b: seq<int>): int
    requires b != [] && b[0] >= 0 && HeaderSize(b) <= |b|
  {
    Number(b[1 + SizeBytes(b[0])..1 + 2 * SizeBytes(b[0])])
  }

  /** quicklz.c:699-714 with level 2 and no streaming: 01SSLLHC. */
  function FirstByte(base: nat, compressed: nat): nat {
    Or(Or(Or(if base == 3 then 0 else 2, compressed), 2 * 4), 64)
  }

  lemma FirstBytes()
    ensures FirstByte(3, 0) == 72 && FirstByte(3, 1) == 73 && FirstByte(9, 0) == 74 && FirstByte(9, 1) == 75
    ensures SizeBytes(72) == 1 && SizeBytes(73) == 1 && SizeBytes(74) == 4 && SizeBytes(75) == 4
  {
    hide Or, And;
    LowestFlags();
    LevelFlags();
    TopFlags();
    SizeFlags();
  }

  lemma LowestFlags()
    ensures Or(0, 0) == 0 && Or(0, 1) == 1 && Or(2, 0) == 2 && Or(2, 1) == 3
  {
  }

  lemma LevelFlags()
    ensures Or(0, 8) == 8 && Or(1, 8) == 9 && Or(2, 8) == 10 && Or(3, 8) == 11
  {
  }

  lemma TopFlags()
    ensures Or(8, 64) == 72 && Or(9, 64) == 73 && Or(10, 64) == 74 && Or(11, 64) == 75
  {
    hide Or;
    TopFlag(8);
    TopFlag(9);
    TopFlag(10);
    TopFlag(11);
  }

  lemma TopFlag(flags: nat)
    requires flags < 16
    ensures Or(flags, 64) == flags + 64
  {
    hide Or;
    assert Pow2(4) == 16;
    OrCommutes(flags, 64);
    OrDisjoint(64, flags, 4, 16);
  }

  lemma SizeFlags()
    ensures And(72, 2) == 0 && And(73, 2) == 0 && And(74, 2) == 2 && And(75, 2) == 2
  {
  }

  // ---------------------------------------------------------------- a reference decoder

  /** Reads the header, then the tokens or the raw bytes (quicklz.c:485-597, 722-739; copying byte by byte). */
  function Decode(b: seq<int>): Option<seq<int>> {
    if b == [] || b[0] < 0 || HeaderSize(b) > |b| || SizeDecompressed(b) < 0 then None
    else
      var body, size := b[HeaderSize(b)..], SizeDecompressed(b);
      if b[0] % 2 == 1 then
        match Parse(body, 0, 1, size)
        case None => None
        case Some(ts) => Rebuild(ts)
      else if size <= |body| then Some(body[..size])
      else None
  }

  /** What qlz_compress has written in front: flags, the compressed size and the original size. */
  ghost predicate HeaderIs(b: seq<int>, base: nat, compressed: nat, r: nat, size: nat) {
    var n := if base == 3 then 1 else 4;
    && (base == 3 || base == 9) && compressed <= 1 && base <= |b|
    && b[..base] == [FirstByte(base, compressed)] + Bytes(r, n) + Bytes(size, n)
  }

  lemma HeaderReads(b: seq<int>, base: nat, compressed: nat, r: nat, size: nat)
    requires HeaderIs(b, base, compressed, r, size) && r < Pow2(if base == 3 then 8 else 32)
    requires size < Pow2(if base == 3 then 8 else 32)
    ensures b != [] && b[0] >= 0 && HeaderSize(b) == base && b[0] % 2 == compressed
    ensures SizeCompressed(b) == r && SizeDecompressed(b) == size
  {
    hide Bytes, Number, FirstByte, SizeBytes, Pow2;
    FirstBytes();
    var n := if base == 3 then 1 else 4;
    var h := [FirstByte(base, compressed)] + Bytes(r, n) + Bytes(size, n);
    assert b[0] == b[..base][0] == h[0];
    assert b[1..1 + n] == h[1..1 + n] == Bytes(r, n);
    assert b[1 + n..1 + 2 * n] == h[1 + n..1 + 2 * n] == Bytes(size, n);
    NumberBytes(r, n);
    NumberBytes(size, n);
  }

  lemma DecodesStream(x: seq<int>, b: seq<int>, base: nat, r: nat, ts: seq<Token>)
    requires HeaderIs(b, base, 1, r, |x|) && r < Pow2(if base == 3 then 8 else 32)
    requires |x| < Pow2(if base == 3 then 8 else 32)
    requires IsBytes(x) && Describes(x, ts) && Total(ts) == |x| && AllEncodable(ts) && ts != []
    requires Stream(ts) <= b[base..]
    ensures Decode(b) == Some(x)
  {
    hide Bytes, Number, FirstByte, SizeBytes, Pow2, Parse, Stream, HeaderIs, Describes, Total, Rebuild,
         SizeDecompressed, SizeCompressed, HeaderSize;
    HeaderReads(b, base, 1, r, |x|);
    HeaderFits(b, base, 1, r, |x|);
    StreamReadsBack(b[base..], ts);
    Rebuilds(x, ts);
    assert x[..|x|] == x;
  }

  lemma HeaderFits(b: seq<int>, base: nat, compressed: nat, r: nat, size: nat)
    requires HeaderIs(b, base, compressed, r, size)
    ensures base <= |b|
  {
  }

  lemma DecodesRaw(x: seq<int>, b: seq<int>, base: nat, r: nat)
    requires HeaderIs(b, base, 0, r, |x|) && r < Pow2(if base == 3 then 8 else 32)
    requires |x| < Pow2(if base == 3 then 8 else 32)
    requires x <= b[base..]
    ensures Decode(b) == Some(x)
  {
    hide Bytes, Number, FirstByte, SizeBytes, Pow2, HeaderIs, SizeDecompressed, SizeCompressed, HeaderSize;
    HeaderReads(b, base, 0, r, |x|);
    HeaderFits(b, base, 0, r, |x|);
    assert b[base..][..|x|] == x;
  }

  // ---------------------------------------------------------------- qlz_compress

  /**
   * A header of 3 or 9 bytes, then the data itself if it is incompressible, or else the stream of its greedy tokens.
   */
  ghost predicate Packed(x: seq<int>, b: seq<int>, r: nat)
    requires IsBytes(x)
  {
    var base := if |x| < 216 then 3 else 9;
    if Incompressible(x) then r == base + |x| && HeaderIs(b, base, 0, r, |x|) && b[base..] == x
    else exists ts :: CarriesTokens(x, b, base, r, ts)
  }

  ghost predicate CarriesTokens(x: seq<int>, b: seq<int>, base: nat, r: nat, ts: seq<Token>)
    requires IsBytes(x)
  {
    && Greedy(x, ts) && Total(ts) == |x| && HeaderIs(b, base, 1, r, |x|) && Stream(ts) <= b[base..]
    && r == base + if |Stream(ts)| < 9 then 9 else |Stream(ts)|
  }

  /** quicklz.c:642-720, for level 2 without a streaming buffer. */
  method Compress(x: seq<int>, destination: array<int>, table: Table) returns (r: nat)
    requires IsBytes(x) && table.Shape() && destination != table.counter && |x| + 400 <= destination.Length
    modifies destination, table.offset, table.counter
    ensures x == [] || |x| > 0xffff_ffff - 400 <==> r == 0
    ensures r <= |x| + 400 && (|x| < 216 ==> r <= 255)
    ensures r > 0 ==> r <= destination.Length && Packed(x, destination[..r], r) && Decodes(x, destination[..r], r)
  {
    hide Bytes, Compressed, Decode, FirstByte, Incompressible;
    if x == [] || |x| > 0xffff_ffff - 400 {
      return 0;
    }
    var base := if |x| < 216 then 3 else 9;
    table.Reset(x);
    ghost var ts: seq<Token>;
    r, ts := CompressCore(x, destination, base, table);
    var compressed := 1;
    ghost var body := destination[..];
    if r == 0 {
      CopyRaw(x, destination, base);
      body := destination[..];
      r := |x| + base;
      compressed := 0;
    } else {
      CompressedSize(x, destination[..], base, r, ts);
      r := base + r;
    }
    WriteHeader(destination, base, compressed, r, |x|);
    SizesFit(base, r, |x|);
    if compressed == 1 {
      StreamKept(x, body, destination[..], base, r, ts);
      DecodesStream(x, destination[..r], base, r, ts);
      assert CarriesTokens(x, destination[..r], base, r, ts);
    } else {
      RawKept(x, body, destination[..], base);
      DecodesRaw(x, destination[..r], base, r);
    }
    HeaderReads(destination[..r], base, compressed, r, |x|);
  }

  /** The sizes in the header are right, and decoding gives the source back. */
  ghost predicate Decodes(x: seq<int>, b: seq<int>, r: nat) {
    && b != [] && b[0] >= 0 && HeaderSize(b) <= |b|
    && SizeCompressed(b) == r && SizeDecompressed(b) == |x| && Decode(b) == Some(x)
  }

  lemma CompressedSize(x: seq<int>, D: seq<int>, base: nat, r: nat, ts: seq<Token>)
    requires Compressed(x, D, base, r, ts)
    ensures 9 <= r <= |x| + 391 && (|x| < 216 ==> r <= 252)
  {
  }

  lemma SizesFit(base: nat, r: nat, size: nat)
    requires base == (if size < 216 then 3 else 9) && size <= 0xffff_ffff - 400 && r <= size + 400
    requires (size < 216 ==> r <= 255)
    ensures r < Pow2(if base == 3 then 8 else 32) && size < Pow2(if base == 3 then 8 else 32)
  {
    Pow2Values();
  }

  lemma StreamKept(x: seq<int>, D: seq<int>, D': seq<int>, base: nat, r: nat, ts: seq<Token>)
    requires base <= r <= |D| == |D'| && Compressed(x, D, base, r - base, ts) && D'[base..] == D[base..]
    ensures IsBytes(x) && Describes(x, ts) && Total(ts) == |x| && AllEncodable(ts) && ts != []
    ensures Greedy(x, ts) && Stream(ts) <= D'[..r][base..]
    ensures r == base + if |Stream(ts)| < 9 then 9 else |Stream(ts)|
  {
    hide Stream, Describes, Total, Greedy;
    var n := |Stream(ts)|;
    assert D'[..r][base..][..n] == D[base..][..n] == D[base..base + n];
  }

  lemma RawKept(x: seq<int>, D: seq<int>, D': seq<int>, base: nat)
    requires base + |x| <= |D| == |D'| && D[base..base + |x|] == x && D'[base..] == D[base..]
    ensures D'[..base + |x|][base..] == x
  {
    assert D'[..base + |x|][base..] == D'[base..][..|x|];
    assert D[base..][..|x|] == D[base..base + |x|];
  }

  method CopyRaw(x: seq<int>, dst: array<int>, base: nat)
    requires base + |x| <= dst.Length
    modifies dst
    ensures dst[..base] == old(dst[..base]) && dst[base..base + |x|] == x
  {
    var i := 0;
    while i < |x|
      invariant 0 <= i <= |x| && dst[..base] == old(dst[..base]) && dst[base..base + i] == x[..i]
    {
      dst[base + i] := x[i];
      i := i + 1;
    }
  }

  /** quicklz.c:699-714 */
  method WriteHeader(dst: array<int>, base: nat, compressed: nat, r: nat, size: nat)
    requires (base == 3 || base == 9) && compressed <= 1 && base <= dst.Length
    requires base == 3 ==> r <= 255 && size <= 255
    modifies dst
    ensures dst[base..] == old(dst[base..]) && HeaderIs(dst[..], base, compressed, r, size)
  {
    hide Bytes, Or;
    OneByte(r);
    OneByte(size);
    if base == 3 {
      dst[0], dst[1], dst[2] := Or(0, compressed), r % 256, size % 256;
    } else {
      dst[0] := Or(2, compressed);
      FastWrite(r, dst, 1, 4);
      FastWrite(size, dst, 5, 4);
    }
    dst[0] := Or(dst[0], 2 * 4);
    dst[0] := Or(dst[0], 64);
  }

  lemma OneByte(f: nat)
    ensures Bytes(f, 1) == [f % 256]
  {
  }
}
