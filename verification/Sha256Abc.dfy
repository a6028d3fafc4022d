/** The digest of the message "abc", round by round. */
module Sha256Abc {
  import opened Sha256
  import opened Sha256Spec

  const ABC: seq<Byte> := [Byte(0x61), Byte(0x62), Byte(0x63)]

  /** The one block of the padded message. */
  ghost predicate AbcBlock(b: seq<Byte>) {
    && |b| == 64 && b[0] == Byte(0x61) && b[1] == Byte(0x62) && b[2] == Byte(0x63) && b[3] == Byte(0x80)
    && (forall j | 4 <= j < 63 :: b[j] == Byte(0)) && b[63] == Byte(24)
  }

  lemma AbcPadded()
    ensures AbcBlock(CodePadded(ABC)) && CodePadded(ABC) == Padded(ABC)
  {
    hide LengthField, ByteOf;
    PaddingExact(ABC);
    SmallField();
  }

  lemma SmallField()
    ensures LengthField(24) == [Byte(0), Byte(0), Byte(0), Byte(24)]
  {
    hide ByteOf;
    assert 24 / 0x100 == 0 && 24 / 0x1_0000 == 0 && 24 / 0x100_0000 == 0;
    ByteZero(0);
    assert ByteOf(24) == Byte(24) by {
      Byte24();
    }
  }

  lemma Byte24()
    ensures ByteOf(24) == Byte(24)
  {
    hide BitIf;
    assert 24 % 256 == 24 && 24 / 2 % 2 == 0 && 24 / 4 % 2 == 0 && 24 / 8 % 2 == 1 && 24 / 16 % 2 == 1;
    assert 24 / 32 % 2 == 0 && 24 / 64 % 2 == 0 && 24 / 128 % 2 == 0;
    Bits24();
  }

  lemma Bits24()
    ensures BitIf(false, 1) | BitIf(false, 2) | BitIf(false, 4) | BitIf(true, 8) | BitIf(true, 16) | BitIf(false, 32)
            | BitIf(false, 64) | BitIf(false, 128) == 24
  {
  }

  // ---------------------------------------------------------------- the message schedule

  ghost predicate Scheduled(b: seq<Byte>, t: nat, w: bv32) {
    |b| == 64 && t < 64 && Schedule(b, t) == Word(w)
  }

  lemma Given(b: seq<Byte>, t: nat)
    requires AbcBlock(b) && t < 16
    ensures Scheduled(b, t, if t == 0 then 0x61626380 else if t == 15 then 24 else 0)
  {
    hide Pack;
    ScheduleIs(b, t);
    Packs();
  }

  lemma Packs()
    ensures Pack(Byte(0x61), Byte(0x62), Byte(0x63), Byte(0x80)) == Word(0x61626380)
    ensures Pack(Byte(0), Byte(0), Byte(0), Byte(24)) == Word(24)
    ensures Pack(Byte(0), Byte(0), Byte(0), Byte(0)) == Word(0)
  {
  }

  /** One more word of the schedule. */
  lemma More(b: seq<Byte>, t: nat, w2: bv32, w7: bv32, w15: bv32, w16: bv32, w: bv32)
    requires 16 <= t < 64 && Scheduled(b, t - 2, w2) && Scheduled(b, t - 7, w7)
    requires Scheduled(b, t - 15, w15) && Scheduled(b, t - 16, w16)
    requires Next(Word(w2), Word(w7), Word(w15), Word(w16)) == Word(w)
    ensures Scheduled(b, t, w)
  {
    hide Schedule, Next;
    ScheduleIs(b, t);
  }

  lemma Words16(b: seq<Byte>)
    requires AbcBlock(b)
    ensures Scheduled(b, 16, 0x61626380) && Scheduled(b, 17, 0x000f0000)
    ensures Scheduled(b, 18, 0x7da86405) && Scheduled(b, 19, 0x600003c6)
    ensures Scheduled(b, 20, 0x3e9d7b78) && Scheduled(b, 21, 0x0183fc00)
    ensures Scheduled(b, 22, 0x12dcbfdb) && Scheduled(b, 23, 0xe2e2c38e)
  {
    hide Scheduled, AbcBlock;
    Given(b, 0);
    Given(b, 1);
    Given(b, 2);
    Given(b, 3);
    Given(b, 4);
    Given(b, 5);
    Given(b, 6);
    Given(b, 7);
    Given(b, 8);
    Given(b, 9);
    Given(b, 10);
    Given(b, 11);
    Given(b, 12);
    Given(b, 13);
    Given(b, 14);
    Given(b, 15);
    More(b, 16, 0x00000000, 0x00000000, 0x00000000, 0x61626380, 0x61626380);
    More(b, 17, 0x00000018, 0x00000000, 0x00000000, 0x00000000, 0x000f0000);
    More(b, 18, 0x61626380, 0x00000000, 0x00000000, 0x00000000, 0x7da86405);
    More(b, 19, 0x000f0000, 0x00000000, 0x00000000, 0x00000000, 0x600003c6);
    More(b, 20, 0x7da86405, 0x00000000, 0x00000000, 0x00000000, 0x3e9d7b78);
    More(b, 21, 0x600003c6, 0x00000000, 0x00000000, 0x00000000, 0x0183fc00);
    More(b, 22, 0x3e9d7b78, 0x00000018, 0x00000000, 0x00000000, 0x12dcbfdb);
    More(b, 23, 0x0183fc00, 0x61626380, 0x00000000, 0x00000000, 0xe2e2c38e);
  }

  lemma Words24(b: seq<Byte>)
    requires AbcBlock(b)
    requires Scheduled(b, 16, 0x61626380) && Scheduled(b, 17, 0x000f0000)
    requires Scheduled(b, 18, 0x7da86405) && Scheduled(b, 19, 0x600003c6)
    requires Scheduled(b, 20, 0x3e9d7b78) && Scheduled(b, 21, 0x0183fc00)
    requires Scheduled(b, 22, 0x12dcbfdb) && Scheduled(b, 23, 0xe2e2c38e)
    ensures Scheduled(b, 24, 0xc8215c1a) && Scheduled(b, 25, 0xb73679a2)
    ensures Scheduled(b, 26, 0xe5bc3909) && Scheduled(b, 27, 0x32663c5b)
    ensures Scheduled(b, 28, 0x9d209d67) && Scheduled(b, 29, 0xec8726cb)
    ensures Scheduled(b, 30, 0x702138a4) && Scheduled(b, 31, 0xd3b7973b)
  {
    hide Scheduled, AbcBlock;
    Given(b, 8);
    Given(b, 9);
    Given(b, 10);
    Given(b, 11);
    Given(b, 12);
    Given(b, 13);
    Given(b, 14);
    Given(b, 15);
    More(b, 24, 0x12dcbfdb, 0x000f0000, 0x00000000, 0x00000000, 0xc8215c1a);
    More(b, 25, 0xe2e2c38e, 0x7da86405, 0x00000000, 0x00000000, 0xb73679a2);
    More(b, 26, 0xc8215c1a, 0x600003c6, 0x00000000, 0x00000000, 0xe5bc3909);
    More(b, 27, 0xb73679a2, 0x3e9d7b78, 0x00000000, 0x00000000, 0x32663c5b);
    More(b, 28, 0xe5bc3909, 0x0183fc00, 0x00000000, 0x00000000, 0x9d209d67);
    More(b, 29, 0x32663c5b, 0x12dcbfdb, 0x00000000, 0x00000000, 0xec8726cb);
    More(b, 30, 0x9d209d67, 0xe2e2c38e, 0x00000018, 0x00000000, 0x702138a4);
    More(b, 31, 0xec8726cb, 0xc8215c1a, 0x61626380, 0x00000018, 0xd3b7973b);
  }

  lemma Words32(b: seq<Byte>)
    requires Scheduled(b, 16, 0x61626380) && Scheduled(b, 17, 0x000f0000)
    requires Scheduled(b, 18, 0x7da86405) && Scheduled(b, 19, 0x600003c6)
    requires Scheduled(b, 20, 0x3e9d7b78) && Scheduled(b, 21, 0x0183fc00)
    requires Scheduled(b, 22, 0x12dcbfdb) && Scheduled(b, 23, 0xe2e2c38e)
    requires Scheduled(b, 24, 0xc8215c1a) && Scheduled(b, 25, 0xb73679a2)
    requires Scheduled(b, 26, 0xe5bc3909) && Scheduled(b, 27, 0x32663c5b)
    requires Scheduled(b, 28, 0x9d209d67) && Scheduled(b, 29, 0xec8726cb)
    requires Scheduled(b, 30, 0x702138a4) && Scheduled(b, 31, 0xd3b7973b)
    ensures Scheduled(b, 32, 0x93f5997f) && Scheduled(b, 33, 0x3b68ba73)
    ensures Scheduled(b, 34, 0xaff4ffc1) && Scheduled(b, 35, 0xf10a5c62)
    ensures Scheduled(b, 36, 0x0a8b3996) && Scheduled(b, 37, 0x72af830a)
    ensures Scheduled(b, 38, 0x9409e33e) && Scheduled(b, 39, 0x24641522)
  {
    hide Scheduled, AbcBlock;
    More(b, 32, 0x702138a4, 0xb73679a2, 0x000f0000, 0x61626380, 0x93f5997f);
    More(b, 33, 0xd3b7973b, 0xe5bc3909, 0x7da86405, 0x000f0000, 0x3b68ba73);
    More(b, 34, 0x93f5997f, 0x32663c5b, 0x600003c6, 0x7da86405, 0xaff4ffc1);
    More(b, 35, 0x3b68ba73, 0x9d209d67, 0x3e9d7b78, 0x600003c6, 0xf10a5c62);
    More(b, 36, 0xaff4ffc1, 0xec8726cb, 0x0183fc00, 0x3e9d7b78, 0x0a8b3996);
    More(b, 37, 0xf10a5c62, 0x702138a4, 0x12dcbfdb, 0x0183fc00, 0x72af830a);
    More(b, 38, 0x0a8b3996, 0xd3b7973b, 0xe2e2c38e, 0x12dcbfdb, 0x9409e33e);
    More(b, 39, 0x72af830a, 0x93f5997f, 0xc8215c1a, 0xe2e2c38e, 0x24641522);
  }

  lemma Words40(b: seq<Byte>)
    requires Scheduled(b, 24, 0xc8215c1a) && Scheduled(b, 25, 0xb73679a2)
    requires Scheduled(b, 26, 0xe5bc3909) && Scheduled(b, 27, 0x32663c5b)
    requires Scheduled(b, 28, 0x9d209d67) && Scheduled(b, 29, 0xec8726cb)
    requires Scheduled(b, 30, 0x702138a4) && Scheduled(b, 31, 0xd3b7973b)
    requires Scheduled(b, 32, 0x93f5997f) && Scheduled(b, 33, 0x3b68ba73)
    requires Scheduled(b, 34, 0xaff4ffc1) && Scheduled(b, 35, 0xf10a5c62)
    requires Scheduled(b, 36, 0x0a8b3996) && Scheduled(b, 37, 0x72af830a)
    requires Scheduled(b, 38, 0x9409e33e) && Scheduled(b, 39, 0x24641522)
    ensures Scheduled(b, 40, 0x9f47bf94) && Scheduled(b, 41, 0xf0a64f5a)
    ensures Scheduled(b, 42, 0x3e246a79) && Scheduled(b, 43, 0x27333ba3)
    ensures Scheduled(b, 44, 0x0c4763f2) && Scheduled(b, 45, 0x840abf27)
    ensures Scheduled(b, 46, 0x7a290d5d) && Scheduled(b, 47, 0x065c43da)
  {
    hide Scheduled, AbcBlock;
    More(b, 40, 0x9409e33e, 0x3b68ba73, 0xb73679a2, 0xc8215c1a, 0x9f47bf94);
    More(b, 41, 0x24641522, 0xaff4ffc1, 0xe5bc3909, 0xb73679a2, 0xf0a64f5a);
    More(b, 42, 0x9f47bf94, 0xf10a5c62, 0x32663c5b, 0xe5bc3909, 0x3e246a79);
    More(b, 43, 0xf0a64f5a, 0x0a8b3996, 0x9d209d67, 0x32663c5b, 0x27333ba3);
    More(b, 44, 0x3e246a79, 0x72af830a, 0xec8726cb, 0x9d209d67, 0x0c4763f2);
    More(b, 45, 0x27333ba3, 0x9409e33e, 0x702138a4, 0xec8726cb, 0x840abf27);
    More(b, 46, 0x0c4763f2, 0x24641522, 0xd3b7973b, 0x702138a4, 0x7a290d5d);
    More(b, 47, 0x840abf27, 0x9f47bf94, 0x93f5997f, 0xd3b7973b, 0x065c43da);
  }

  lemma Words48(b: seq<Byte>)
    requires Scheduled(b, 32, 0x93f5997f) && Scheduled(b, 33, 0x3b68ba73)
    requires Scheduled(b, 34, 0xaff4ffc1) && Scheduled(b, 35, 0xf10a5c62)
    requires Scheduled(b, 36, 0x0a8b3996) && Scheduled(b, 37, 0x72af830a)
    requires Scheduled(b, 38, 0x9409e33e) && Scheduled(b, 39, 0x24641522)
    requires Scheduled(b, 40, 0x9f47bf94) && Scheduled(b, 41, 0xf0a64f5a)
    requires Scheduled(b, 42, 0x3e246a79) && Scheduled(b, 43, 0x27333ba3)
    requires Scheduled(b, 44, 0x0c4763f2) && Scheduled(b, 45, 0x840abf27)
    requires Scheduled(b, 46, 0x7a290d5d) && Scheduled(b, 47, 0x065c43da)
    ensures Scheduled(b, 48, 0xfb3e89cb) && Scheduled(b, 49, 0xcc7617db)
    ensures Scheduled(b, 50, 0xb9e66c34) && Scheduled(b, 51, 0xa9993667)
    ensures Scheduled(b, 52, 0x84badedd) && Scheduled(b, 53, 0xc21462bc)
    ensures Scheduled(b, 54, 0x1487472c) && Scheduled(b, 55, 0xb20f7a99)
  {
    hide Scheduled, AbcBlock;
    More(b, 48, 0x7a290d5d, 0xf0a64f5a, 0x3b68ba73, 0x93f5997f, 0xfb3e89cb);
    More(b, 49, 0x065c43da, 0x3e246a79, 0xaff4ffc1, 0x3b68ba73, 0xcc7617db);
    More(b, 50, 0xfb3e89cb, 0x27333ba3, 0xf10a5c62, 0xaff4ffc1, 0xb9e66c34);
    More(b, 51, 0xcc7617db, 0x0c4763f2, 0x0a8b3996, 0xf10a5c62, 0xa9993667);
    More(b, 52, 0xb9e66c34, 0x840abf27, 0x72af830a, 0x0a8b3996, 0x84badedd);
    More(b, 53, 0xa9993667, 0x7a290d5d, 0x9409e33e, 0x72af830a, 0xc21462bc);
    More(b, 54, 0x84badedd, 0x065c43da, 0x24641522, 0x9409e33e, 0x1487472c);
    More(b, 55, 0xc21462bc, 0xfb3e89cb, 0x9f47bf94, 0x24641522, 0xb20f7a99);
  }

  lemma Words56(b: seq<Byte>)
    requires Scheduled(b, 40, 0x9f47bf94) && Scheduled(b, 41, 0xf0a64f5a)
    requires Scheduled(b, 42, 0x3e246a79) && Scheduled(b, 43, 0x27333ba3)
    requires Scheduled(b, 44, 0x0c4763f2) && Scheduled(b, 45, 0x840abf27)
    requires Scheduled(b, 46, 0x7a290d5d) && Scheduled(b, 47, 0x065c43da)
    requires Scheduled(b, 48, 0xfb3e89cb) && Scheduled(b, 49, 0xcc7617db)
    requires Scheduled(b, 50, 0xb9e66c34) && Scheduled(b, 51, 0xa9993667)
    requires Scheduled(b, 52, 0x84badedd) && Scheduled(b, 53, 0xc21462bc)
    requires Scheduled(b, 54, 0x1487472c) && Scheduled(b, 55, 0xb20f7a99)
    ensures Scheduled(b, 56, 0xef57b9cd) && Scheduled(b, 57, 0xebe6b238)
    ensures Scheduled(b, 58, 0x9fe3095e) && Scheduled(b, 59, 0x78bc8d4b)
    ensures Scheduled(b, 60, 0xa43fcf15) && Scheduled(b, 61, 0x668b2ff8)
    ensures Scheduled(b, 62, 0xeeaba2cc) && Scheduled(b, 63, 0x12b1edeb)
  {
    hide Scheduled, AbcBlock;
    More(b, 56, 0x1487472c, 0xcc7617db, 0xf0a64f5a, 0x9f47bf94, 0xef57b9cd);
    More(b, 57, 0xb20f7a99, 0xb9e66c34, 0x3e246a79, 0xf0a64f5a, 0xebe6b238);
    More(b, 58, 0xef57b9cd, 0xa9993667, 0x27333ba3, 0x3e246a79, 0x9fe3095e);
    More(b, 59, 0xebe6b238, 0x84badedd, 0x0c4763f2, 0x27333ba3, 0x78bc8d4b);
    More(b, 60, 0x9fe3095e, 0xc21462bc, 0x840abf27, 0x0c4763f2, 0xa43fcf15);
    More(b, 61, 0x78bc8d4b, 0x1487472c, 0x7a290d5d, 0x840abf27, 0x668b2ff8);
    More(b, 62, 0xa43fcf15, 0xb20f7a99, 0x065c43da, 0x7a290d5d, 0xeeaba2cc);
    More(b, 63, 0x668b2ff8, 0xef57b9cd, 0xfb3e89cb, 0x065c43da, 0x12b1edeb);
  }

  // ---------------------------------------------------------------- the rounds

  /** The working variables before round t. */
  ghost predicate At(m: seq<Byte>, t: nat, a: bv32, b: bv32, c: bv32, d: bv32, e: bv32, f: bv32, g: bv32, h: bv32) {
    && |m| == 64 && t <= 64
    && Rounds(InitialHash(), m, t) == [Word(a), Word(b), Word(c), Word(d), Word(e), Word(f), Word(g), Word(h)]
  }

  lemma Turn(m: seq<Byte>, t: nat, w: bv32, a: bv32, b: bv32, c: bv32, d: bv32, e: bv32, f: bv32, g: bv32, h: bv32,
             t1: bv32, t2: bv32, x: bv32, y: bv32)
    requires t < 64 && At(m, t, a, b, c, d, e, f, g, h) && Scheduled(m, t, w)
    requires T1(Word(e), Word(f), Word(g), Word(h), Word(K(t)), Word(w)) == Word(t1)
    requires T2(Word(a), Word(b), Word(c)) == Word(t2)
    requires Add(Word(t1), Word(t2)) == Word(x) && Add(Word(d), Word(t1)) == Word(y)
    ensures At(m, t + 1, x, a, b, c, y, e, f, g)
  {
    hide Schedule, InitialHash, K, T1, T2, Add;
  }

  lemma Constants0()
    ensures K(0) == 0x428a2f98 && K(1) == 0x71374491 && K(2) == 0xb5c0fbcf && K(3) == 0xe9b5dba5
    ensures K(4) == 0x3956c25b && K(5) == 0x59f111f1 && K(6) == 0x923f82a4 && K(7) == 0xab1c5ed5
  {
  }

  lemma Rounds0(b: seq<Byte>)
    requires At(b, 0, 0x6a09e667, 0xbb67ae85, 0x3c6ef372, 0xa54ff53a, 0x510e527f, 0x9b05688c, 0x1f83d9ab, 0x5be0cd19)
    requires Scheduled(b, 0, 0x61626380) && Scheduled(b, 1, 0x00000000)
    requires Scheduled(b, 2, 0x00000000) && Scheduled(b, 3, 0x00000000)
    requires Scheduled(b, 4, 0x00000000) && Scheduled(b, 5, 0x00000000)
    requires Scheduled(b, 6, 0x00000000) && Scheduled(b, 7, 0x00000000)
    ensures At(b, 8, 0x85a07b5f, 0xe5030380, 0x2b4209f5, 0x04409a6a, 0x0c657a79, 0x9b27a401, 0x714260ad, 0x43ada245)
  {
    hide Scheduled, At, K;
    Constants0();
    Turn(b, 0, 0x61626380, 0x6a09e667, 0xbb67ae85, 0x3c6ef372, 0xa54ff53a, 0x510e527f, 0x9b05688c, 0x1f83d9ab,
         0x5be0cd19, 0x54da50e8, 0x08909ae5, 0x5d6aebcd, 0xfa2a4622);
    Turn(b, 1, 0x00000000, 0x5d6aebcd, 0x6a09e667, 0xbb67ae85, 0x3c6ef372, 0xfa2a4622, 0x510e527f, 0x9b05688c,
         0x1f83d9ab, 0x3c5f8617, 0x1e0b5396, 0x5a6ad9ad, 0x78ce7989);
    Turn(b, 2, 0x00000000, 0x5a6ad9ad, 0x5d6aebcd, 0x6a09e667, 0xbb67ae85, 0x78ce7989, 0xfa2a4622, 0x510e527f,
         0x9b05688c, 0x3dc18b66, 0x8b01bc41, 0xc8c347a7, 0xf92939eb);
    Turn(b, 3, 0x00000000, 0xc8c347a7, 0x5a6ad9ad, 0x5d6aebcd, 0x6a09e667, 0xf92939eb, 0x78ce7989, 0xfa2a4622,
         0x510e527f, 0xbad621e9, 0x1a7ad47d, 0xd550f666, 0x24e00850);
    Turn(b, 4, 0x00000000, 0xd550f666, 0xc8c347a7, 0x5a6ad9ad, 0x5d6aebcd, 0x24e00850, 0xf92939eb, 0x78ce7989,
         0xfa2a4622, 0xe642b678, 0x1dfde3f2, 0x04409a6a, 0x43ada245);
    Turn(b, 5, 0x00000000, 0x04409a6a, 0xd550f666, 0xc8c347a7, 0x5a6ad9ad, 0x43ada245, 0x24e00850, 0xf92939eb,
         0x78ce7989, 0x16d78700, 0x146a82f5, 0x2b4209f5, 0x714260ad);
    Turn(b, 6, 0x00000000, 0x2b4209f5, 0x04409a6a, 0xd550f666, 0xc8c347a7, 0x714260ad, 0x43ada245, 0x24e00850,
         0xf92939eb, 0xd2645c5a, 0x129ea726, 0xe5030380, 0x9b27a401);
    Turn(b, 7, 0x00000000, 0xe5030380, 0x2b4209f5, 0x04409a6a, 0xd550f666, 0x9b27a401, 0x714260ad, 0x43ada245,
         0x24e00850, 0x37148413, 0x4e8bf74c, 0x85a07b5f, 0x0c657a79);
  }

  lemma Constants8()
    ensures K(8) == 0xd807aa98 && K(9) == 0x12835b01 && K(10) == 0x243185be && K(11) == 0x550c7dc3
    ensures K(12) == 0x72be5d74 && K(13) == 0x80deb1fe && K(14) == 0x9bdc06a7 && K(15) == 0xc19bf174
  {
  }

  lemma Rounds8(b: seq<Byte>)
    requires At(b, 8, 0x85a07b5f, 0xe5030380, 0x2b4209f5, 0x04409a6a, 0x0c657a79, 0x9b27a401, 0x714260ad, 0x43ada245)
    requires Scheduled(b, 8, 0x00000000) && Scheduled(b, 9, 0x00000000)
    requires Scheduled(b, 10, 0x00000000) && Scheduled(b, 11, 0x00000000)
    requires Scheduled(b, 12, 0x00000000) && Scheduled(b, 13, 0x00000000)
    requires Scheduled(b, 14, 0x00000000) && Scheduled(b, 15, 0x00000018)
    ensures At(b, 16, 0xb0fa238e, 0xc0645fde, 0xd932eb16, 0x87912990, 0x07590dcd, 0x0b92f20c, 0x745a48de, 0x1e578218)
  {
    hide Scheduled, At, K;
    Constants8();
    Turn(b, 8, 0x00000000, 0x85a07b5f, 0xe5030380, 0x2b4209f5, 0x04409a6a, 0x0c657a79, 0x9b27a401, 0x714260ad,
         0x43ada245, 0x2e899322, 0x5f7b5997, 0x8e04ecb9, 0x32ca2d8c);
    Turn(b, 9, 0x00000000, 0x8e04ecb9, 0x85a07b5f, 0xe5030380, 0x2b4209f5, 0x32ca2d8c, 0x0c657a79, 0x9b27a401,
         0x714260ad, 0xf1871ba1, 0x9b0018ca, 0x8c87346b, 0x1cc92596);
    Turn(b, 10, 0x00000000, 0x8c87346b, 0x8e04ecb9, 0x85a07b5f, 0xe5030380, 0x1cc92596, 0x32ca2d8c, 0x0c657a79,
         0x9b27a401, 0x5e682068, 0xe930838c, 0x4798a3f4, 0x436b23e8);
    Turn(b, 11, 0x00000000, 0x4798a3f4, 0x8c87346b, 0x8e04ecb9, 0x85a07b5f, 0x436b23e8, 0x1cc92596, 0x32ca2d8c,
         0x0c657a79, 0xfbcf5b8a, 0xfb506a1f, 0xf71fc5a9, 0x816fd6e9);
    Turn(b, 12, 0x00000000, 0xf71fc5a9, 0x4798a3f4, 0x8c87346b, 0x8e04ecb9, 0x816fd6e9, 0x436b23e8, 0x1cc92596,
         0x32ca2d8c, 0x9052955f, 0xf73e9431, 0x87912990, 0x1e578218);
    Turn(b, 13, 0x00000000, 0x87912990, 0xf71fc5a9, 0x4798a3f4, 0x8c87346b, 0x1e578218, 0x816fd6e9, 0x436b23e8,
         0x1cc92596, 0xe7d31473, 0xf15fd6a3, 0xd932eb16, 0x745a48de);
    Turn(b, 14, 0x00000000, 0xd932eb16, 0x87912990, 0xf71fc5a9, 0x4798a3f4, 0x745a48de, 0x1e578218, 0x816fd6e9,
         0x436b23e8, 0xc3fa4e18, 0xfc6a11c6, 0xc0645fde, 0x0b92f20c);
    Turn(b, 15, 0x00000018, 0xc0645fde, 0xd932eb16, 0x87912990, 0xf71fc5a9, 0x0b92f20c, 0x745a48de, 0x1e578218,
         0x816fd6e9, 0x10394824, 0xa0c0db6a, 0xb0fa238e, 0x07590dcd);
  }

  lemma Constants16()
    ensures K(16) == 0xe49b69c1 && K(17) == 0xefbe4786 && K(18) == 0x0fc19dc6 && K(19) == 0x240ca1cc
    ensures K(20) == 0x2de92c6f && K(21) == 0x4a7484aa && K(22) == 0x5cb0a9dc && K(23) == 0x76f988da
  {
  }

  lemma Rounds16(b: seq<Byte>)
    requires At(b, 16, 0xb0fa238e, 0xc0645fde, 0xd932eb16, 0x87912990, 0x07590dcd, 0x0b92f20c, 0x745a48de, 0x1e578218)
    requires Scheduled(b, 16, 0x61626380) && Scheduled(b, 17, 0x000f0000)
    requires Scheduled(b, 18, 0x7da86405) && Scheduled(b, 19, 0x600003c6)
    requires Scheduled(b, 20, 0x3e9d7b78) && Scheduled(b, 21, 0x0183fc00)
    requires Scheduled(b, 22, 0x12dcbfdb) && Scheduled(b, 23, 0xe2e2c38e)
    ensures At(b, 24, 0xc5d53d8d, 0xa7a3623f, 0xc2606d6d, 0x9dc68b63, 0xaa47c347, 0x49f5114a, 0xe1257970, 0x8ada8930)
  {
    hide Scheduled, At, K;
    Constants16();
    Turn(b, 16, 0x61626380, 0xb0fa238e, 0xc0645fde, 0xd932eb16, 0x87912990, 0x07590dcd, 0x0b92f20c, 0x745a48de,
         0x1e578218, 0xf8a2f90c, 0x2937a18f, 0x21da9a9b, 0x8034229c);
    Turn(b, 17, 0x000f0000, 0x21da9a9b, 0xb0fa238e, 0xc0645fde, 0xd932eb16, 0x8034229c, 0x07590dcd, 0x0b92f20c,
         0x745a48de, 0xab3bf93e, 0x17bfe093, 0xc2fbd9d1, 0x846ee454);
    Turn(b, 18, 0x7da86405, 0xc2fbd9d1, 0x21da9a9b, 0xb0fa238e, 0xc0645fde, 0x846ee454, 0x8034229c, 0x07590dcd,
         0x0b92f20c, 0x0c253983, 0xf252423c, 0xfe777bbf, 0xcc899961);
    Turn(b, 19, 0x600003c6, 0xfe777bbf, 0xc2fbd9d1, 0x21da9a9b, 0xb0fa238e, 0xcc899961, 0x846ee454, 0x8034229c,
         0x07590dcd, 0xff695deb, 0xe288ae48, 0xe1f20c33, 0xb0638179);
    Turn(b, 20, 0x3e9d7b78, 0xe1f20c33, 0xfe777bbf, 0xc2fbd9d1, 0x21da9a9b, 0xb0638179, 0xcc899961, 0x846ee454,
         0x8034229c, 0x68ffee95, 0x34c69cce, 0x9dc68b63, 0x8ada8930);
    Turn(b, 21, 0x0183fc00, 0x9dc68b63, 0xe1f20c33, 0xfe777bbf, 0xc2fbd9d1, 0x8ada8930, 0xb0638179, 0xcc899961,
         0x846ee454, 0x1e299f9f, 0xa436cdce, 0xc2606d6d, 0xe1257970);
    Turn(b, 22, 0x12dcbfdb, 0xc2606d6d, 0x9dc68b63, 0xe1f20c33, 0xfe777bbf, 0xe1257970, 0x8ada8930, 0xb0638179,
         0xcc899961, 0x4b7d958b, 0x5c25ccb4, 0xa7a3623f, 0x49f5114a);
    Turn(b, 23, 0xe2e2c38e, 0xa7a3623f, 0xc2606d6d, 0x9dc68b63, 0xe1f20c33, 0x49f5114a, 0xe1257970, 0x8ada8930,
         0xb0638179, 0xc855b714, 0xfd7f8679, 0xc5d53d8d, 0xaa47c347);
  }

  lemma Constants24()
    ensures K(24) == 0x983e5152 && K(25) == 0xa831c66d && K(26) == 0xb00327c8 && K(27) == 0xbf597fc7
    ensures K(28) == 0xc6e00bf3 && K(29) == 0xd5a79147 && K(30) == 0x06ca6351 && K(31) == 0x14292967
  {
  }

  lemma Rounds24(b: seq<Byte>)
    requires At(b, 24, 0xc5d53d8d, 0xa7a3623f, 0xc2606d6d, 0x9dc68b63, 0xaa47c347, 0x49f5114a, 0xe1257970, 0x8ada8930)
    requires Scheduled(b, 24, 0xc8215c1a) && Scheduled(b, 25, 0xb73679a2)
    requires Scheduled(b, 26, 0xe5bc3909) && Scheduled(b, 27, 0x32663c5b)
    requires Scheduled(b, 28, 0x9d209d67) && Scheduled(b, 29, 0xec8726cb)
    requires Scheduled(b, 30, 0x702138a4) && Scheduled(b, 31, 0xd3b7973b)
    ensures At(b, 32, 0x73b33bf5, 0xea992a22, 0xa0060b30, 0x363482c9, 0xba591112, 0x0109ab3a, 0xade79437, 0x6112a3b7)
  {
    hide Scheduled, At, K;
    Constants24();
    Turn(b, 24, 0xc8215c1a, 0xc5d53d8d, 0xa7a3623f, 0xc2606d6d, 0x9dc68b63, 0xaa47c347, 0x49f5114a, 0xe1257970,
         0x8ada8930, 0x8a5d642e, 0x91cec40a, 0x1c2c2838, 0x2823ef91);
    Turn(b, 25, 0xb73679a2, 0x1c2c2838, 0xc5d53d8d, 0xa7a3623f, 0xc2606d6d, 0x2823ef91, 0xaa47c347, 0x49f5114a,
         0xe1257970, 0x51d7d021, 0x7c10335c, 0xcde8037d, 0x14383d8e);
    Turn(b, 26, 0xe5bc3909, 0xcde8037d, 0x1c2c2838, 0xc5d53d8d, 0xa7a3623f, 0x14383d8e, 0x2823ef91, 0xaa47c347,
         0x49f5114a, 0x1fa902d7, 0x9685c1e5, 0xb62ec4bc, 0xc74c6516);
    Turn(b, 27, 0x32663c5b, 0xb62ec4bc, 0xcde8037d, 0x1c2c2838, 0xc5d53d8d, 0xc74c6516, 0x14383d8e, 0x2823ef91,
         0xaa47c347, 0x282a826b, 0x4fa8f2bd, 0x77d37528, 0xedffbff8);
    Turn(b, 28, 0x9d209d67, 0x77d37528, 0xb62ec4bc, 0xcde8037d, 0x1c2c2838, 0xedffbff8, 0xc74c6516, 0x14383d8e,
         0x2823ef91, 0x44e67b7f, 0xf14e074a, 0x363482c9, 0x6112a3b7);
    Turn(b, 29, 0xec8726cb, 0x363482c9, 0x77d37528, 0xb62ec4bc, 0xcde8037d, 0x6112a3b7, 0xedffbff8, 0xc74c6516,
         0x14383d8e, 0xdfff90ba, 0xc0067a76, 0xa0060b30, 0xade79437);
    Turn(b, 30, 0x702138a4, 0xa0060b30, 0x363482c9, 0x77d37528, 0xb62ec4bc, 0xade79437, 0x6112a3b7, 0xedffbff8,
         0xc74c6516, 0x4adae67e, 0x9fbe43a4, 0xea992a22, 0x0109ab3a);
    Turn(b, 31, 0xd3b7973b, 0xea992a22, 0xa0060b30, 0x363482c9, 0x77d37528, 0x0109ab3a, 0xade79437, 0x6112a3b7,
         0xedffbff8, 0x42859bea, 0x312da00b, 0x73b33bf5, 0xba591112);
  }

  lemma Constants32()
    ensures K(32) == 0x27b70a85 && K(33) == 0x2e1b2138 && K(34) == 0x4d2c6dfc && K(35) == 0x53380d13
    ensures K(36) == 0x650a7354 && K(37) == 0x766a0abb && K(38) == 0x81c2c92e && K(39) == 0x92722c85
  {
  }

  lemma Rounds32(b: seq<Byte>)
    requires At(b, 32, 0x73b33bf5, 0xea992a22, 0xa0060b30, 0x363482c9, 0xba591112, 0x0109ab3a, 0xade79437, 0x6112a3b7)
    requires Scheduled(b, 32, 0x93f5997f) && Scheduled(b, 33, 0x3b68ba73)
    requires Scheduled(b, 34, 0xaff4ffc1) && Scheduled(b, 35, 0xf10a5c62)
    requires Scheduled(b, 36, 0x0a8b3996) && Scheduled(b, 37, 0x72af830a)
    requires Scheduled(b, 38, 0x9409e33e) && Scheduled(b, 39, 0x24641522)
    ensures At(b, 40, 0x79ea687a, 0x6dc57a8a, 0x34df1604, 0x41a65cb1, 0x1efbc0a0, 0xf0781bc8, 0xa507a53d, 0x0772a26b)
  {
    hide Scheduled, At, K;
    Constants32();
    Turn(b, 32, 0x93f5997f, 0x73b33bf5, 0xea992a22, 0xa0060b30, 0x363482c9, 0xba591112, 0x0109ab3a, 0xade79437,
         0x6112a3b7, 0x66a5732d, 0x323bb1da, 0x98e12507, 0x9cd9f5f6);
    Turn(b, 33, 0x3b68ba73, 0x98e12507, 0x73b33bf5, 0xea992a22, 0xa0060b30, 0x9cd9f5f6, 0xba591112, 0x0109ab3a,
         0xade79437, 0xb91e92a3, 0x4541bb52, 0xfe604df5, 0x59249dd3);
    Turn(b, 34, 0xaff4ffc1, 0xfe604df5, 0x98e12507, 0x73b33bf5, 0xea992a22, 0x59249dd3, 0x9cd9f5f6, 0xba591112,
         0x0109ab3a, 0x1dc60e11, 0x8be1657b, 0xa9a7738c, 0x085f3833);
    Turn(b, 35, 0xf10a5c62, 0xa9a7738c, 0xfe604df5, 0x98e12507, 0x73b33bf5, 0x085f3833, 0x59249dd3, 0x9cd9f5f6,
         0xba591112, 0x80fcc6e1, 0xe4a40903, 0x65a0cfe4, 0xf4b002d6);
    Turn(b, 36, 0x0a8b3996, 0x65a0cfe4, 0xa9a7738c, 0xfe604df5, 0x98e12507, 0xf4b002d6, 0x085f3833, 0x59249dd3,
         0x9cd9f5f6, 0x6e917d64, 0xd314df4d, 0x41a65cb1, 0x0772a26b);
    Turn(b, 37, 0x72af830a, 0x41a65cb1, 0x65a0cfe4, 0xa9a7738c, 0xfe604df5, 0x0772a26b, 0xf4b002d6, 0x085f3833,
         0x59249dd3, 0xa6a75748, 0x8e37bebc, 0x34df1604, 0xa507a53d);
    Turn(b, 38, 0x9409e33e, 0x34df1604, 0x41a65cb1, 0x65a0cfe4, 0xa9a7738c, 0xa507a53d, 0x0772a26b, 0xf4b002d6,
         0x085f3833, 0x46d0a83c, 0x26f4d24e, 0x6dc57a8a, 0xf0781bc8);
    Turn(b, 39, 0x24641522, 0x6dc57a8a, 0x34df1604, 0x41a65cb1, 0x65a0cfe4, 0xf0781bc8, 0xa507a53d, 0x0772a26b,
         0xf4b002d6, 0xb95af0bc, 0xc08f77be, 0x79ea687a, 0x1efbc0a0);
  }

  lemma Constants40()
    ensures K(40) == 0xa2bfe8a1 && K(41) == 0xa81a664b && K(42) == 0xc24b8b70 && K(43) == 0xc76c51a3
    ensures K(44) == 0xd192e819 && K(45) == 0xd6990624 && K(46) == 0xf40e3585 && K(47) == 0x106aa070
  {
  }

  lemma Rounds40(b: seq<Byte>)
    requires At(b, 40, 0x79ea687a, 0x6dc57a8a, 0x34df1604, 0x41a65cb1, 0x1efbc0a0, 0xf0781bc8, 0xa507a53d, 0x0772a26b)
    requires Scheduled(b, 40, 0x9f47bf94) && Scheduled(b, 41, 0xf0a64f5a)
    requires Scheduled(b, 42, 0x3e246a79) && Scheduled(b, 43, 0x27333ba3)
    requires Scheduled(b, 44, 0x0c4763f2) && Scheduled(b, 45, 0x840abf27)
    requires Scheduled(b, 46, 0x7a290d5d) && Scheduled(b, 47, 0x065c43da)
    ensures At(b, 48, 0x4172328d, 0xa14c14b0, 0x72ab4b91, 0x26628815, 0xfecf0bc6, 0xd57b94a9, 0xb7755da1, 0xa80f11f0)
  {
    hide Scheduled, At, K;
    Constants40();
    Turn(b, 40, 0x9f47bf94, 0x79ea687a, 0x6dc57a8a, 0x34df1604, 0x41a65cb1, 0x1efbc0a0, 0xf0781bc8, 0xa507a53d,
         0x0772a26b, 0xe48ed0b2, 0xf1d836b4, 0xd6670766, 0x26352d63);
    Turn(b, 41, 0xf0a64f5a, 0xd6670766, 0x79ea687a, 0x6dc57a8a, 0x34df1604, 0x26352d63, 0x1efbc0a0, 0xf0781bc8,
         0xa507a53d, 0x4eac110d, 0x909a5422, 0xdf46652f, 0x838b2711);
    Turn(b, 42, 0x3e246a79, 0xdf46652f, 0xd6670766, 0x79ea687a, 0x6dc57a8a, 0x838b2711, 0x26352d63, 0x1efbc0a0,
         0xf0781bc8, 0x7107cc8b, 0xa6a24173, 0x17aa0dfe, 0xdecd4715);
    Turn(b, 43, 0x27333ba3, 0x17aa0dfe, 0xdf46652f, 0xd6670766, 0x79ea687a, 0xdecd4715, 0x838b2711, 0x26352d63,
         0x1efbc0a0, 0x83b7e3b4, 0x1993cbdf, 0x9d4baf93, 0xfda24c2e);
    Turn(b, 44, 0x0c4763f2, 0x9d4baf93, 0x17aa0dfe, 0xdf46652f, 0xd6670766, 0xfda24c2e, 0xdecd4715, 0x838b2711,
         0x26352d63, 0xd1a80a8a, 0x54ba7d8b, 0x26628815, 0xa80f11f0);
    Turn(b, 45, 0x840abf27, 0x26628815, 0x9d4baf93, 0x17aa0dfe, 0xdf46652f, 0xa80f11f0, 0xfda24c2e, 0xdecd4715,
         0x838b2711, 0xd82ef872, 0x9a7c531f, 0x72ab4b91, 0xb7755da1);
    Turn(b, 46, 0x7a290d5d, 0x72ab4b91, 0x26628815, 0x9d4baf93, 0x17aa0dfe, 0xb7755da1, 0xa80f11f0, 0xfda24c2e,
         0xdecd4715, 0xbdd186ab, 0xe37a8e05, 0xa14c14b0, 0xd57b94a9);
    Turn(b, 47, 0x065c43da, 0xa14c14b0, 0x72ab4b91, 0x26628815, 0x9d4baf93, 0xd57b94a9, 0xb7755da1, 0xa80f11f0,
         0xfda24c2e, 0x61835c33, 0xdfeed65a, 0x4172328d, 0xfecf0bc6);
  }

  lemma Constants48()
    ensures K(48) == 0x19a4c116 && K(49) == 0x1e376c08 && K(50) == 0x2748774c && K(51) == 0x34b0bcb5
    ensures K(52) == 0x391c0cb3 && K(53) == 0x4ed8aa4a && K(54) == 0x5b9cca4f && K(55) == 0x682e6ff3
  {
  }

  lemma Rounds48(b: seq<Byte>)
    requires At(b, 48, 0x4172328d, 0xa14c14b0, 0x72ab4b91, 0x26628815, 0xfecf0bc6, 0xd57b94a9, 0xb7755da1, 0xa80f11f0)
    requires Scheduled(b, 48, 0xfb3e89cb) && Scheduled(b, 49, 0xcc7617db)
    requires Scheduled(b, 50, 0xb9e66c34) && Scheduled(b, 51, 0xa9993667)
    requires Scheduled(b, 52, 0x84badedd) && Scheduled(b, 53, 0xc21462bc)
    requires Scheduled(b, 54, 0x1487472c) && Scheduled(b, 55, 0xb20f7a99)
    ensures At(b, 56, 0x38cc9913, 0x3ec45cdb, 0xf5702fdb, 0x101fd28f, 0x54cb266b, 0xe50e1b4f, 0x9f4787c3, 0x529e7d00)
  {
    hide Scheduled, At, K;
    Constants48();
    Turn(b, 48, 0xfb3e89cb, 0x4172328d, 0xa14c14b0, 0x72ab4b91, 0x26628815, 0xfecf0bc6, 0xd57b94a9, 0xb7755da1,
         0xa80f11f0, 0x970eb823, 0x6e66c4c8, 0x05757ceb, 0xbd714038);
    Turn(b, 49, 0xcc7617db, 0x05757ceb, 0x4172328d, 0xa14c14b0, 0x72ab4b91, 0xbd714038, 0xfecf0bc6, 0xd57b94a9,
         0xb7755da1, 0xfbb0ed7b, 0xf56b0d2d, 0xf11bfaa8, 0x6e5c390c);
    Turn(b, 50, 0xb9e66c34, 0xf11bfaa8, 0x05757ceb, 0x4172328d, 0xa14c14b0, 0x6e5c390c, 0xbd714038, 0xfecf0bc6,
         0xd57b94a9, 0xb1a5b847, 0xc85f505a, 0x7a0508a1, 0x52f1ccf7);
    Turn(b, 51, 0xa9993667, 0x7a0508a1, 0xf11bfaa8, 0x05757ceb, 0x4172328d, 0x52f1ccf7, 0x6e5c390c, 0xbd714038,
         0xfecf0bc6, 0x07b0e991, 0x80bd9091, 0x886e7a22, 0x49231c1e);
    Turn(b, 52, 0x84badedd, 0x886e7a22, 0x7a0508a1, 0xf11bfaa8, 0x05757ceb, 0x49231c1e, 0x52f1ccf7, 0x6e5c390c,
         0xbd714038, 0x4d290015, 0xc2f6d27a, 0x101fd28f, 0x529e7d00);
    Turn(b, 53, 0xc21462bc, 0x101fd28f, 0x886e7a22, 0x7a0508a1, 0xf11bfaa8, 0x529e7d00, 0x49231c1e, 0x52f1ccf7,
         0x6e5c390c, 0xae2b8d1b, 0x4744a2c0, 0xf5702fdb, 0x9f4787c3);
    Turn(b, 54, 0x1487472c, 0xf5702fdb, 0x101fd28f, 0x886e7a22, 0x7a0508a1, 0x9f4787c3, 0x529e7d00, 0x49231c1e,
         0x52f1ccf7, 0x6b0912ae, 0xd3bb4a2d, 0x3ec45cdb, 0xe50e1b4f);
    Turn(b, 55, 0xb20f7a99, 0x3ec45cdb, 0xf5702fdb, 0x101fd28f, 0x886e7a22, 0xe50e1b4f, 0x9f4787c3, 0x529e7d00,
         0x49231c1e, 0xcc5cac49, 0x6c6fecca, 0x38cc9913, 0x54cb266b);
  }

  lemma Constants56()
    ensures K(56) == 0x748f82ee && K(57) == 0x78a5636f && K(58) == 0x84c87814 && K(59) == 0x8cc70208
    ensures K(60) == 0x90befffa && K(61) == 0xa4506ceb && K(62) == 0xbef9a3f7 && K(63) == 0xc67178f2
  {
  }

  lemma Rounds56(b: seq<Byte>)
    requires At(b, 56, 0x38cc9913, 0x3ec45cdb, 0xf5702fdb, 0x101fd28f, 0x54cb266b, 0xe50e1b4f, 0x9f4787c3, 0x529e7d00)
    requires Scheduled(b, 56, 0xef57b9cd) && Scheduled(b, 57, 0xebe6b238)
    requires Scheduled(b, 58, 0x9fe3095e) && Scheduled(b, 59, 0x78bc8d4b)
    requires Scheduled(b, 60, 0xa43fcf15) && Scheduled(b, 61, 0x668b2ff8)
    requires Scheduled(b, 62, 0xeeaba2cc) && Scheduled(b, 63, 0x12b1edeb)
    ensures At(b, 64, 0x506e3058, 0xd39a2165, 0x04d24d6c, 0xb85e2ce9, 0x5ef50f24, 0xfb121210, 0x948d25b6, 0x961f4894)
  {
    hide Scheduled, At, K;
    Constants56();
    Turn(b, 56, 0xef57b9cd, 0x38cc9913, 0x3ec45cdb, 0xf5702fdb, 0x101fd28f, 0x54cb266b, 0xe50e1b4f, 0x9f4787c3,
         0x529e7d00, 0x8b3ebddd, 0x7192ca9e, 0xfcd1887b, 0x9b5e906c);
    Turn(b, 57, 0xebe6b238, 0xfcd1887b, 0x38cc9913, 0x3ec45cdb, 0xf5702fdb, 0x9b5e906c, 0x54cb266b, 0xe50e1b4f,
         0x9f4787c3, 0x88d3d0b3, 0x378f03bc, 0xc062d46f, 0x7e44008e);
    Turn(b, 58, 0x9fe3095e, 0xc062d46f, 0xfcd1887b, 0x38cc9913, 0x3ec45cdb, 0x7e44008e, 0x9b5e906c, 0x54cb266b,
         0xe50e1b4f, 0x2ebf62eb, 0xd0f7a187, 0xffb70472, 0x6d83bfc6);
    Turn(b, 59, 0x78bc8d4b, 0xffb70472, 0xc062d46f, 0xfcd1887b, 0x38cc9913, 0x6d83bfc6, 0x7e44008e, 0x9b5e906c,
         0x54cb266b, 0x794f142a, 0x3d5f7bd5, 0xb6ae8fff, 0xb21bad3d);
    Turn(b, 60, 0xa43fcf15, 0xb6ae8fff, 0xffb70472, 0xc062d46f, 0xfcd1887b, 0xb21bad3d, 0x6d83bfc6, 0x7e44008e,
         0x9b5e906c, 0x994dc019, 0x1f106cd0, 0xb85e2ce9, 0x961f4894);
    Turn(b, 61, 0x668b2ff8, 0xb85e2ce9, 0xb6ae8fff, 0xffb70472, 0xc062d46f, 0x961f4894, 0xb21bad3d, 0x6d83bfc6,
         0x7e44008e, 0xd42a5147, 0x30a7fc25, 0x04d24d6c, 0x948d25b6);
    Turn(b, 62, 0xeeaba2cc, 0x04d24d6c, 0xb85e2ce9, 0xb6ae8fff, 0xffb70472, 0x948d25b6, 0x961f4894, 0xb21bad3d,
         0x6d83bfc6, 0xfb5b0d9e, 0xd83f13c7, 0xd39a2165, 0xfb121210);
    Turn(b, 63, 0x12b1edeb, 0xd39a2165, 0x04d24d6c, 0xb85e2ce9, 0xb6ae8fff, 0xfb121210, 0x948d25b6, 0x961f4894,
         0xb21bad3d, 0xa8467f25, 0xa827b133, 0x506e3058, 0x5ef50f24);
  }

  lemma Early(b: seq<Byte>)
    requires AbcBlock(b)
    ensures At(b, 16, 0xb0fa238e, 0xc0645fde, 0xd932eb16, 0x87912990, 0x07590dcd, 0x0b92f20c, 0x745a48de, 0x1e578218)
  {
    hide Schedule;
    Given(b, 0);
    Given(b, 1);
    Given(b, 2);
    Given(b, 3);
    Given(b, 4);
    Given(b, 5);
    Given(b, 6);
    Given(b, 7);
    Given(b, 8);
    Given(b, 9);
    Given(b, 10);
    Given(b, 11);
    Given(b, 12);
    Given(b, 13);
    Given(b, 14);
    Given(b, 15);
    Rounds0(b);
    Rounds8(b);
  }

  lemma AllRounds(b: seq<Byte>)
    requires AbcBlock(b)
    ensures At(b, 64, 0x506e3058, 0xd39a2165, 0x04d24d6c, 0xb85e2ce9, 0x5ef50f24, 0xfb121210, 0x948d25b6, 0x961f4894)
  {
    hide Scheduled, At, AbcBlock;
    Early(b);
    Words16(b);
    Words24(b);
    Words32(b);
    Words40(b);
    Words48(b);
    Words56(b);
    Rounds16(b);
    Rounds24(b);
    Rounds32(b);
    Rounds40(b);
    Rounds48(b);
    Rounds56(b);
  }

  lemma AbcWords(b: seq<Byte>)
    requires AbcBlock(b) && |b| == 64
    ensures Compress(InitialHash(), b)
         == [Word(0xba7816bf), Word(0x8f01cfea), Word(0x414140de), Word(0x5dae2223), Word(0xb00361a3),
             Word(0x96177a9c), Word(0xb410ff61), Word(0xf20015ad)]
  {
    hide Schedule, Rounds, AbcBlock;
    AllRounds(b);
  }

  lemma BytesTwo(x: Word, y: Word, rest: seq<Word>)
    ensures Bytes([x, y] + rest) == Unpack(x) + Unpack(y) + Bytes(rest)
  {
    hide Unpack;
    assert ([x, y] + rest)[1..] == [y] + rest && ([y] + rest)[1..] == rest;
    assert Bytes([x, y] + rest) == Unpack(x) + Bytes([y] + rest);
  }

  lemma BytesEight(h: seq<Word>)
    requires |h| == 8
    ensures Bytes(h) == Unpack(h[0]) + Unpack(h[1]) + (Unpack(h[2]) + Unpack(h[3]) + (Unpack(h[4]) + Unpack(h[5])
                        + (Unpack(h[6]) + Unpack(h[7]))))
  {
    hide Unpack, Bytes;
    BytesEnd([]);
    BytesTwo(h[6], h[7], []);
    BytesTwo(h[4], h[5], [h[6], h[7]] + []);
    BytesTwo(h[2], h[3], [h[4], h[5]] + ([h[6], h[7]] + []));
    BytesTwo(h[0], h[1], [h[2], h[3]] + ([h[4], h[5]] + ([h[6], h[7]] + [])));
    assert h == [h[0], h[1]] + ([h[2], h[3]] + ([h[4], h[5]] + ([h[6], h[7]] + [])));
    assert Unpack(h[6]) + Unpack(h[7]) + [] == Unpack(h[6]) + Unpack(h[7]);
  }

  lemma Unpacked(x: Word, a: bv8, b: bv8, c: bv8, d: bv8)
    requires x == Pack(Byte(a), Byte(b), Byte(c), Byte(d))
    ensures Unpack(x) == [Byte(a), Byte(b), Byte(c), Byte(d)]
  {
  }

  lemma AbcBytes()
    ensures Bytes([Word(0xba7816bf), Word(0x8f01cfea), Word(0x414140de), Word(0x5dae2223), Word(0xb00361a3),
                   Word(0x96177a9c), Word(0xb410ff61), Word(0xf20015ad)])
         == [Byte(0xba), Byte(0x78), Byte(0x16), Byte(0xbf), Byte(0x8f), Byte(0x01), Byte(0xcf), Byte(0xea),
             Byte(0x41), Byte(0x41), Byte(0x40), Byte(0xde), Byte(0x5d), Byte(0xae), Byte(0x22), Byte(0x23),
                 Byte(0xb0), Byte(0x03), Byte(0x61), Byte(0xa3), Byte(0x96), Byte(0x17), Byte(0x7a), Byte(0x9c),
                     Byte(0xb4), Byte(0x10), Byte(0xff), Byte(0x61), Byte(0xf2), Byte(0x00), Byte(0x15), Byte(0xad)]
  {
    hide Unpack, Bytes;
    BytesEight([Word(0xba7816bf), Word(0x8f01cfea), Word(0x414140de), Word(0x5dae2223), Word(0xb00361a3),
                Word(0x96177a9c), Word(0xb410ff61), Word(0xf20015ad)]);
    Unpacked(Word(0xba7816bf), 0xba, 0x78, 0x16, 0xbf);
    Unpacked(Word(0x8f01cfea), 0x8f, 0x01, 0xcf, 0xea);
    Unpacked(Word(0x414140de), 0x41, 0x41, 0x40, 0xde);
    Unpacked(Word(0x5dae2223), 0x5d, 0xae, 0x22, 0x23);
    Unpacked(Word(0xb00361a3), 0xb0, 0x03, 0x61, 0xa3);
    Unpacked(Word(0x96177a9c), 0x96, 0x17, 0x7a, 0x9c);
    Unpacked(Word(0xb410ff61), 0xb4, 0x10, 0xff, 0x61);
    Unpacked(Word(0xf20015ad), 0xf2, 0x00, 0x15, 0xad);
  }

  /** The digest of "abc", both the standard's and the code's. */
  lemma AbcDigest()
    ensures Hash(ABC) == CodeHash(ABC)
         == [Byte(0xba), Byte(0x78), Byte(0x16), Byte(0xbf), Byte(0x8f), Byte(0x01), Byte(0xcf), Byte(0xea),
             Byte(0x41), Byte(0x41), Byte(0x40), Byte(0xde), Byte(0x5d), Byte(0xae), Byte(0x22), Byte(0x23),
                 Byte(0xb0), Byte(0x03), Byte(0x61), Byte(0xa3), Byte(0x96), Byte(0x17), Byte(0x7a), Byte(0x9c),
                     Byte(0xb4), Byte(0x10), Byte(0xff), Byte(0x61), Byte(0xf2), Byte(0x00), Byte(0x15), Byte(0xad)]
  {
    hide Schedule, Rounds, AbcBlock, Compress, CodePadded, Padded, InitialHash, Unpack, Bytes, HashBlocks;
    AbcPadded();
    var b := CodePadded(ABC);
    AbcLength(b);
    AbcWords(b);
    HashOne(InitialHash(), b);
    AbcBytes();
  }

  lemma AbcLength(b: seq<Byte>)
    requires AbcBlock(b)
    ensures |b| == 64
  {
  }
}
