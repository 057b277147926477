/** The digest of the empty message, block by block and round by round: the constants, the padding and the order of the
    working variables are those of the standard. */
module Sha256Vector {
  import opened Bytes
  import opened Fields
  import opened Sha256Compress
  import opened Sha256

  /** The only block of the empty message. */
  predicate First(b: seq<byte>) {
    |b| == 64 && b[0] == 0x80 && forall i :: 1 <= i < 64 ==> b[i] == 0
  }

  lemma {:induction false} ZerosAre(n: nat)
    ensures forall i :: 0 <= i < n ==> Zeros(n)[i] == 0
  {
    if n > 0 { ZerosAre(n - 1); }
  }

  lemma {:induction false} LeOfZero(n: nat)
    ensures forall i :: 0 <= i < n ==> Le(0, n)[i] == 0
  {
    if n > 0 { LeOfZero(n - 1); }
  }

  lemma PaddedEmpty()
    ensures First(Padded([]))
  {
    ZerosAre(55);
    LeOfZero(8);
    hide Zeros, Le;
  }

  lemma FirstWords(b: seq<byte>)
    requires First(b)
    ensures forall t :: 0 <= t < 16 ==> Word(b, t) == if t == 0 then 0x80000000 else 0
  {
  }

  lemma NextWord(b: seq<byte>, t: nat, w16: bv32, w15: bv32, w7: bv32, w2: bv32, w: bv32)
    requires |b| == 64 && 16 <= t < 64 && Mix(w16, w15, w7, w2) == w
    requires Word(b, t - 16) == w16 && Word(b, t - 15) == w15 && Word(b, t - 7) == w7 && Word(b, t - 2) == w2
    ensures Word(b, t) == w
  {
    hide Mix;
    WordIs(b, t);
  }

  /** A round computes two new variables and passes six on. */
  lemma NextRound(b: seq<byte>, t: nat, s: Hash, k: bv32, w: bv32, a: bv32, e: bv32) returns (s': Hash)
    requires |b| == 64 && t < 64 && Rounds(INITIAL, b, t) == s && K[t] == k && Word(b, t) == w
    requires Round(s, k, w).a == a && Round(s, k, w).e == e
    ensures s' == Hash(a, s.a, s.b, s.c, e, s.e, s.f, s.g) == Rounds(INITIAL, b, t + 1)
  {
    hide Word, Temporary1, Temporary2, Add;
    s' := Hash(a, s.a, s.b, s.c, e, s.e, s.f, s.g);
  }

  lemma Words16(b: seq<byte>)
    requires First(b)
    ensures Word(b, 16) == 0x80000000 && Word(b, 17) == 0x00000000 && Word(b, 18) == 0x00205000 && Word(b, 19) == 0x00000000
    ensures Word(b, 20) == 0x22000800 && Word(b, 21) == 0x00000000 && Word(b, 22) == 0x05089542 && Word(b, 23) == 0x80000000
    ensures Word(b, 24) == 0x58080000 && Word(b, 25) == 0x0040a000 && Word(b, 26) == 0x00162505 && Word(b, 27) == 0x66001800
    ensures Word(b, 28) == 0xd6222580 && Word(b, 29) == 0x14225508 && Word(b, 30) == 0xd645f95c && Word(b, 31) == 0xc9282000
  {
    hide Word;
    FirstWords(b);
    NextWord(b, 16, 0x80000000, 0x00000000, 0x00000000, 0x00000000, 0x80000000);
    NextWord(b, 17, 0x00000000, 0x00000000, 0x00000000, 0x00000000, 0x00000000);
    NextWord(b, 18, 0x00000000, 0x00000000, 0x00000000, 0x80000000, 0x00205000);
    NextWord(b, 19, 0x00000000, 0x00000000, 0x00000000, 0x00000000, 0x00000000);
    NextWord(b, 20, 0x00000000, 0x00000000, 0x00000000, 0x00205000, 0x22000800);
    NextWord(b, 21, 0x00000000, 0x00000000, 0x00000000, 0x00000000, 0x00000000);
    NextWord(b, 22, 0x00000000, 0x00000000, 0x00000000, 0x22000800, 0x05089542);
    NextWord(b, 23, 0x00000000, 0x00000000, 0x80000000, 0x00000000, 0x80000000);
    NextWord(b, 24, 0x00000000, 0x00000000, 0x00000000, 0x05089542, 0x58080000);
    NextWord(b, 25, 0x00000000, 0x00000000, 0x00205000, 0x80000000, 0x0040a000);
    NextWord(b, 26, 0x00000000, 0x00000000, 0x00000000, 0x58080000, 0x00162505);
    NextWord(b, 27, 0x00000000, 0x00000000, 0x22000800, 0x0040a000, 0x66001800);
    NextWord(b, 28, 0x00000000, 0x00000000, 0x00000000, 0x00162505, 0xd6222580);
    NextWord(b, 29, 0x00000000, 0x00000000, 0x05089542, 0x66001800, 0x14225508);
    NextWord(b, 30, 0x00000000, 0x00000000, 0x80000000, 0xd6222580, 0xd645f95c);
    NextWord(b, 31, 0x00000000, 0x80000000, 0x58080000, 0x14225508, 0xc9282000);
  }

  lemma Words32(b: seq<byte>)
    requires First(b)
    ensures Word(b, 32) == 0xc3f10094 && Word(b, 33) == 0x284ca766 && Word(b, 34) == 0x06886dc6 && Word(b, 35) == 0xa37bf116
    ensures Word(b, 36) == 0x717cbe96 && Word(b, 37) == 0xfec2d74a && Word(b, 38) == 0xa7b67f00 && Word(b, 39) == 0x811596a2
    ensures Word(b, 40) == 0x98a6e768 && Word(b, 41) == 0x03b20c82 && Word(b, 42) == 0x5d1da7c9 && Word(b, 43) == 0xb156b935
    ensures Word(b, 44) == 0xc3ddca11 && Word(b, 45) == 0x249c107f && Word(b, 46) == 0xc48d24ef && Word(b, 47) == 0x5de54c30
  {
    hide Word;
    Words16(b);
    NextWord(b, 32, 0x80000000, 0x00000000, 0x0040a000, 0xd645f95c, 0xc3f10094);
    NextWord(b, 33, 0x00000000, 0x00205000, 0x00162505, 0xc9282000, 0x284ca766);
    NextWord(b, 34, 0x00205000, 0x00000000, 0x66001800, 0xc3f10094, 0x06886dc6);
    NextWord(b, 35, 0x00000000, 0x22000800, 0xd6222580, 0x284ca766, 0xa37bf116);
    NextWord(b, 36, 0x22000800, 0x00000000, 0x14225508, 0x06886dc6, 0x717cbe96);
    NextWord(b, 37, 0x00000000, 0x05089542, 0xd645f95c, 0xa37bf116, 0xfec2d74a);
    NextWord(b, 38, 0x05089542, 0x80000000, 0xc9282000, 0x717cbe96, 0xa7b67f00);
    NextWord(b, 39, 0x80000000, 0x58080000, 0xc3f10094, 0xfec2d74a, 0x811596a2);
    NextWord(b, 40, 0x58080000, 0x0040a000, 0x284ca766, 0xa7b67f00, 0x98a6e768);
    NextWord(b, 41, 0x0040a000, 0x00162505, 0x06886dc6, 0x811596a2, 0x03b20c82);
    NextWord(b, 42, 0x00162505, 0x66001800, 0xa37bf116, 0x98a6e768, 0x5d1da7c9);
    NextWord(b, 43, 0x66001800, 0xd6222580, 0x717cbe96, 0x03b20c82, 0xb156b935);
    NextWord(b, 44, 0xd6222580, 0x14225508, 0xfec2d74a, 0x5d1da7c9, 0xc3ddca11);
    NextWord(b, 45, 0x14225508, 0xd645f95c, 0xa7b67f00, 0xb156b935, 0x249c107f);
    NextWord(b, 46, 0xd645f95c, 0xc9282000, 0x811596a2, 0xc3ddca11, 0xc48d24ef);
    NextWord(b, 47, 0xc9282000, 0xc3f10094, 0x98a6e768, 0x249c107f, 0x5de54c30);
  }

  lemma Words48(b: seq<byte>)
    requires First(b)
    ensures Word(b, 48) == 0xdefece65 && Word(b, 49) == 0x2ca1480d && Word(b, 50) == 0x3c15332c && Word(b, 51) == 0x01cec9ad
    ensures Word(b, 52) == 0x160cccd0 && Word(b, 53) == 0x0bacda98 && Word(b, 54) == 0x361b8fe0 && Word(b, 55) == 0xd2320ba6
    ensures Word(b, 56) == 0x029b7007 && Word(b, 57) == 0x7546587c && Word(b, 58) == 0x07f54f39 && Word(b, 59) == 0xf808ddc3
    ensures Word(b, 60) == 0xdcca7608 && Word(b, 61) == 0x5e427188 && Word(b, 62) == 0x44bcec5d && Word(b, 63) == 0x3b5ec49b
  {
    hide Word;
    Words32(b);
    NextWord(b, 48, 0xc3f10094, 0x284ca766, 0x03b20c82, 0xc48d24ef, 0xdefece65);
    NextWord(b, 49, 0x284ca766, 0x06886dc6, 0x5d1da7c9, 0x5de54c30, 0x2ca1480d);
    NextWord(b, 50, 0x06886dc6, 0xa37bf116, 0xb156b935, 0xdefece65, 0x3c15332c);
    NextWord(b, 51, 0xa37bf116, 0x717cbe96, 0xc3ddca11, 0x2ca1480d, 0x01cec9ad);
    NextWord(b, 52, 0x717cbe96, 0xfec2d74a, 0x249c107f, 0x3c15332c, 0x160cccd0);
    NextWord(b, 53, 0xfec2d74a, 0xa7b67f00, 0xc48d24ef, 0x01cec9ad, 0x0bacda98);
    NextWord(b, 54, 0xa7b67f00, 0x811596a2, 0x5de54c30, 0x160cccd0, 0x361b8fe0);
    NextWord(b, 55, 0x811596a2, 0x98a6e768, 0xdefece65, 0x0bacda98, 0xd2320ba6);
    NextWord(b, 56, 0x98a6e768, 0x03b20c82, 0x2ca1480d, 0x361b8fe0, 0x029b7007);
    NextWord(b, 57, 0x03b20c82, 0x5d1da7c9, 0x3c15332c, 0xd2320ba6, 0x7546587c);
    NextWord(b, 58, 0x5d1da7c9, 0xb156b935, 0x01cec9ad, 0x029b7007, 0x07f54f39);
    NextWord(b, 59, 0xb156b935, 0xc3ddca11, 0x160cccd0, 0x7546587c, 0xf808ddc3);
    NextWord(b, 60, 0xc3ddca11, 0x249c107f, 0x0bacda98, 0x07f54f39, 0xdcca7608);
    NextWord(b, 61, 0x249c107f, 0xc48d24ef, 0x361b8fe0, 0xf808ddc3, 0x5e427188);
    NextWord(b, 62, 0xc48d24ef, 0x5de54c30, 0xd2320ba6, 0xdcca7608, 0x44bcec5d);
    NextWord(b, 63, 0x5de54c30, 0xdefece65, 0x029b7007, 0x5e427188, 0x3b5ec49b);
  }

  lemma Rounds0(b: seq<byte>) returns (s: Hash)
    requires First(b)
    ensures s == Hash(0x7ad5b1b6, 0xf0205590, 0x292e3b42, 0x4366f730, 0x53f94dcb, 0x82ede06f, 0x4f6540fa, 0xe7d0641e)
    ensures Rounds(INITIAL, b, 8) == s
  {
    hide Word, Rounds;
    FirstWords(b);
    NoRounds(b);
    s := INITIAL;
    s := NextRound(b, 0, s, 0x428a2f98, 0x80000000, 0x7c08884d, 0x18c7e2a2);
    s := NextRound(b, 1, s, 0x71374491, 0x00000000, 0x9ce564d0, 0x2001b256);
    s := NextRound(b, 2, s, 0xb5c0fbcf, 0x00000000, 0xc4ac5526, 0x6fdb22fa);
    s := NextRound(b, 3, s, 0xe9b5dba5, 0x00000000, 0x4c23eacb, 0x3037e1b5);
    s := NextRound(b, 4, s, 0x3956c25b, 0x00000000, 0x4366f730, 0xe7d0641e);
    s := NextRound(b, 5, s, 0x59f111f1, 0x00000000, 0x292e3b42, 0x4f6540fa);
    s := NextRound(b, 6, s, 0x923f82a4, 0x00000000, 0xf0205590, 0x82ede06f);
    s := NextRound(b, 7, s, 0xab1c5ed5, 0x00000000, 0x7ad5b1b6, 0x53f94dcb);
  }

  lemma Rounds8(b: seq<byte>) returns (s: Hash)
    requires First(b)
    ensures s == Hash(0xb40085b5, 0xb88afddb, 0x45c013a7, 0x2102d2cd, 0x5cb8e863, 0x1ccfac39, 0x2b427296, 0xcdfdfe52)
    ensures Rounds(INITIAL, b, 16) == s
  {
    hide Word, Rounds;
    FirstWords(b);
    s := Rounds0(b);
    s := NextRound(b, 8, s, 0xd807aa98, 0x00000000, 0xf52d63a5, 0x7aafc618);
    s := NextRound(b, 9, s, 0x12835b01, 0x00000000, 0xefe8bf51, 0x53072289);
    s := NextRound(b, 10, s, 0x243185be, 0x00000000, 0x158bb921, 0xe23643ce);
    s := NextRound(b, 11, s, 0x550c7dc3, 0x00000000, 0xf5434c40, 0xd7e07c92);
    s := NextRound(b, 12, s, 0x72be5d74, 0x00000000, 0x2102d2cd, 0xcdfdfe52);
    s := NextRound(b, 13, s, 0x80deb1fe, 0x00000000, 0x45c013a7, 0x2b427296);
    s := NextRound(b, 14, s, 0x9bdc06a7, 0x00000000, 0xb88afddb, 0x1ccfac39);
    s := NextRound(b, 15, s, 0xc19bf174, 0x00000000, 0xb40085b5, 0x5cb8e863);
  }

  lemma Rounds16(b: seq<byte>) returns (s: Hash)
    requires First(b)
    ensures s == Hash(0x985bed55, 0x404d8054, 0x99a6cb19, 0x75c7f0d8, 0x2c2c028d, 0xb1653710, 0xc287981e, 0x39953ccd)
    ensures Rounds(INITIAL, b, 24) == s
  {
    hide Word, Rounds;
    Words16(b);
    s := Rounds8(b);
    s := NextRound(b, 16, s, 0xe49b69c1, 0x80000000, 0x470d554a, 0x70d43aa7);
    s := NextRound(b, 17, s, 0xefbe4786, 0x00000000, 0xdd999a2b, 0x608c93d3);
    s := NextRound(b, 18, s, 0x0fc19dc6, 0x00205000, 0x3067996a, 0xd398dcea);
    s := NextRound(b, 19, s, 0x240ca1cc, 0x00000000, 0x0a480908, 0x900d27ac);
    s := NextRound(b, 20, s, 0x2de92c6f, 0x22000800, 0x75c7f0d8, 0x39953ccd);
    s := NextRound(b, 21, s, 0x4a7484aa, 0x00000000, 0x99a6cb19, 0xc287981e);
    s := NextRound(b, 22, s, 0x5cb0a9dc, 0x05089542, 0x404d8054, 0xb1653710);
    s := NextRound(b, 23, s, 0x76f988da, 0x80000000, 0x985bed55, 0x2c2c028d);
  }

  lemma Rounds24(b: seq<byte>) returns (s: Hash)
    requires First(b)
    ensures s == Hash(0x11e7025f, 0xa0bb0cdf, 0x72d3a00d, 0x64bc9e1c, 0xbbd7846c, 0x564a6626, 0xb04ab22d, 0x95696b75)
    ensures Rounds(INITIAL, b, 32) == s
  {
    hide Word, Rounds;
    Words16(b);
    s := Rounds16(b);
    s := NextRound(b, 24, s, 0x983e5152, 0x58080000, 0x7af6d48d, 0xf55f8c25);
    s := NextRound(b, 25, s, 0xa831c66d, 0x0040a000, 0xc5b814ae, 0xe57ac3f4);
    s := NextRound(b, 26, s, 0xb00327c8, 0x00162505, 0x2c8b2ab9, 0x9f934283);
    s := NextRound(b, 27, s, 0xbf597fc7, 0x66001800, 0x6d8cc697, 0x66ed54fa);
    s := NextRound(b, 28, s, 0xc6e00bf3, 0xd6222580, 0x64bc9e1c, 0x95696b75);
    s := NextRound(b, 29, s, 0xd5a79147, 0x14225508, 0x72d3a00d, 0xb04ab22d);
    s := NextRound(b, 30, s, 0x06ca6351, 0xd645f95c, 0xa0bb0cdf, 0x564a6626);
    s := NextRound(b, 31, s, 0x14292967, 0xc9282000, 0x11e7025f, 0xbbd7846c);
  }

  lemma Rounds32(b: seq<byte>) returns (s: Hash)
    requires First(b)
    ensures s == Hash(0x499911b1, 0x9e58e42f, 0x56e3dc4e, 0xa096535d, 0x716bb025, 0x85a71424, 0xe807ea7f, 0xfac06aed)
    ensures Rounds(INITIAL, b, 40) == s
  {
    hide Word, Rounds;
    Words32(b);
    s := Rounds24(b);
    s := NextRound(b, 32, s, 0x27b70a85, 0xc3f10094, 0xe390f3b6, 0xccd25d8b);
    s := NextRound(b, 33, s, 0x2e1b2138, 0x284ca766, 0xa141b695, 0x0bc457df);
    s := NextRound(b, 34, s, 0x4d2c6dfc, 0x06886dc6, 0x44a181a7, 0x6973aac2);
    s := NextRound(b, 35, s, 0x53380d13, 0xa37bf116, 0x641fe878, 0x3a705ea9);
    s := NextRound(b, 36, s, 0x650a7354, 0x717cbe96, 0xa096535d, 0xfac06aed);
    s := NextRound(b, 37, s, 0x766a0abb, 0xfec2d74a, 0x56e3dc4e, 0xe807ea7f);
    s := NextRound(b, 38, s, 0x81c2c92e, 0xa7b67f00, 0x9e58e42f, 0x85a71424);
    s := NextRound(b, 39, s, 0x92722c85, 0x811596a2, 0x499911b1, 0x716bb025);
  }

  lemma Rounds40(b: seq<byte>) returns (s: Hash)
    requires First(b)
    ensures s == Hash(0x365a34cd, 0x54982d6c, 0x32fa442b, 0xa40972d4, 0xcbb3f8eb, 0x8a6a82b2, 0xd285c679, 0xaa2c1810)
    ensures Rounds(INITIAL, b, 48) == s
  {
    hide Word, Rounds;
    Words32(b);
    s := Rounds32(b);
    s := NextRound(b, 40, s, 0xa2bfe8a1, 0x98a6e768, 0xfe86c833, 0x849879df);
    s := NextRound(b, 41, s, 0xa81a664b, 0x03b20c82, 0x2298f88e, 0xf5c58ae9);
    s := NextRound(b, 42, s, 0xc24b8b70, 0x5d1da7c9, 0xdbb545ab, 0xe0403eb9);
    s := NextRound(b, 43, s, 0xc76c51a3, 0xb156b935, 0xe8e34752, 0x29426caa);
    s := NextRound(b, 44, s, 0xd192e819, 0xc3ddca11, 0xa40972d4, 0xaa2c1810);
    s := NextRound(b, 45, s, 0xd6990624, 0x249c107f, 0x32fa442b, 0xd285c679);
    s := NextRound(b, 46, s, 0xf40e3585, 0xc48d24ef, 0x54982d6c, 0x8a6a82b2);
    s := NextRound(b, 47, s, 0x106aa070, 0x5de54c30, 0x365a34cd, 0xcbb3f8eb);
  }

  lemma Rounds48(b: seq<byte>) returns (s: Hash)
    requires First(b)
    ensures s == Hash(0x01638014, 0x2caf58ca, 0x3a0e9477, 0xb1b29c90, 0xadf94e0a, 0xe588e598, 0xfd99936e, 0x43a5def8)
    ensures Rounds(INITIAL, b, 56) == s
  {
    hide Word, Rounds;
    Words48(b);
    s := Rounds40(b);
    s := NextRound(b, 48, s, 0x19a4c116, 0xdefece65, 0x62a82a5e, 0x4cab6d8a);
    s := NextRound(b, 49, s, 0x1e376c08, 0x2ca1480d, 0x9798f5ed, 0xe90aa770);
    s := NextRound(b, 50, s, 0x2748774c, 0x3c15332c, 0xc163cb21, 0x36068bde);
    s := NextRound(b, 51, s, 0x34b0bcb5, 0x01cec9ad, 0xd55e06c2, 0xa194d14f);
    s := NextRound(b, 52, s, 0x391c0cb3, 0x160cccd0, 0xb1b29c90, 0x43a5def8);
    s := NextRound(b, 53, s, 0x4ed8aa4a, 0x0bacda98, 0x3a0e9477, 0xfd99936e);
    s := NextRound(b, 54, s, 0x5b9cca4f, 0x361b8fe0, 0x2caf58ca, 0xe588e598);
    s := NextRound(b, 55, s, 0x682e6ff3, 0xd2320ba6, 0x01638014, 0xadf94e0a);
  }

  lemma Rounds56(b: seq<byte>) returns (s: Hash)
    requires First(b)
    ensures s == Hash(0x79a6dddb, 0xdd946d8f, 0x5e8d0156, 0xf41fc3ea, 0xd69fef65, 0xc9962ac0, 0x8511bf70, 0x1c71eb3c)
    ensures Rounds(INITIAL, b, 64) == s
  {
    hide Word, Rounds;
    Words48(b);
    s := Rounds48(b);
    s := NextRound(b, 56, s, 0x748f82ee, 0x029b7007, 0x7ec75212, 0x7951a330);
    s := NextRound(b, 57, s, 0x78a5636f, 0x7546587c, 0xe7ec45bc, 0xe2a91edc);
    s := NextRound(b, 58, s, 0x84c87814, 0x07f54f39, 0xe923abc6, 0x08e0e6ea);
    s := NextRound(b, 59, s, 0x8cc70208, 0xf808ddc3, 0x04441c0e, 0xaaefa044);
    s := NextRound(b, 60, s, 0x90befffa, 0xdcca7608, 0xf41fc3ea, 0x1c71eb3c);
    s := NextRound(b, 61, s, 0xa4506ceb, 0x5e427188, 0x5e8d0156, 0x8511bf70);
    s := NextRound(b, 62, s, 0xbef9a3f7, 0x44bcec5d, 0xdd946d8f, 0xc9962ac0);
    s := NextRound(b, 63, s, 0xc67178f2, 0x3b5ec49b, 0x79a6dddb, 0xd69fef65);
  }

  lemma NoRounds(b: seq<byte>)
    requires |b| == 64
    ensures Rounds(INITIAL, b, 0) == INITIAL
  {
  }

  /** The hash of the empty message. */
  lemma HashOfEmpty()
    ensures HashOf([]) == Hash(0xe3b0c442, 0x98fc1c14, 0x9afbf4c8, 0x996fb924, 0x27ae41e4, 0x649b934c, 0xa495991b, 0x7852b855)
  {
    hide Rounds, Padded, Plus;
    PaddedEmpty();
    var s := Rounds56(Padded([]));
    assert Padded([])[0..64] == Padded([]);
    assert HashOf([]) == Compress(INITIAL, Padded([]));
    LastSum();
  }

  lemma LastSum()
    ensures Plus(INITIAL, Hash(0x79a6dddb, 0xdd946d8f, 0x5e8d0156, 0xf41fc3ea, 0xd69fef65, 0xc9962ac0, 0x8511bf70, 0x1c71eb3c)) == Hash(0xe3b0c442, 0x98fc1c14, 0x9afbf4c8, 0x996fb924, 0x27ae41e4, 0x649b934c, 0xa495991b, 0x7852b855)
  {
  }
}
