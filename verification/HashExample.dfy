/**
 The published example of FIPS 180-4, the digest of "abc", worked out word by word and round by
 round. It fixes every rotation, shift, constant and order of the definitions.
 */
module HashExample {
  import opened Bytes
  import opened Fips180
  import opened HashConstants

  const ABC: seq<Byte> := [0x61, 0x62, 0x63]

  // Its digest, four octets at a time.
  function AbcDigest(i: nat): seq<Byte>
    requires i < 8
  {
    match i
    case 0 => [0xba, 0x78, 0x16, 0xbf]
    case 1 => [0x8f, 0x01, 0xcf, 0xea]
    case 2 => [0x41, 0x41, 0x40, 0xde]
    case 3 => [0x5d, 0xae, 0x22, 0x23]
    case 4 => [0xb0, 0x03, 0x61, 0xa3]
    case 5 => [0x96, 0x17, 0x7a, 0x9c]
    case 6 => [0xb4, 0x10, 0xff, 0x61]
    case _ => [0xf2, 0x00, 0x15, 0xad]
  }

  // The same as words.
  const ABC_HASH: seq<Word> := [
    0xba7816bf, 0x8f01cfea, 0x414140de, 0x5dae2223, 0xb00361a3, 0x96177a9c, 0xb410ff61, 0xf20015ad]

  // The one block of the padded message.
  ghost predicate IsAbcBlock(b: seq<Byte>): (yes: bool)
    ensures yes ==> |b| == 64
  {
    b == ABC + [0x80] + Zeros(59) + [0x18]
  }

  // ------------------------------------------------------------------------------- schedule

  lemma FirstWord(b: seq<Byte>, t: nat)
    requires IsAbcBlock(b) && t < 16
    ensures Schedule(b, t) == if t == 0 then 0x61626380 else if t == 15 then 0x18 else 0
  {
    hide BigEndianWord;
    WordOfBytes(b[4 * t], b[4 * t + 1], b[4 * t + 2], b[4 * t + 3]);
  }

  lemma WordOfBytes(b0: Byte, b1: Byte, b2: Byte, b3: Byte)
    ensures b0 == 0x61 && b1 == 0x62 && b2 == 0x63 && b3 == 0x80 ==>
              BigEndianWord(b0, b1, b2, b3) == 0x61626380
    ensures b0 == b1 == b2 == 0 && b3 == 0x18 ==> BigEndianWord(b0, b1, b2, b3) == 0x18
    ensures b0 == b1 == b2 == b3 == 0 ==> BigEndianWord(b0, b1, b2, b3) == 0
  {
  }

  lemma NextWord(b: seq<Byte>, t: nat)
    requires |b| == 64 && 16 <= t < 64
    ensures Schedule(b, t) ==
              Add(Add(Add(SmallSigma1(Schedule(b, t - 2)), Schedule(b, t - 7)),
                      SmallSigma0(Schedule(b, t - 15))),
                  Schedule(b, t - 16))
  {
  }

  lemma WordsTo16(b: seq<Byte>)
    requires IsAbcBlock(b)
    ensures Schedule(b, 0) == 0x61626380 && Schedule(b, 15) == 0x18
    ensures Schedule(b, 1) == 0 && Schedule(b, 2) == 0 && Schedule(b, 3) == 0 && Schedule(b, 4) == 0
    ensures Schedule(b, 5) == 0 && Schedule(b, 6) == 0 && Schedule(b, 7) == 0 && Schedule(b, 8) == 0
    ensures Schedule(b, 9) == 0 && Schedule(b, 10) == 0 && Schedule(b, 11) == 0 && Schedule(b, 12) == 0
    ensures Schedule(b, 13) == 0 && Schedule(b, 14) == 0
  {
    hide Schedule, IsAbcBlock;
    forall t | 0 <= t < 16
      ensures Schedule(b, t) == if t == 0 then 0x61626380 else if t == 15 then 0x18 else 0
    {
      FirstWord(b, t);
    }
  }

  lemma WordsTo24(b: seq<Byte>)
    requires IsAbcBlock(b)
    ensures Schedule(b, 16) == 0x61626380 && Schedule(b, 17) == 0x000f0000
    ensures Schedule(b, 18) == 0x7da86405 && Schedule(b, 19) == 0x600003c6
    ensures Schedule(b, 20) == 0x3e9d7b78 && Schedule(b, 21) == 0x0183fc00
    ensures Schedule(b, 22) == 0x12dcbfdb && Schedule(b, 23) == 0xe2e2c38e
  {
    hide Schedule, IsAbcBlock;
    WordsTo16(b);
    NextWord(b, 16); NextWord(b, 17); NextWord(b, 18); NextWord(b, 19);
    NextWord(b, 20); NextWord(b, 21); NextWord(b, 22); NextWord(b, 23);
  }

  lemma WordsTo32(b: seq<Byte>)
    requires IsAbcBlock(b)
    ensures Schedule(b, 24) == 0xc8215c1a && Schedule(b, 25) == 0xb73679a2
    ensures Schedule(b, 26) == 0xe5bc3909 && Schedule(b, 27) == 0x32663c5b
    ensures Schedule(b, 28) == 0x9d209d67 && Schedule(b, 29) == 0xec8726cb
    ensures Schedule(b, 30) == 0x702138a4 && Schedule(b, 31) == 0xd3b7973b
  {
    hide Schedule, IsAbcBlock;
    WordsTo16(b); WordsTo24(b);
    NextWord(b, 24); NextWord(b, 25); NextWord(b, 26); NextWord(b, 27);
    NextWord(b, 28); NextWord(b, 29); NextWord(b, 30); NextWord(b, 31);
  }

  lemma WordsTo40(b: seq<Byte>)
    requires IsAbcBlock(b)
    ensures Schedule(b, 32) == 0x93f5997f && Schedule(b, 33) == 0x3b68ba73
    ensures Schedule(b, 34) == 0xaff4ffc1 && Schedule(b, 35) == 0xf10a5c62
    ensures Schedule(b, 36) == 0x0a8b3996 && Schedule(b, 37) == 0x72af830a
    ensures Schedule(b, 38) == 0x9409e33e && Schedule(b, 39) == 0x24641522
  {
    hide Schedule, IsAbcBlock;
    WordsTo24(b); WordsTo32(b);
    NextWord(b, 32); NextWord(b, 33); NextWord(b, 34); NextWord(b, 35);
    NextWord(b, 36); NextWord(b, 37); NextWord(b, 38); NextWord(b, 39);
  }

  lemma WordsTo48(b: seq<Byte>)
    requires IsAbcBlock(b)
    ensures Schedule(b, 40) == 0x9f47bf94 && Schedule(b, 41) == 0xf0a64f5a
    ensures Schedule(b, 42) == 0x3e246a79 && Schedule(b, 43) == 0x27333ba3
    ensures Schedule(b, 44) == 0x0c4763f2 && Schedule(b, 45) == 0x840abf27
    ensures Schedule(b, 46) == 0x7a290d5d && Schedule(b, 47) == 0x065c43da
  {
    hide Schedule, IsAbcBlock;
    WordsTo32(b); WordsTo40(b);
    NextWord(b, 40); NextWord(b, 41); NextWord(b, 42); NextWord(b, 43);
    NextWord(b, 44); NextWord(b, 45); NextWord(b, 46); NextWord(b, 47);
  }

  lemma WordsTo56(b: seq<Byte>)
    requires IsAbcBlock(b)
    ensures Schedule(b, 48) == 0xfb3e89cb && Schedule(b, 49) == 0xcc7617db
    ensures Schedule(b, 50) == 0xb9e66c34 && Schedule(b, 51) == 0xa9993667
    ensures Schedule(b, 52) == 0x84badedd && Schedule(b, 53) == 0xc21462bc
    ensures Schedule(b, 54) == 0x1487472c && Schedule(b, 55) == 0xb20f7a99
  {
    hide Schedule, IsAbcBlock;
    WordsTo40(b); WordsTo48(b);
    NextWord(b, 48); NextWord(b, 49); NextWord(b, 50); NextWord(b, 51);
    NextWord(b, 52); NextWord(b, 53); NextWord(b, 54); NextWord(b, 55);
  }

  lemma WordsTo64(b: seq<Byte>)
    requires IsAbcBlock(b)
    ensures Schedule(b, 56) == 0xef57b9cd && Schedule(b, 57) == 0xebe6b238
    ensures Schedule(b, 58) == 0x9fe3095e && Schedule(b, 59) == 0x78bc8d4b
    ensures Schedule(b, 60) == 0xa43fcf15 && Schedule(b, 61) == 0x668b2ff8
    ensures Schedule(b, 62) == 0xeeaba2cc && Schedule(b, 63) == 0x12b1edeb
  {
    hide Schedule, IsAbcBlock;
    WordsTo48(b); WordsTo56(b);
    NextWord(b, 56); NextWord(b, 57); NextWord(b, 58); NextWord(b, 59);
    NextWord(b, 60); NextWord(b, 61); NextWord(b, 62); NextWord(b, 63);
  }

  // ------------------------------------------------------------------------------- rounds

  lemma Advance(b: seq<Byte>, t: nat, w: Working, k: Word, x: Word) returns (next: Working)
    requires |b| == 64 && t < 64
    requires Rounds(InitialHash(), b, t) == w && RoundConstant(t) == k && Schedule(b, t) == x
    ensures Rounds(InitialHash(), b, t + 1) == next == Round(w, k, x)
  {
    next := Rounds(InitialHash(), b, t + 1);
  }

  lemma RoundsTo8(b: seq<Byte>)
    requires IsAbcBlock(b)
    ensures Rounds(InitialHash(), b, 8)
         == Working(0x85a07b5f, 0xe5030380, 0x2b4209f5, 0x04409a6a,
                    0x0c657a79, 0x9b27a401, 0x714260ad, 0x43ada245)
  {
    hide Schedule, Rounds, InitialHash, IsAbcBlock;
    RoundsStart(b);
    WordsTo16(b);
    var w := Working(0x6a09e667, 0xbb67ae85, 0x3c6ef372, 0xa54ff53a,
                     0x510e527f, 0x9b05688c, 0x1f83d9ab, 0x5be0cd19);
    w := Advance(b, 0, w, 0x428a2f98, 0x61626380); assert w.a == 0x5d6aebcd && w.e == 0xfa2a4622;
    w := Advance(b, 1, w, 0x71374491, 0x00000000); assert w.a == 0x5a6ad9ad && w.e == 0x78ce7989;
    w := Advance(b, 2, w, 0xb5c0fbcf, 0x00000000); assert w.a == 0xc8c347a7 && w.e == 0xf92939eb;
    w := Advance(b, 3, w, 0xe9b5dba5, 0x00000000); assert w.a == 0xd550f666 && w.e == 0x24e00850;
    w := Advance(b, 4, w, 0x3956c25b, 0x00000000); assert w.a == 0x04409a6a && w.e == 0x43ada245;
    w := Advance(b, 5, w, 0x59f111f1, 0x00000000); assert w.a == 0x2b4209f5 && w.e == 0x714260ad;
    w := Advance(b, 6, w, 0x923f82a4, 0x00000000); assert w.a == 0xe5030380 && w.e == 0x9b27a401;
    w := Advance(b, 7, w, 0xab1c5ed5, 0x00000000); assert w.a == 0x85a07b5f && w.e == 0x0c657a79;
  }

  lemma RoundsTo16(b: seq<Byte>)
    requires IsAbcBlock(b)
    ensures Rounds(InitialHash(), b, 16)
         == Working(0xb0fa238e, 0xc0645fde, 0xd932eb16, 0x87912990,
                    0x07590dcd, 0x0b92f20c, 0x745a48de, 0x1e578218)
  {
    hide Schedule, Rounds, InitialHash, IsAbcBlock;
    RoundsTo8(b);
    WordsTo16(b);
    var w := Working(0x85a07b5f, 0xe5030380, 0x2b4209f5, 0x04409a6a,
                     0x0c657a79, 0x9b27a401, 0x714260ad, 0x43ada245);
    w := Advance(b, 8, w, 0xd807aa98, 0x00000000); assert w.a == 0x8e04ecb9 && w.e == 0x32ca2d8c;
    w := Advance(b, 9, w, 0x12835b01, 0x00000000); assert w.a == 0x8c87346b && w.e == 0x1cc92596;
    w := Advance(b, 10, w, 0x243185be, 0x00000000); assert w.a == 0x4798a3f4 && w.e == 0x436b23e8;
    w := Advance(b, 11, w, 0x550c7dc3, 0x00000000); assert w.a == 0xf71fc5a9 && w.e == 0x816fd6e9;
    w := Advance(b, 12, w, 0x72be5d74, 0x00000000); assert w.a == 0x87912990 && w.e == 0x1e578218;
    w := Advance(b, 13, w, 0x80deb1fe, 0x00000000); assert w.a == 0xd932eb16 && w.e == 0x745a48de;
    w := Advance(b, 14, w, 0x9bdc06a7, 0x00000000); assert w.a == 0xc0645fde && w.e == 0x0b92f20c;
    w := Advance(b, 15, w, 0xc19bf174, 0x00000018); assert w.a == 0xb0fa238e && w.e == 0x07590dcd;
  }

  lemma RoundsTo24(b: seq<Byte>)
    requires IsAbcBlock(b)
    ensures Rounds(InitialHash(), b, 24)
         == Working(0xc5d53d8d, 0xa7a3623f, 0xc2606d6d, 0x9dc68b63,
                    0xaa47c347, 0x49f5114a, 0xe1257970, 0x8ada8930)
  {
    hide Schedule, Rounds, InitialHash, IsAbcBlock;
    RoundsTo16(b);
    WordsTo24(b);
    var w := Working(0xb0fa238e, 0xc0645fde, 0xd932eb16, 0x87912990,
                     0x07590dcd, 0x0b92f20c, 0x745a48de, 0x1e578218);
    w := Advance(b, 16, w, 0xe49b69c1, 0x61626380); assert w.a == 0x21da9a9b && w.e == 0x8034229c;
    w := Advance(b, 17, w, 0xefbe4786, 0x000f0000); assert w.a == 0xc2fbd9d1 && w.e == 0x846ee454;
    w := Advance(b, 18, w, 0x0fc19dc6, 0x7da86405); assert w.a == 0xfe777bbf && w.e == 0xcc899961;
    w := Advance(b, 19, w, 0x240ca1cc, 0x600003c6); assert w.a == 0xe1f20c33 && w.e == 0xb0638179;
    w := Advance(b, 20, w, 0x2de92c6f, 0x3e9d7b78); assert w.a == 0x9dc68b63 && w.e == 0x8ada8930;
    w := Advance(b, 21, w, 0x4a7484aa, 0x0183fc00); assert w.a == 0xc2606d6d && w.e == 0xe1257970;
    w := Advance(b, 22, w, 0x5cb0a9dc, 0x12dcbfdb); assert w.a == 0xa7a3623f && w.e == 0x49f5114a;
    w := Advance(b, 23, w, 0x76f988da, 0xe2e2c38e); assert w.a == 0xc5d53d8d && w.e == 0xaa47c347;
  }

  lemma RoundsTo32(b: seq<Byte>)
    requires IsAbcBlock(b)
    ensures Rounds(InitialHash(), b, 32)
         == Working(0x73b33bf5, 0xea992a22, 0xa0060b30, 0x363482c9,
                    0xba591112, 0x0109ab3a, 0xade79437, 0x6112a3b7)
  {
    hide Schedule, Rounds, InitialHash, IsAbcBlock;
    RoundsTo24(b);
    WordsTo32(b);
    var w := Working(0xc5d53d8d, 0xa7a3623f, 0xc2606d6d, 0x9dc68b63,
                     0xaa47c347, 0x49f5114a, 0xe1257970, 0x8ada8930);
    w := Advance(b, 24, w, 0x983e5152, 0xc8215c1a); assert w.a == 0x1c2c2838 && w.e == 0x2823ef91;
    w := Advance(b, 25, w, 0xa831c66d, 0xb73679a2); assert w.a == 0xcde8037d && w.e == 0x14383d8e;
    w := Advance(b, 26, w, 0xb00327c8, 0xe5bc3909); assert w.a == 0xb62ec4bc && w.e == 0xc74c6516;
    w := Advance(b, 27, w, 0xbf597fc7, 0x32663c5b); assert w.a == 0x77d37528 && w.e == 0xedffbff8;
    w := Advance(b, 28, w, 0xc6e00bf3, 0x9d209d67); assert w.a == 0x363482c9 && w.e == 0x6112a3b7;
    w := Advance(b, 29, w, 0xd5a79147, 0xec8726cb); assert w.a == 0xa0060b30 && w.e == 0xade79437;
    w := Advance(b, 30, w, 0x06ca6351, 0x702138a4); assert w.a == 0xea992a22 && w.e == 0x0109ab3a;
    w := Advance(b, 31, w, 0x14292967, 0xd3b7973b); assert w.a == 0x73b33bf5 && w.e == 0xba591112;
  }

  lemma RoundsTo40(b: seq<Byte>)
    requires IsAbcBlock(b)
    ensures Rounds(InitialHash(), b, 40)
         == Working(0x79ea687a, 0x6dc57a8a, 0x34df1604, 0x41a65cb1,
                    0x1efbc0a0, 0xf0781bc8, 0xa507a53d, 0x0772a26b)
  {
    hide Schedule, Rounds, InitialHash, IsAbcBlock;
    RoundsTo32(b);
    WordsTo40(b);
    var w := Working(0x73b33bf5, 0xea992a22, 0xa0060b30, 0x363482c9,
                     0xba591112, 0x0109ab3a, 0xade79437, 0x6112a3b7);
    w := Advance(b, 32, w, 0x27b70a85, 0x93f5997f); assert w.a == 0x98e12507 && w.e == 0x9cd9f5f6;
    w := Advance(b, 33, w, 0x2e1b2138, 0x3b68ba73); assert w.a == 0xfe604df5 && w.e == 0x59249dd3;
    w := Advance(b, 34, w, 0x4d2c6dfc, 0xaff4ffc1); assert w.a == 0xa9a7738c && w.e == 0x085f3833;
    w := Advance(b, 35, w, 0x53380d13, 0xf10a5c62); assert w.a == 0x65a0cfe4 && w.e == 0xf4b002d6;
    w := Advance(b, 36, w, 0x650a7354, 0x0a8b3996); assert w.a == 0x41a65cb1 && w.e == 0x0772a26b;
    w := Advance(b, 37, w, 0x766a0abb, 0x72af830a); assert w.a == 0x34df1604 && w.e == 0xa507a53d;
    w := Advance(b, 38, w, 0x81c2c92e, 0x9409e33e); assert w.a == 0x6dc57a8a && w.e == 0xf0781bc8;
    w := Advance(b, 39, w, 0x92722c85, 0x24641522); assert w.a == 0x79ea687a && w.e == 0x1efbc0a0;
  }

  lemma RoundsTo48(b: seq<Byte>)
    requires IsAbcBlock(b)
    ensures Rounds(InitialHash(), b, 48)
         == Working(0x4172328d, 0xa14c14b0, 0x72ab4b91, 0x26628815,
                    0xfecf0bc6, 0xd57b94a9, 0xb7755da1, 0xa80f11f0)
  {
    hide Schedule, Rounds, InitialHash, IsAbcBlock;
    RoundsTo40(b);
    WordsTo48(b);
    var w := Working(0x79ea687a, 0x6dc57a8a, 0x34df1604, 0x41a65cb1,
                     0x1efbc0a0, 0xf0781bc8, 0xa507a53d, 0x0772a26b);
    w := Advance(b, 40, w, 0xa2bfe8a1, 0x9f47bf94); assert w.a == 0xd6670766 && w.e == 0x26352d63;
    w := Advance(b, 41, w, 0xa81a664b, 0xf0a64f5a); assert w.a == 0xdf46652f && w.e == 0x838b2711;
    w := Advance(b, 42, w, 0xc24b8b70, 0x3e246a79); assert w.a == 0x17aa0dfe && w.e == 0xdecd4715;
    w := Advance(b, 43, w, 0xc76c51a3, 0x27333ba3); assert w.a == 0x9d4baf93 && w.e == 0xfda24c2e;
    w := Advance(b, 44, w, 0xd192e819, 0x0c4763f2); assert w.a == 0x26628815 && w.e == 0xa80f11f0;
    w := Advance(b, 45, w, 0xd6990624, 0x840abf27); assert w.a == 0x72ab4b91 && w.e == 0xb7755da1;
    w := Advance(b, 46, w, 0xf40e3585, 0x7a290d5d); assert w.a == 0xa14c14b0 && w.e == 0xd57b94a9;
    w := Advance(b, 47, w, 0x106aa070, 0x065c43da); assert w.a == 0x4172328d && w.e == 0xfecf0bc6;
  }

  lemma RoundsTo56(b: seq<Byte>)
    requires IsAbcBlock(b)
    ensures Rounds(InitialHash(), b, 56)
         == Working(0x38cc9913, 0x3ec45cdb, 0xf5702fdb, 0x101fd28f,
                    0x54cb266b, 0xe50e1b4f, 0x9f4787c3, 0x529e7d00)
  {
    hide Schedule, Rounds, InitialHash, IsAbcBlock;
    RoundsTo48(b);
    WordsTo56(b);
    var w := Working(0x4172328d, 0xa14c14b0, 0x72ab4b91, 0x26628815,
                     0xfecf0bc6, 0xd57b94a9, 0xb7755da1, 0xa80f11f0);
    w := Advance(b, 48, w, 0x19a4c116, 0xfb3e89cb); assert w.a == 0x05757ceb && w.e == 0xbd714038;
    w := Advance(b, 49, w, 0x1e376c08, 0xcc7617db); assert w.a == 0xf11bfaa8 && w.e == 0x6e5c390c;
    w := Advance(b, 50, w, 0x2748774c, 0xb9e66c34); assert w.a == 0x7a0508a1 && w.e == 0x52f1ccf7;
    w := Advance(b, 51, w, 0x34b0bcb5, 0xa9993667); assert w.a == 0x886e7a22 && w.e == 0x49231c1e;
    w := Advance(b, 52, w, 0x391c0cb3, 0x84badedd); assert w.a == 0x101fd28f && w.e == 0x529e7d00;
    w := Advance(b, 53, w, 0x4ed8aa4a, 0xc21462bc); assert w.a == 0xf5702fdb && w.e == 0x9f4787c3;
    w := Advance(b, 54, w, 0x5b9cca4f, 0x1487472c); assert w.a == 0x3ec45cdb && w.e == 0xe50e1b4f;
    w := Advance(b, 55, w, 0x682e6ff3, 0xb20f7a99); assert w.a == 0x38cc9913 && w.e == 0x54cb266b;
  }

  lemma RoundsTo64(b: seq<Byte>)
    requires IsAbcBlock(b)
    ensures Rounds(InitialHash(), b, 64)
         == Working(0x506e3058, 0xd39a2165, 0x04d24d6c, 0xb85e2ce9,
                    0x5ef50f24, 0xfb121210, 0x948d25b6, 0x961f4894)
  {
    hide Schedule, Rounds, InitialHash, IsAbcBlock;
    RoundsTo56(b);
    WordsTo64(b);
    var w := Working(0x38cc9913, 0x3ec45cdb, 0xf5702fdb, 0x101fd28f,
                     0x54cb266b, 0xe50e1b4f, 0x9f4787c3, 0x529e7d00);
    w := Advance(b, 56, w, 0x748f82ee, 0xef57b9cd); assert w.a == 0xfcd1887b && w.e == 0x9b5e906c;
    w := Advance(b, 57, w, 0x78a5636f, 0xebe6b238); assert w.a == 0xc062d46f && w.e == 0x7e44008e;
    w := Advance(b, 58, w, 0x84c87814, 0x9fe3095e); assert w.a == 0xffb70472 && w.e == 0x6d83bfc6;
    w := Advance(b, 59, w, 0x8cc70208, 0x78bc8d4b); assert w.a == 0xb6ae8fff && w.e == 0xb21bad3d;
    w := Advance(b, 60, w, 0x90befffa, 0xa43fcf15); assert w.a == 0xb85e2ce9 && w.e == 0x961f4894;
    w := Advance(b, 61, w, 0xa4506ceb, 0x668b2ff8); assert w.a == 0x04d24d6c && w.e == 0x948d25b6;
    w := Advance(b, 62, w, 0xbef9a3f7, 0xeeaba2cc); assert w.a == 0xd39a2165 && w.e == 0xfb121210;
    w := Advance(b, 63, w, 0xc67178f2, 0x12b1edeb); assert w.a == 0x506e3058 && w.e == 0x5ef50f24;
  }

  lemma RoundsStart(b: seq<Byte>)
    requires |b| == 64
    ensures Rounds(InitialHash(), b, 0)
         == Working(0x6a09e667, 0xbb67ae85, 0x3c6ef372, 0xa54ff53a,
                    0x510e527f, 0x9b05688c, 0x1f83d9ab, 0x5be0cd19)
  {
  }

  // ------------------------------------------------------------------------------- digest

  lemma AbcIsPadded()
    ensures IsAbcBlock(ABC + Padding(3))
  {
    hide BigEndian;
    NoHighOctets(24, 8);
    assert ABC + Padding(3) == ABC + [0x80] + Zeros(59) + [0x18] by {
      assert Zeros(52) + Zeros(7) == Zeros(59);
    }
  }

  lemma {:induction false} NoHighOctets(n: nat, k: nat)
    requires n < 256 && k > 0
    ensures BigEndian(n, k) == Zeros(k - 1) + [n]
  {
    if k > 1 {
      NoHighOctets(0, k - 1);
      assert Zeros(k - 2) + [0] == Zeros(k - 1);
    }
  }

  lemma AbcCompressed(b: seq<Byte>)
    requires IsAbcBlock(b)
    ensures Compress(InitialHash(), b)
         == ABC_HASH
  {
    hide Rounds;
    RoundsTo64(b);
  }

  lemma WordAt(i: nat)
    requires i < 8
    ensures WordBytes(ABC_HASH[i]) == AbcDigest(i)
  {
    match i
    case 0 => assert WordBytes(0xba7816bf) == [0xba, 0x78, 0x16, 0xbf];
    case 1 => assert WordBytes(0x8f01cfea) == [0x8f, 0x01, 0xcf, 0xea];
    case 2 => assert WordBytes(0x414140de) == [0x41, 0x41, 0x40, 0xde];
    case 3 => assert WordBytes(0x5dae2223) == [0x5d, 0xae, 0x22, 0x23];
    case 4 => assert WordBytes(0xb00361a3) == [0xb0, 0x03, 0x61, 0xa3];
    case 5 => assert WordBytes(0x96177a9c) == [0x96, 0x17, 0x7a, 0x9c];
    case 6 => assert WordBytes(0xb410ff61) == [0xb4, 0x10, 0xff, 0x61];
    case _ => assert WordBytes(0xf20015ad) == [0xf2, 0x00, 0x15, 0xad];
  }

  lemma {:induction false} BytesOfWord(hash: seq<Word>, i: nat)
    requires i < |hash|
    ensures DigestBytes(hash)[4 * i..4 * i + 4] == WordBytes(hash[i])
  {
    hide WordBytes;
    var front := hash[..|hash| - 1];
    assert DigestBytes(hash) == DigestBytes(front) + WordBytes(hash[|hash| - 1]);
    if i < |front| {
      BytesOfWord(front, i);
    }
  }

  // So the definition of Digest is the published function: on the published message it takes the
  // published value.
  lemma DigestOfAbc(i: nat)
    requires i < 8
    ensures Digest(ABC)[4 * i..4 * i + 4] == AbcDigest(i)
  {
    hide Compress, DigestBytes, Padding, InitialHash, WordBytes, AbcDigest;
    var block := ABC + Padding(3);
    AbcIsPadded();
    AbcCompressed(block);
    HashNothing();
    HashOneMoreBlock([], block);
    assert [] + block == block;
    BytesOfWord(ABC_HASH, i);
    WordAt(i);
  }
}
