/** The SHA-256 functions, constants, padding and compression of FIPS 180-4, on whole messages. */
module Fips180 {
  import opened Arithmetic
  import opened Bytes
  import opened HashConstants

  // Addition modulo 2^32.
  function Add(x: Word, y: Word): Word { x + y }

  // FIPS 180-4 section 4.1.2.
  function Rotr(x: Word, n: bv6): Word
    requires 0 < n < 32
  {
    (x >> n) | (x << (32 - n))
  }

  function Ch(x: Word, y: Word, z: Word): Word { (x & y) ^ (!x & z) }

  function Maj(x: Word, y: Word, z: Word): Word { (x & y) ^ (x & z) ^ (y & z) }

  function BigSigma0(x: Word): Word { Rotr(x, 2) ^ Rotr(x, 13) ^ Rotr(x, 22) }

  function BigSigma1(x: Word): Word { Rotr(x, 6) ^ Rotr(x, 11) ^ Rotr(x, 25) }

  function SmallSigma0(x: Word): Word { Rotr(x, 7) ^ Rotr(x, 18) ^ (x >> 3) }

  function SmallSigma1(x: Word): Word { Rotr(x, 17) ^ Rotr(x, 19) ^ (x >> 10) }

  // FIPS 180-4 section 5.2.1: a 512-bit block is sixteen big-endian words.
  function BigEndianWord(b0: Byte, b1: Byte, b2: Byte, b3: Byte): Word {
    ((b0 as Word) << 24) | ((b1 as Word) << 16) | ((b2 as Word) << 8) | (b3 as Word)
  }

  // FIPS 180-4 section 6.2.2, step 1.
  ghost function Schedule(block: seq<Byte>, t: nat): Word
    requires |block| == 64
  {
    if t < 16 then
      BigEndianWord(block[4 * t], block[4 * t + 1], block[4 * t + 2], block[4 * t + 3])
    else
      Add(Add(Add(SmallSigma1(Schedule(block, t - 2)), Schedule(block, t - 7)),
              SmallSigma0(Schedule(block, t - 15))),
          Schedule(block, t - 16))
  }

  datatype Working = Working(a: Word, b: Word, c: Word, d: Word, e: Word, f: Word, g: Word, h: Word)

  // FIPS 180-4 section 6.2.2, one iteration of step 3.
  function Round(w: Working, k: Word, s: Word): Working {
    var t1 := Add(Add(Add(Add(w.h, BigSigma1(w.e)), Ch(w.e, w.f, w.g)), k), s);
    var t2 := Add(BigSigma0(w.a), Maj(w.a, w.b, w.c));
    Working(Add(t1, t2), w.a, w.b, w.c, Add(w.d, t1), w.e, w.f, w.g)
  }

  // The working variables after t rounds: steps 2 and 3 of section 6.2.2.
  ghost function Rounds(hash: seq<Word>, block: seq<Byte>, t: nat): Working
    requires |hash| == 8 && |block| == 64 && t <= 64
  {
    if t == 0 then
      Working(hash[0], hash[1], hash[2], hash[3], hash[4], hash[5], hash[6], hash[7])
    else
      Round(Rounds(hash, block, t - 1), RoundConstant(t - 1), Schedule(block, t - 1))
  }

  // Step 4 of section 6.2.2: the intermediate hash value after one more block.
  ghost function Compress(hash: seq<Word>, block: seq<Byte>): (next: seq<Word>)
    requires |hash| == 8 && |block| == 64
    ensures |next| == 8
  {
    var w := Rounds(hash, block, 64);
    [Add(hash[0], w.a), Add(hash[1], w.b), Add(hash[2], w.c), Add(hash[3], w.d),
     Add(hash[4], w.e), Add(hash[5], w.f), Add(hash[6], w.g), Add(hash[7], w.h)]
  }

  ghost predicate WholeBlocks(blocks: seq<Byte>) { |blocks| % 64 == 0 }

  // The hash value after every block of a message of whole blocks.
  ghost function HashBlocks(blocks: seq<Byte>): (hash: seq<Word>)
    requires WholeBlocks(blocks)
    ensures |hash| == 8
  {
    if |blocks| == 0 then InitialHash()
    else Compress(HashBlocks(blocks[..|blocks| - 64]), blocks[|blocks| - 64..])
  }

  function Zeros(n: nat): (z: seq<Byte>)
    ensures |z| == n && forall i :: 0 <= i < n ==> z[i] == 0
  {
    seq(n, _ => 0)
  }

  // The low k octets of n, most significant first.
  function BigEndian(n: nat, k: nat): (s: seq<Byte>)
    ensures |s| == k
  {
    if k == 0 then [] else BigEndian(n / 256, k - 1) + [n % 256]
  }

  // FIPS 180-4 section 5.1.1, in octets: a one bit, the fewest zero bits that leave room for
  // the 64-bit message length at the end of a block, then that length.
  function Padding(length: nat): (p: seq<Byte>)
    ensures |p| == 9 + (55 - length) % 64
  {
    [0x80] + Zeros((55 - length) % 64) + BigEndian(8 * length, 8)
  }

  function WordBytes(w: Word): (s: seq<Byte>)
    ensures |s| == 4
  {
    [((w >> 24) & 0xff) as bv8 as Byte, ((w >> 16) & 0xff) as bv8 as Byte,
     ((w >> 8) & 0xff) as bv8 as Byte, (w & 0xff) as bv8 as Byte]
  }

  function DigestBytes(hash: seq<Word>): (d: seq<Byte>)
    ensures |d| == 4 * |hash|
  {
    if hash == [] then [] else DigestBytes(hash[..|hash| - 1]) + WordBytes(hash[|hash| - 1])
  }

  lemma PaddingFillsBlocks(message: seq<Byte>)
    ensures WholeBlocks(message + Padding(|message|))
  {
    var n := 55 - |message|;
    assert |message + Padding(|message|)| == 64 + 64 * -(n / 64);
    QuotientUnique(|message + Padding(|message|)|, 64, 1 - n / 64, 0);
  }

  // FIPS 180-4 section 6.2.
  ghost function Digest(message: seq<Byte>): (d: seq<Byte>)
    ensures |d| == 32
  {
    PaddingFillsBlocks(message);
    DigestBytes(HashBlocks(message + Padding(|message|)))
  }

  lemma HashNothing()
    ensures HashBlocks([]) == InitialHash()
  {
  }

  lemma HashOneMoreBlock(blocks: seq<Byte>, block: seq<Byte>)
    requires WholeBlocks(blocks) && |block| == 64
    ensures WholeBlocks(blocks + block)
    ensures HashBlocks(blocks + block) == Compress(HashBlocks(blocks), block)
  {
    hide Compress;
    var all := blocks + block;
    assert all[..|all| - 64] == blocks && all[|all| - 64..] == block;
  }

  function Pow256(k: nat): (p: nat)
    ensures p > 0
  {
    if k == 0 then 1 else 256 * Pow256(k - 1)
  }

  lemma SixtyFourBits()
    ensures Pow256(8) == 0x1_0000_0000_0000_0000
  {
    assert Pow256(4) == 0x1_0000_0000;
  }

  // Byte i of the big-endian form is the one a right shift by 8 * (k - 1 - i) bits exposes.
  lemma {:induction false} BigEndianAt(n: nat, k: nat, i: nat)
    requires i < k
    ensures BigEndian(n, k)[i] == n / Pow256(k - 1 - i) % 256
  {
    if i < k - 1 {
      BigEndianAt(n / 256, k - 1, i);
      QuotientOfQuotient(n, 256, Pow256(k - 2 - i));
    }
  }

  // Only the low 8 * k bits of the number survive.
  lemma {:induction false} BigEndianModulo(n: nat, k: nat)
    ensures BigEndian(n % Pow256(k), k) == BigEndian(n, k)
  {
    if k > 0 {
      RemainderOfQuotient(n, 256, Pow256(k - 1));
      BigEndianModulo(n / 256, k - 1);
    }
  }

  lemma {:induction false} BigEndianInjective(m: nat, n: nat, k: nat)
    requires m < Pow256(k) && n < Pow256(k)
    requires BigEndian(m, k) == BigEndian(n, k)
    ensures m == n
  {
    if k > 0 {
      var s, t := BigEndian(m, k), BigEndian(n, k);
      assert s[..k - 1] == BigEndian(m / 256, k - 1) && t[..k - 1] == BigEndian(n / 256, k - 1);
      assert s[k - 1] == m % 256 && t[k - 1] == n % 256;
      BigEndianInjective(m / 256, n / 256, k - 1);
    }
  }

  // Padding loses nothing: below 2^61 octets, a padded message determines the message.
  lemma PaddingInjective(x: seq<Byte>, y: seq<Byte>)
    requires |x| < 0x2000_0000_0000_0000 && |y| < 0x2000_0000_0000_0000
    requires x + Padding(|x|) == y + Padding(|y|)
    ensures x == y
  {
    hide BigEndian;
    var p, q := x + Padding(|x|), y + Padding(|y|);
    assert p[|p| - 8..] == BigEndian(8 * |x|, 8);
    assert q[|q| - 8..] == BigEndian(8 * |y|, 8);
    SixtyFourBits();
    BigEndianInjective(8 * |x|, 8 * |y|, 8);
    assert p[..|x|] == x && q[..|y|] == y;
  }

  // The one or two blocks that end a padded message, by the length of its partial last block.
  lemma PaddedBlocks(whole: seq<Byte>, tail: seq<Byte>)
    requires WholeBlocks(whole) && |tail| < 64
    ensures var message := whole + tail;
            var field := BigEndian(8 * |message|, 8);
            message + Padding(|message|)
            == if |tail| <= 55 then whole + (tail + [0x80] + Zeros(55 - |tail|) + field)
               else whole + (tail + [0x80] + Zeros(63 - |tail|)) + (Zeros(56) + field)
  {
    hide BigEndian;
    var zeros := if |tail| <= 55 then 55 - |tail| else 119 - |tail|;
    var q := |whole| / 64;
    QuotientUnique(55 - |whole + tail|, 64, if |tail| <= 55 then -q else -q - 1, zeros);
  }
}
