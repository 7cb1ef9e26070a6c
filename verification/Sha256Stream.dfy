/** The policy node's incremental hasher, and the hashing of a file read piece by piece. */
module Sha256Stream {
  import opened Arithmetic
  import opened Bytes
  import opened Fips180
  import opened HashConstants

  const UINT64: nat := 0x1_0000_0000_0000_0000

  // The bits in n bytes, as a uint64 counts them.
  function BitCount(n: nat): nat { 8 * n % UINT64 }

  lemma BitCountSum(m: nat, n: nat)
    ensures BitCount(m + n) == (BitCount(m) + 8 * n) % UINT64
  {
    RemainderOfSum(8 * m, 8 * n, UINT64);
  }

  lemma BitCountField(n: nat)
    ensures BigEndian(BitCount(n), 8) == BigEndian(8 * n, 8)
  {
    SixtyFourBits();
    BigEndianModulo(8 * n, 8);
  }

  // Four words of a hash value, each with a working variable added.
  ghost function AddedTo(hash: seq<Word>, i: nat, a: Word, b: Word, c: Word, d: Word): (s: seq<Word>)
    requires i + 4 <= |hash|
    ensures |s| == |hash|
  {
    hash[..i] + [Add(hash[i], a), Add(hash[i + 1], b), Add(hash[i + 2], c), Add(hash[i + 3], d)]
    + hash[i + 4..]
  }

  lemma CompressInHalves(hash: seq<Word>, block: seq<Byte>)
    requires |hash| == 8 && |block| == 64
    ensures var w := Rounds(hash, block, 64);
            Compress(hash, block) ==
              AddedTo(AddedTo(hash, 0, w.a, w.b, w.c, w.d), 4, w.e, w.f, w.g, w.h)
  {
    hide Add, Rounds;
  }

  class Sha256 {
    var state: array<Word>
    var block: array<Byte>
    var blockLength: nat
    var bitLength: nat      // a uint64 in the source: every update below wraps modulo 2^64
    ghost var whole: seq<Byte>  // the blocks already compressed

    ghost predicate Valid()
      reads this, state, block
    {
      && state.Length == 8 && block.Length == 64 && blockLength < 64
      && WholeBlocks(whole)
      && state[..] == HashBlocks(whole)
      && bitLength == BitCount(|whole|)
    }

    // Everything absorbed so far.
    ghost function Message(): seq<Byte>
      requires Valid()
      reads this, state, block
    {
      whole + block[..blockLength]
    }

    constructor ()
      ensures Valid() && fresh(state) && fresh(block) && Message() == []
    {
      hide InitialHash, HashBlocks;
      state := new Word[8](i requires 0 <= i < 8 => InitialHash()[i]);
      block := new Byte[64](_ => 0);
      blockLength, bitLength := 0, 0;
      whole := [];
      new;
      HashNothing();
      assert state[..] == InitialHash();
    }

    // The first sixteen words of the source's 64-entry schedule array.
    method LoadWords() returns (schedule: array<Word>)
      requires block.Length == 64
      ensures fresh(schedule) && schedule.Length == 64
      ensures forall j :: 0 <= j < 16 ==> schedule[j] == Schedule(block[..], j)
    {
      hide BigEndianWord;
      ghost var data := block[..];
      schedule := new Word[64];
      for i := 0 to 16
        invariant forall j :: 0 <= j < i ==> schedule[j] == Schedule(data, j)
      {
        var offset := i * 4;
        schedule[i] := BigEndianWord(
          block[offset], block[offset + 1], block[offset + 2], block[offset + 3]);
      }
    }

    // The message schedule of the current block.
    method ExpandSchedule() returns (schedule: array<Word>)
      requires block.Length == 64
      ensures fresh(schedule) && schedule.Length == 64
      ensures forall j :: 0 <= j < 64 ==> schedule[j] == Schedule(block[..], j)
    {
      hide Add, SmallSigma0, SmallSigma1, BigEndianWord;
      ghost var data := block[..];
      schedule := LoadWords();
      for i := 16 to 64
        invariant forall j :: 0 <= j < i ==> schedule[j] == Schedule(data, j)
      {
        schedule[i] := Add(Add(Add(SmallSigma1(schedule[i - 2]), schedule[i - 7]),
                               SmallSigma0(schedule[i - 15])),
                           schedule[i - 16]);
      }
    }

    // The 64 rounds on the source's eight rotating variables.
    method RunRounds()
      returns (a: Word, b: Word, c: Word, d: Word, e: Word, f: Word, g: Word, h: Word)
      requires state.Length == 8 && block.Length == 64
      ensures Working(a, b, c, d, e, f, g, h) == Rounds(state[..], block[..], 64)
    {
      hide Add, BigSigma0, BigSigma1, Ch, Maj, RoundConstant, Schedule;
      ghost var hash, data := state[..], block[..];
      var schedule := ExpandSchedule();
      a, b, c, d := state[0], state[1], state[2], state[3];
      e, f, g, h := state[4], state[5], state[6], state[7];
      for i := 0 to 64
        invariant Working(a, b, c, d, e, f, g, h) == Rounds(hash, data, i)
      {
        var temp1 := Add(Add(Add(Add(h, BigSigma1(e)), Ch(e, f, g)), RoundConstant(i)), schedule[i]);
        var temp2 := Add(BigSigma0(a), Maj(a, b, c));
        h := g;
        g := f;
        f := e;
        e := Add(d, temp1);
        d := c;
        c := b;
        b := a;
        a := Add(temp1, temp2);
      }
    }

    // Compresses the current block into the state.
    method Transform()
      requires state.Length == 8 && block.Length == 64
      modifies state
      ensures state[..] == Compress(old(state[..]), block[..])
    {
      hide AddedTo, Compress, Rounds;
      CompressInHalves(state[..], block[..]);
      var a, b, c, d, e, f, g, h := RunRounds();
      AddTo(0, a, b, c, d);
      AddTo(4, e, f, g, h);
    }

    method AddTo(i: nat, a: Word, b: Word, c: Word, d: Word)
      requires i + 4 <= state.Length
      modifies state
      ensures state[..] == AddedTo(old(state[..]), i, a, b, c, d)
    {
      hide Add;
      state[i] := Add(state[i], a);
      state[i + 1] := Add(state[i + 1], b);
      state[i + 2] := Add(state[i + 2], c);
      state[i + 3] := Add(state[i + 3], d);
    }

    method Update(input: seq<Byte>)
      requires Valid()
      modifies this`blockLength, this`bitLength, this`whole, state, block
      ensures Valid() && Message() == old(Message()) + input
    {
      hide HashBlocks, Compress, WholeBlocks, BitCount;
      for i := 0 to |input|
        invariant Valid() && Message() == old(Message()) + input[..i]
      {
        assert input[..i + 1] == input[..i] + [input[i]];
        ghost var before := Message();
        block[blockLength] := input[i];
        blockLength := blockLength + 1;
        assert whole + block[..blockLength] == before + [input[i]];
        if blockLength == 64 {
          assert block[..] == block[..64];
          Transform();
          HashOneMoreBlock(whole, block[..]);
          BitCountSum(|whole|, 64);
          whole := whole + block[..];
          bitLength := (bitLength + 512) % UINT64;
          blockLength := 0;
          assert Message() == before + [input[i]];
        }
      }
      assert input[..|input|] == input;
    }

    method ZeroFill(from: nat, to: nat)
      requires from <= to <= block.Length
      modifies block
      ensures block[..] == old(block[..from]) + Zeros(to - from) + old(block[to..])
    {
      var i := from;
      while i < to
        invariant from <= i <= to
        invariant block[..] == old(block[..from]) + Zeros(i - from) + old(block[i..])
      {
        block[i] := 0x00;
        i := i + 1;
      }
    }

    // The 64-bit length field, written from its high octet down.
    method WriteLength()
      requires block.Length == 64
      modifies block
      ensures block[..] == old(block[..56]) + BigEndian(bitLength, 8)
    {
      hide BigEndian;
      ghost var field := BigEndian(bitLength, 8);
      var shift, index := 56, 56;
      while shift >= 0
        invariant shift == 8 * (63 - index) && 56 <= index <= 64
        invariant block[..index] == old(block[..56]) + field[..index - 56]
      {
        BigEndianAt(bitLength, 8, index - 56);
        // A right shift by `shift` bits, masked to one octet.
        block[index] := bitLength / Pow256(shift / 8) % 256;
        shift, index := shift - 8, index + 1;
      }
      assert block[..] == block[..64] && field[..8] == field;
    }

    method WriteDigest() returns (digest: array<Byte>)
      requires state.Length == 8
      ensures fresh(digest) && digest[..] == DigestBytes(state[..])
    {
      hide WordBytes;
      ghost var hash := state[..];
      digest := new Byte[32];
      for word := 0 to 8
        invariant digest[..4 * word] == DigestBytes(hash[..word])
      {
        var bytes := WordBytes(state[word]);
        digest[word * 4 + 0] := bytes[0];
        digest[word * 4 + 1] := bytes[1];
        digest[word * 4 + 2] := bytes[2];
        digest[word * 4 + 3] := bytes[3];
        assert hash[..word + 1][..word] == hash[..word];
        assert digest[..4 * (word + 1)] == digest[..4 * word] + bytes;
      }
      assert hash[..8] == hash && digest[..32] == digest[..];
    }

    // The 0x80 octet, and the block it fills if the length no longer fits behind it. The next
    // octet goes to place i.
    method AppendMarker() returns (i: nat)
      requires Valid()
      modifies this`whole, state, block
      ensures block.Length == 64 && state.Length == 8 && i <= 56
      ensures WholeBlocks(whole) && state[..] == HashBlocks(whole)
      ensures
        var tail := old(block[..blockLength]) + [0x80];
        if |tail| <= 56 then whole == old(whole) && block[..i] == tail
        else i == 0 && whole == old(whole) + (tail + Zeros(64 - |tail|))
    {
      hide HashBlocks, Compress, WholeBlocks, BitCount;
      ghost var tail := block[..blockLength] + [0x80];
      i := blockLength;
      block[i] := 0x80;
      i := i + 1;
      assert block[..i] == tail;
      if i > 56 {
        ZeroFill(i, 64);
        assert block[..] == tail + Zeros(64 - |tail|);
        Transform();
        HashOneMoreBlock(whole, block[..]);
        whole := whole + block[..];
        i := 0;
      }
    }

    // Everything the source's final does before the last compression: what has been compressed
    // and what the block now holds make up the padded message.
    method Pad()
      requires Valid()
      modifies this`bitLength, this`whole, state, block
      ensures block.Length == 64 && state.Length == 8
      ensures WholeBlocks(whole) && state[..] == HashBlocks(whole)
      ensures whole + block[..] == old(Message()) + Padding(|old(Message())|)
    {
      hide HashBlocks, Compress, BigEndian, Padding, WholeBlocks, BitCount;
      ghost var message, tail := Message(), block[..blockLength];
      PaddedBlocks(whole, tail);
      BitCountSum(|whole|, blockLength);
      BitCountField(|message|);
      var i := AppendMarker();
      ghost var head := block[..i];
      ZeroFill(i, 56);
      assert block[..56] == head + Zeros(56 - i);
      bitLength := (bitLength + blockLength * 8) % UINT64;
      WriteLength();
      assert block[..] == head + Zeros(56 - i) + BigEndian(8 * |message|, 8);
    }

    // The source's final: for a message below 2^61 octets this is the digest FIPS 180-4 defines;
    // beyond that the length field wraps, as BigEndian does.
    method Final() returns (digest: array<Byte>)
      requires Valid()
      modifies this`bitLength, this`whole, state, block
      ensures digest[..] == Digest(old(Message()))
    {
      hide HashBlocks, Compress, DigestBytes, Padding, WholeBlocks;
      Pad();
      Transform();
      HashOneMoreBlock(whole, block[..]);
      digest := WriteDigest();
    }
  }

  function Concatenation(chunks: seq<seq<Byte>>): seq<Byte> {
    if chunks == [] then [] else Concatenation(chunks[..|chunks| - 1]) + chunks[|chunks| - 1]
  }

  // sha256_file: whatever pieces the reads return, the digest is that of the whole file.
  method HashFile(chunks: seq<seq<Byte>>) returns (digest: seq<Byte>)
    ensures digest == Digest(Concatenation(chunks))
  {
    hide Digest;
    var sha256 := new Sha256();
    for i := 0 to |chunks|
      invariant sha256.Valid() && fresh(sha256) && fresh(sha256.state) && fresh(sha256.block)
      invariant sha256.Message() == Concatenation(chunks[..i])
    {
      if |chunks[i]| > 0 {
        sha256.Update(chunks[i]);
      }
      assert chunks[..i + 1][..i] == chunks[..i];
    }
    assert chunks[..|chunks|] == chunks;
    var bytes := sha256.Final();
    digest := bytes[..];
  }
}
