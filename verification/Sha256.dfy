/** The streaming SHA-256 implementations: the C context of the rustc trampoline and
    the C++ class that the build guard and the trace checker both carry. Their four
    fields are the same; they differ in the byte counter's overflow, in how they pad
    and in what they return. */
module Sha256 {
  import opened Sha256Spec

  const WORD_RANGE := 0x1_0000_0000_0000_0000

  /** The hash of a message whose length field reads `bits`. */
  function DigestWithLength(message: Bytes, bits: nat): Words {
    HashBlocks(INITIAL, message + Padding(|message|, bits))
  }

  /** The length counter does not wrap below 2^61 bytes, and then the length field is
      the one the standard asks for. */
  lemma BelowWrap(message: Bytes)
    requires |message| < 0x2000_0000_0000_0000
    ensures BytesOf(DigestWithLength(message, |message| * 8 % WORD_RANGE)) == Digest(message)
  {
    hide HashBlocks, Padding, BytesOf;
    assert |message| * 8 % WORD_RANGE == 8 * |message|;
  }

  /** What is buffered after a message: the bytes past its last whole block. */
  function Tail(message: Bytes): Bytes {
    message[|message| - |message| % 64..]
  }

  function Whole(message: Bytes): Bytes {
    message[..|message| - |message| % 64]
  }

  /** Appending without completing a block. */
  lemma TailGrows(message: Bytes, more: Bytes)
    requires |message| % 64 + |more| < 64
    ensures Whole(message + more) == Whole(message) && Tail(message + more) == Tail(message) + more
  {
    var n, r := |message|, |message| % 64;
    SmallRest(n, |more|);
    assert (message + more)[..n - r] == message[..n - r];
    assert (message + more)[n - r..] == message[n - r..] + more;
  }

  lemma SmallRest(n: nat, k: nat)
    requires n % 64 + k < 64
    ensures (n + k) % 64 == n % 64 + k
  {
  }

  /** Appending up to the end of a block. */
  lemma BlockCompletes(message: Bytes, more: Bytes)
    requires |message| % 64 + |more| == 64
    ensures Whole(message + more) == Whole(message) + (Tail(message) + more) && Tail(message + more) == []
    ensures |Whole(message)| % 64 == 0 && |Tail(message) + more| == 64
  {
    var all := message + more;
    assert |all| % 64 == 0;
    assert message == Whole(message) + Tail(message);
    assert all[..|all|] == all;
  }

  /** The buffered hash after a message. */
  ghost predicate Tracks(message: Bytes, state: Words, buffered: Bytes) {
    state == HashBlocks(INITIAL, Whole(message)) && buffered == Tail(message)
  }

  lemma TracksNothing()
    ensures Tracks([], INITIAL, [])
  {
  }

  lemma TracksSize(message: Bytes, state: Words, buffered: Bytes)
    requires Tracks(message, state, buffered)
    ensures |buffered| == |message| % 64
  {
    hide HashBlocks;
  }

  lemma TracksAppend(message: Bytes, state: Words, buffered: Bytes, more: Bytes)
    requires Tracks(message, state, buffered) && |buffered| + |more| < 64
    ensures Tracks(message + more, state, buffered + more)
  {
    hide HashBlocks;
    TailGrows(message, more);
  }

  lemma TracksBlock(message: Bytes, state: Words, buffered: Bytes, more: Bytes)
    requires Tracks(message, state, buffered) && |buffered| + |more| == 64
    ensures Tracks(message + more, Compress(state, buffered + more), [])
  {
    hide Compress, HashBlocks;
    BlockCompletes(message, more);
    HashConcat(INITIAL, Whole(message), Tail(message) + more);
    HashOne(state, buffered + more);
  }

  /** A tracked message of whole blocks is hashed completely. */
  lemma TracksWhole(message: Bytes, state: Words)
    requires Tracks(message, state, []) && |message| % 64 == 0
    ensures state == HashBlocks(INITIAL, message)
  {
    hide HashBlocks;
    assert Whole(message) == message;
  }

  // ---------- the block transform ----------

  lemma ScheduleStep(block: Bytes, t: nat)
    requires |block| == 64 && 16 <= t < 64
    ensures Schedule(block, t) ==
            Add(Add(Add(Schedule(block, t - 16), SmallSigma0(Schedule(block, t - 15))), Schedule(block, t - 7)),
                SmallSigma1(Schedule(block, t - 2)))
  {
    hide SmallSigma0, SmallSigma1, Add;
  }

  lemma ScheduleStart(block: Bytes, t: nat)
    requires |block| == 64 && t < 16
    ensures Schedule(block, t) == BigEndian(block[4 * t], block[4 * t + 1], block[4 * t + 2], block[4 * t + 3])
  {
  }

  /** The message schedule, in place in an array of words. */
  method ExpandWords(block: Bytes) returns (words: array<bv32>)
    requires |block| == 64
    ensures fresh(words) && words.Length == 64
    ensures forall t :: 0 <= t < 64 ==> words[t] == Schedule(block, t)
  {
    hide Schedule, SmallSigma0, SmallSigma1, BigEndian, Add;
    words := new bv32[64];
    var index := 0;
    while index < 16
      invariant 0 <= index <= 16
      invariant forall t :: 0 <= t < index ==> words[t] == Schedule(block, t)
    {
      ScheduleStart(block, index);
      words[index] := BigEndian(block[index * 4], block[index * 4 + 1], block[index * 4 + 2], block[index * 4 + 3]);
      index := index + 1;
    }
    while index < 64
      invariant 16 <= index <= 64
      invariant forall t :: 0 <= t < index ==> words[t] == Schedule(block, t)
    {
      var sigma0, sigma1 := SmallSigma0(words[index - 15]), SmallSigma1(words[index - 2]);
      ScheduleStep(block, index);
      words[index] := Add(Add(Add(words[index - 16], sigma0), words[index - 7]), sigma1);
      index := index + 1;
    }
  }

  /** `sha256_transform`: the rounds over eight local variables. */
  method Transform(hash: Words, block: Bytes) returns (next: Words)
    requires |block| == 64
    ensures next == Compress(hash, block)
  {
    hide Schedule, BigSigma0, BigSigma1, Ch, Maj, Add, Constant;
    var words := ExpandWords(block);
    var a, b, c, d, e, f, g, h := hash.a, hash.b, hash.c, hash.d, hash.e, hash.f, hash.g, hash.h;
    var index := 0;
    while index < 64
      invariant 0 <= index <= 64
      invariant forall t :: 0 <= t < 64 ==> words[t] == Schedule(block, t)
      invariant Words(a, b, c, d, e, f, g, h) == Rounds(hash, block, index)
    {
      var temporary1 := Add(Add(Add(Add(h, BigSigma1(e)), Ch(e, f, g)), Constant(index)), words[index]);
      var temporary2 := Add(BigSigma0(a), Maj(a, b, c));
      h := g;
      g := f;
      f := e;
      e := Add(d, temporary1);
      d := c;
      c := b;
      b := a;
      a := Add(temporary1, temporary2);
      index := index + 1;
    }
    next := Words(
      Add(hash.a, a), Add(hash.b, b), Add(hash.c, c), Add(hash.d, d),
      Add(hash.e, e), Add(hash.f, f), Add(hash.g, g), Add(hash.h, h));
  }

  // ---------- the streaming context ----------

  class Context {
    var state: Words
    var bytes: nat
    const block: array<bv8>
    var used: nat
    ghost var message: Bytes  // everything passed to Update

    ghost predicate Valid()
      reads this, block
    {
      && block.Length == 64
      && bytes == |message| % WORD_RANGE
      && used < 64 && Tracks(message, state, block[..used])
    }

    /** `sha256_init`. */
    constructor ()
      ensures Valid() && message == [] && fresh(block)
    {
      hide Tracks;
      state, bytes, used, message := INITIAL, 0, 0, [];
      block := new bv8[64](_ => 0);
      new;
      TracksNothing();
      assert block[..0] == [];
    }

    /** `memcpy` into the block at `used`. */
    method Fill(data: Bytes)
      requires block.Length == 64 && used + |data| <= 64
      modifies block
      ensures block[..used + |data|] == old(block[..used]) + data
      ensures block[used + |data|..] == old(block[used + |data|..])
    {
      var i := 0;
      while i < |data|
        invariant 0 <= i <= |data|
        invariant block[..used] == old(block[..used])
        invariant block[used..used + i] == data[..i]
        invariant block[used + |data|..] == old(block[used + |data|..])
      {
        block[used + i] := data[i];
        i := i + 1;
      }
      assert data[..i] == data;
      assert block[..used + |data|] == block[..used] + block[used..used + |data|];
    }

    /** One turn of the update loop: buffer part of a block, and compress the block if
        it is full. */
    method Absorb(part: Bytes)
      requires block.Length == 64 && used < 64 && used + |part| <= 64
      requires Tracks(message, state, block[..used])
      modifies `state, `used, `message, block
      ensures used < 64 && Tracks(message, state, block[..used])
      ensures message == old(message) + part
    {
      hide Tracks, Compress;
      ghost var buffered := block[..used];
      Fill(part);
      used := used + |part|;
      message := message + part;
      if used == 64 {
        TracksBlock(old(message), state, buffered, part);
        assert block[..64] == block[..];
        state := Transform(state, block[..]);
        used := 0;
        assert block[..0] == [];
      } else {
        TracksAppend(old(message), state, buffered, part);
      }
    }

    /** `sha256_update`: refused exactly when the byte counter would overflow, and then
        without effect; otherwise the message grows by the data, however it falls on
        block boundaries. */
    method Update(data: Bytes) returns (ok: bool)
      requires Valid() && |message| < WORD_RANGE
      modifies this, block
      ensures Valid() && |message| < WORD_RANGE
      ensures ok <==> |old(message)| + |data| < WORD_RANGE
      ensures message == if ok then old(message) + data else old(message)
    {
      hide Tracks;
      if |data| > WORD_RANGE - 1 - bytes { return false; }
      bytes := bytes + |data|;
      AbsorbAll(data);
      return true;
    }

    /** The C++ `update`, whose counter wraps. */
    method UpdateWrapping(data: Bytes)
      requires Valid()
      modifies this, block
      ensures Valid() && message == old(message) + data
    {
      hide Tracks;
      WrapSum(|message|, |data|);
      bytes := (bytes + |data|) % WORD_RANGE;
      AbsorbAll(data);
    }

    /** The loop that both updates run. */
    method AbsorbAll(data: Bytes)
      requires block.Length == 64 && used < 64 && Tracks(message, state, block[..used])
      modifies `state, `used, `message, block
      ensures used < 64 && Tracks(message, state, block[..used])
      ensures message == old(message) + data
    {
      hide Tracks;
      var input := data;
      while |input| > 0
        invariant message + input == old(message) + data
        invariant used < 64 && Tracks(message, state, block[..used])
        decreases |input|
      {
        var available := 64 - used;
        var take := if |input| < available then |input| else available;
        assert input == input[..take] + input[take..];
        Absorb(input[..take]);
        input := input[take..];
      }
    }

    /** `memset` of part of the block to zero. */
    method Clear(lo: nat, hi: nat)
      requires block.Length == 64 && lo <= hi <= 64
      modifies block
      ensures block[..lo] == old(block[..lo]) && block[lo..hi] == Zeros(hi - lo)
    {
      var i := lo;
      while i < hi
        invariant lo <= i <= hi
        invariant block[..lo] == old(block[..lo])
        invariant forall k :: lo <= k < i ==> block[k] == 0
      {
        block[i] := 0;
        i := i + 1;
      }
    }

    /** The length bytes at the end of the block. */
    method StoreLength(bits: nat)
      requires block.Length == 64
      modifies block
      ensures block[..56] == old(block[..56]) && block[56..64] == Length64(bits)
    {
      hide ByteAt;
      var index := 0;
      while index < 8
        invariant 0 <= index <= 8
        invariant block[..56] == old(block[..56])
        invariant forall k :: 0 <= k < index ==> block[63 - k] == ByteAt(bits, k)
      {
        block[63 - index] := ByteAt(bits, index);
        index := index + 1;
      }
      forall i | 56 <= i < 64 ensures block[i] == Length64(bits)[i - 56] {
        assert block[63 - (63 - i)] == ByteAt(bits, 63 - i);
      }
    }

    /** The padding of `sha256_finish`, built inside the block buffer. */
    method PadAndCompress(bits: nat)
      requires block.Length == 64 && used < 64 && Tracks(message, state, block[..used])
      modifies `state, `used, block
      ensures state == DigestWithLength(message, bits)
    {
      hide Tracks, HashBlocks, Padding, Compress, Length64, DigestWithLength, Zeros;
      ghost var start, buffered := state, block[..used];
      PadInPlace(message, state, buffered, bits);
      block[used] := 0x80;
      assert block[..used + 1] == buffered + [0x80];
      used := used + 1;
      if used > 56 {
        CloseBlock();
      }
      LastBlock(bits);
    }

    /** Fill the block with zeros and compress it. */
    method CloseBlock()
      requires block.Length == 64 && used <= 64
      modifies `state, `used, block
      ensures used == 0
      ensures state == Compress(old(state), old(block[..used]) + Zeros(64 - old(used)))
    {
      hide Compress, Zeros;
      Clear(used, 64);
      assert block[..] == block[..used] + block[used..64];
      state := Transform(state, block[..]);
      used := 0;
    }

    /** Fill the block with zeros and the length and compress it. */
    method LastBlock(bits: nat)
      requires block.Length == 64 && used <= 56
      modifies `state, block
      ensures |Length64(bits)| == 8
      ensures state == Compress(old(state), old(block[..used]) + Zeros(56 - used) + Length64(bits))
    {
      hide Compress, Zeros, Length64;
      ghost var front := block[..used];
      LengthSize(bits);
      Clear(used, 56);
      assert block[..56] == front + Zeros(56 - used) by {
        assert block[..56] == block[..used] + block[used..56];
      }
      StoreLength(bits);
      assert block[..] == block[..56] + block[56..64];
      state := Transform(state, block[..]);
    }

    /** `sha256_finish`. The context is wiped by the source, so nothing is promised
        about it afterwards. */
    method Finish() returns (digest: array<bv8>)
      requires Valid() && |message| < WORD_RANGE
      modifies this, block
      ensures fresh(digest)
      ensures digest[..] == BytesOf(DigestWithLength(old(message), |old(message)| * 8 % WORD_RANGE))
      ensures |old(message)| < 0x2000_0000_0000_0000 ==> digest[..] == Digest(old(message))
    {
      hide Tracks, DigestWithLength, BytesOf, Digest;
      var bitLength := bytes * 8 % WORD_RANGE;
      PadAndCompress(bitLength);
      digest := StoreDigest(state);
      if |message| < 0x2000_0000_0000_0000 { BelowWrap(message); }
    }

    /** The C++ `finish`: pads through `update` itself, a byte at a time, and returns
        the digest in hexadecimal. */
    method FinishHex() returns (text: string)
      requires Valid()
      modifies this, block
      ensures text == Hex(BytesOf(DigestWithLength(old(message), |old(message)| * 8 % WORD_RANGE)))
      ensures |old(message)| < 0x2000_0000_0000_0000 ==> text == Hex(Digest(old(message)))
    {
      hide Tracks, HashBlocks, BytesOf, Digest, Length64, Hex;
      ghost var start := message;
      var bitLength := bytes * 8 % WORD_RANGE;
      WrapBits(|start|);
      UpdateWrapping([0x80]);
      ghost var zeros := 0;
      TracksSize(message, state, block[..used]);
      assert start + [0x80] + Zeros(0) == start + [0x80];
      while used != 56
        invariant Valid() && used == |message| % 64
        invariant message == start + [0x80] + Zeros(zeros)
        invariant zeros <= ZerosNeeded(|start|)
        decreases ZerosNeeded(|start|) - zeros
      {
        NotYetEnough(|start|, zeros);
        UpdateWrapping([0]);
        TracksSize(message, state, block[..used]);
        zeros := zeros + 1;
        assert Zeros(zeros) == Zeros(zeros - 1) + [0];
      }
      NotYetEnough(|start|, zeros);
      var lengthBytes := seq(8, i requires 0 <= i < 8 => ByteAt(bitLength, 7 - i));
      UpdateWrapping(lengthBytes);
      PadByBytes(start, state, block[..used], bitLength) by {
        assert lengthBytes == Length64(bitLength) by { SameLength(bitLength); }
        assert message == start + [0x80] + Zeros(zeros) + Length64(bitLength);
      }
      text := HexWords(state);
      if |start| < 0x2000_0000_0000_0000 { BelowWrap(start); }
    }
  }

  lemma SameLength(bits: nat)
    ensures seq(8, i requires 0 <= i < 8 => ByteAt(bits, 7 - i)) == Length64(bits)
  {
  }

  lemma WrapBits(n: nat)
    ensures n % WORD_RANGE * 8 % WORD_RANGE == n * 8 % WORD_RANGE
  {
  }

  function ZerosNeeded(n: nat): nat { (119 - n % 64) % 64 }

  /** The byte-wise loop stops at the first multiple, which is the padding needed. */
  lemma NotYetEnough(n: nat, zeros: nat)
    requires zeros <= ZerosNeeded(n)
    ensures (n + 1 + zeros) % 64 == 56 <==> zeros == ZerosNeeded(n)
  {
    var r := n % 64;
    assert (n + 1 + zeros) % 64 == (r + 1 + zeros) % 64;
    assert ZerosNeeded(n) == if r <= 55 then 55 - r else 119 - r;
  }

  lemma PadByBytes(message: Bytes, state: Words, buffered: Bytes, bits: nat)
    requires Tracks(message + [0x80] + Zeros(ZerosNeeded(|message|)) + Length64(bits), state, buffered)
    ensures state == DigestWithLength(message, bits)
  {
    hide Tracks, HashBlocks, Length64;
    var padding := Padding(|message|, bits);
    var all := message + padding;
    assert padding == [0x80] + Zeros(ZerosNeeded(|message|)) + Length64(bits);
    assert message + [0x80] + Zeros(ZerosNeeded(|message|)) + Length64(bits) == all;
    PaddedWhole(message, bits);
    TracksSize(all, state, buffered);
    assert buffered == [];
    TracksWhole(all, state);
  }

  // ---------- hexadecimal ----------

  /** The eight nibbles of a word from the top. */
  function HexWord(w: bv32): string {
    [HexChar((w >> 28) & 0xf), HexChar((w >> 24) & 0xf), HexChar((w >> 20) & 0xf), HexChar((w >> 16) & 0xf),
     HexChar((w >> 12) & 0xf), HexChar((w >> 8) & 0xf), HexChar((w >> 4) & 0xf), HexChar(w & 0xf)]
  }

  lemma NibblesOfBytes(w: bv32)
    ensures (w >> 28) & 0xf == ((((w >> 24) & 0xff) as bv8) >> 4) as bv32
    ensures (w >> 24) & 0xf == ((((w >> 24) & 0xff) as bv8) & 0xf) as bv32
    ensures (w >> 20) & 0xf == ((((w >> 16) & 0xff) as bv8) >> 4) as bv32
    ensures (w >> 16) & 0xf == ((((w >> 16) & 0xff) as bv8) & 0xf) as bv32
    ensures (w >> 12) & 0xf == ((((w >> 8) & 0xff) as bv8) >> 4) as bv32
    ensures (w >> 8) & 0xf == ((((w >> 8) & 0xff) as bv8) & 0xf) as bv32
    ensures (w >> 4) & 0xf == (((w & 0xff) as bv8) >> 4) as bv32
    ensures w & 0xf == (((w & 0xff) as bv8) & 0xf) as bv32
  {
  }

  lemma HexWordIsHex(w: bv32)
    ensures HexWord(w) == HexByte(BytesOfWord(w)[0]) + HexByte(BytesOfWord(w)[1])
                          + HexByte(BytesOfWord(w)[2]) + HexByte(BytesOfWord(w)[3])
  {
    hide HexChar;
    NibblesOfBytes(w);
  }

  lemma HexSnoc(bytes: Bytes, b: bv8)
    ensures Hex(bytes + [b]) == Hex(bytes) + HexByte(b)
  {
    hide HexByte;
    assert (bytes + [b])[..|bytes|] == bytes;
  }

  lemma HexAppendWord(bytes: Bytes, w: bv32)
    ensures Hex(bytes + BytesOfWord(w)) == Hex(bytes) + HexWord(w)
  {
    hide HexByte, HexWord, BytesOfWord, Hex;
    var s := BytesOfWord(w);
    HexWordIsHex(w);
    HexSnoc(bytes, s[0]);
    HexSnoc(bytes + [s[0]], s[1]);
    HexSnoc(bytes + [s[0]] + [s[1]], s[2]);
    HexSnoc(bytes + [s[0]] + [s[1]] + [s[2]], s[3]);
    assert bytes + s == bytes + [s[0]] + [s[1]] + [s[2]] + [s[3]];
    var x, a, b, c, d := Hex(bytes), HexByte(s[0]), HexByte(s[1]), HexByte(s[2]), HexByte(s[3]);
    assert x + a + b + c + d == x + (a + b + c + d);
  }

  /** The C++ hexadecimal loop over the state words. */
  method HexWords(state: Words) returns (text: string)
    ensures text == Hex(BytesOf(state))
  {
    hide HexWord, WordAt, BytesOfWord;
    text := "";
    var index := 0;
    while index < 8
      invariant 0 <= index <= 8
      invariant text == Hex(BytesOfFirst(state, index))
    {
      HexAppendWord(BytesOfFirst(state, index), WordAt(state, index));
      text := text + HexWord(WordAt(state, index));
      index := index + 1;
    }
  }

  /** `identity_hex`: the C hexadecimal loop over the digest bytes. */
  method IdentityHex(identity: array<bv8>) returns (output: string)
    requires identity.Length == 32
    ensures output == Hex(identity[..]) && |output| == 64
  {
    hide HexChar;
    output := "";
    var index := 0;
    while index < 32
      invariant 0 <= index <= 32
      invariant output == Hex(identity[..index]) && |output| == 2 * index
    {
      assert identity[..index + 1] == identity[..index] + [identity[index]];
      HexSnoc(identity[..index], identity[index]);
      output := output + [HexChar((identity[index] >> 4) as bv32), HexChar((identity[index] & 0xf) as bv32)];
      index := index + 1;
    }
    assert identity[..32] == identity[..];
  }

  lemma WrapSum(a: nat, b: nat)
    ensures (a % WORD_RANGE + b) % WORD_RANGE == (a + b) % WORD_RANGE
  {
  }

  function Zeros(n: nat): Bytes { seq(n, _ => 0) }

  /** `store_be32`. */
  method StoreWord(output: array<bv8>, at: nat, word: bv32)
    requires at + 4 <= output.Length
    modifies output
    ensures output[..at + 4] == old(output[..at]) + BytesOfWord(word)
  {
    hide BytesOfWord;
    var s := BytesOfWord(word);
    output[at] := s[0];
    output[at + 1] := s[1];
    output[at + 2] := s[2];
    output[at + 3] := s[3];
  }

  /** The digest bytes, one word after the other. */
  method StoreDigest(state: Words) returns (digest: array<bv8>)
    ensures fresh(digest) && digest[..] == BytesOf(state)
  {
    hide BytesOfWord, WordAt;
    digest := new bv8[32](_ => 0);
    var index := 0;
    while index < 8
      invariant 0 <= index <= 8
      invariant digest[..4 * index] == BytesOfFirst(state, index)
    {
      StoreWord(digest, 4 * index, WordAt(state, index));
      index := index + 1;
    }
    assert digest[..32] == digest[..];
  }

  /** The one or two blocks the C code builds are the padded end of the message. */
  lemma PadInPlace(message: Bytes, state: Words, buffered: Bytes, bits: nat)
    requires Tracks(message, state, buffered)
    ensures |buffered| < 64
    ensures |buffered| < 56 ==>
      Compress(state, buffered + [0x80] + Zeros(55 - |buffered|) + Length64(bits)) == DigestWithLength(message, bits)
    ensures |buffered| >= 56 ==>
      Compress(Compress(state, buffered + [0x80] + Zeros(63 - |buffered|)), [] + Zeros(56) + Length64(bits)) ==
      DigestWithLength(message, bits)
  {
    hide Tracks, HashBlocks, Compress, Length64;
    TracksSize(message, state, buffered);
    var r := |buffered|;
    var padding := Padding(|message|, bits);
    LengthSize(bits);
    if r < 56 {
      assert padding == [0x80] + Zeros(55 - r) + Length64(bits);
      assert buffered + padding == buffered + [0x80] + Zeros(55 - r) + Length64(bits);
      TracksBlock(message, state, buffered, padding);
      PaddedWhole(message, bits);
      TracksWhole(message + padding, Compress(state, buffered + padding));
    } else {
      var first, second := [0x80] + Zeros(63 - r), Zeros(56) + Length64(bits);
      assert padding == first + second;
      assert buffered + first == buffered + [0x80] + Zeros(63 - r);
      TracksBlock(message, state, buffered, first);
      var middle := Compress(state, buffered + first);
      TracksBlock(message + first, middle, [], second);
      assert [] + second == [] + Zeros(56) + Length64(bits);
      assert message + first + second == message + padding;
      PaddedWhole(message, bits);
      TracksWhole(message + padding, Compress(middle, [] + second));
    }
  }

  lemma LengthSize(bits: nat)
    ensures |Length64(bits)| == 8
  {
  }

  lemma PaddedWhole(message: Bytes, bits: nat)
    ensures |message + Padding(|message|, bits)| % 64 == 0
  {
    PaddingIsLeast(message);
    assert |Padding(|message|, bits)| == |Padding(|message|, 8 * |message|)|;
  }

  // ---------- any split into updates ----------

  function Concat(chunks: seq<Bytes>): Bytes {
    if chunks == [] then [] else Concat(chunks[..|chunks| - 1]) + chunks[|chunks| - 1]
  }

  lemma {:induction false} ConcatPrefix(chunks: seq<Bytes>, k: nat)
    requires k <= |chunks|
    ensures |Concat(chunks[..k])| <= |Concat(chunks)|
    decreases |chunks|
  {
    if k == |chunks| {
      assert chunks[..k] == chunks;
    } else {
      ConcatPrefix(chunks[..|chunks| - 1], k);
      assert chunks[..|chunks| - 1][..k] == chunks[..k];
    }
  }

  /** A stream hashed piece by piece with the C code, as `sha256_fd` does: it gives up
      only when the byte counter would overflow, and whatever the pieces, the result is
      the standard's digest of the whole. */
  method HashChunks(chunks: seq<Bytes>) returns (ok: bool, text: string)
    ensures ok <==> |Concat(chunks)| < WORD_RANGE
    ensures |Concat(chunks)| < 0x2000_0000_0000_0000 ==> text == Hex(Digest(Concat(chunks)))
  {
    hide Digest, Hex, DigestWithLength, BytesOf, Tracks;
    var context := new Context();
    var i := 0;
    while i < |chunks|
      invariant 0 <= i <= |chunks|
      invariant context.Valid() && fresh(context) && fresh(context.block)
      invariant context.message == Concat(chunks[..i]) && |context.message| < WORD_RANGE
    {
      assert chunks[..i + 1][..i] == chunks[..i];
      ConcatPrefix(chunks, i + 1);
      ok := context.Update(chunks[i]);
      if !ok { return false, ""; }
      i := i + 1;
    }
    assert chunks[..i] == chunks;
    var digest := context.Finish();
    DigestSize();
    assert |digest[..]| == digest.Length;
    text := IdentityHex(digest);
    return true, text;
  }

  /** The same with the C++ code, as `sha256Fd` does. */
  method HashChunksCpp(chunks: seq<Bytes>) returns (text: string)
    ensures |Concat(chunks)| < 0x2000_0000_0000_0000 ==> text == Hex(Digest(Concat(chunks)))
  {
    hide Digest, Hex, DigestWithLength, BytesOf, Tracks;
    var context := new Context();
    var i := 0;
    while i < |chunks|
      invariant 0 <= i <= |chunks|
      invariant context.Valid() && fresh(context) && fresh(context.block)
      invariant context.message == Concat(chunks[..i])
    {
      assert chunks[..i + 1][..i] == chunks[..i];
      context.UpdateWrapping(chunks[i]);
      i := i + 1;
    }
    assert chunks[..i] == chunks;
    text := context.FinishHex();
  }

  lemma DigestSize()
    ensures forall v: Words :: |BytesOf(v)| == 32
  {
  }
}
