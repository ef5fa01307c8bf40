/** SHA-256 as in FIPS 180-4: padding (section 5.1.1), parsing (5.2.1), initial value
    (5.3.3) and hash computation (6.2.2). Messages are whole numbers of bytes. */
module Sha256Spec {

  type Bytes = seq<bv8>

  /** The eight working variables, or the eight words of a hash value. */
  datatype Words = Words(a: bv32, b: bv32, c: bv32, d: bv32, e: bv32, f: bv32, g: bv32, h: bv32)

  const INITIAL := Words(
    0x6a09e667, 0xbb67ae85, 0x3c6ef372, 0xa54ff53a, 0x510e527f, 0x9b05688c, 0x1f83d9ab, 0x5be0cd19)

  /** The round constants of section 4.2.2, in rows of eight. */
  const K: seq<seq<bv32>> := [
    [0x428a2f98, 0x71374491, 0xb5c0fbcf, 0xe9b5dba5, 0x3956c25b, 0x59f111f1, 0x923f82a4, 0xab1c5ed5],
    [0xd807aa98, 0x12835b01, 0x243185be, 0x550c7dc3, 0x72be5d74, 0x80deb1fe, 0x9bdc06a7, 0xc19bf174],
    [0xe49b69c1, 0xefbe4786, 0x0fc19dc6, 0x240ca1cc, 0x2de92c6f, 0x4a7484aa, 0x5cb0a9dc, 0x76f988da],
    [0x983e5152, 0xa831c66d, 0xb00327c8, 0xbf597fc7, 0xc6e00bf3, 0xd5a79147, 0x06ca6351, 0x14292967],
    [0x27b70a85, 0x2e1b2138, 0x4d2c6dfc, 0x53380d13, 0x650a7354, 0x766a0abb, 0x81c2c92e, 0x92722c85],
    [0xa2bfe8a1, 0xa81a664b, 0xc24b8b70, 0xc76c51a3, 0xd192e819, 0xd6990624, 0xf40e3585, 0x106aa070],
    [0x19a4c116, 0x1e376c08, 0x2748774c, 0x34b0bcb5, 0x391c0cb3, 0x4ed8aa4a, 0x5b9cca4f, 0x682e6ff3],
    [0x748f82ee, 0x78a5636f, 0x84c87814, 0x8cc70208, 0x90befffa, 0xa4506ceb, 0xbef9a3f7, 0xc67178f2]]

  function Constant(t: nat): bv32
    requires t < 64
  {
    K[t / 8][t % 8]
  }

  /** Addition modulo 2^32. */
  function Add(x: bv32, y: bv32): bv32 { x + y }

  function RotateRight(x: bv32, n: bv6): bv32
    requires 0 < n < 32
  {
    (x >> n) | (x << (32 - n))
  }

  function Ch(x: bv32, y: bv32, z: bv32): bv32 { (x & y) ^ (!x & z) }

  function Maj(x: bv32, y: bv32, z: bv32): bv32 { (x & y) ^ (x & z) ^ (y & z) }

  function BigSigma0(x: bv32): bv32 { RotateRight(x, 2) ^ RotateRight(x, 13) ^ RotateRight(x, 22) }

  function BigSigma1(x: bv32): bv32 { RotateRight(x, 6) ^ RotateRight(x, 11) ^ RotateRight(x, 25) }

  function SmallSigma0(x: bv32): bv32 { RotateRight(x, 7) ^ RotateRight(x, 18) ^ (x >> 3) }

  function SmallSigma1(x: bv32): bv32 { RotateRight(x, 17) ^ RotateRight(x, 19) ^ (x >> 10) }

  /** Four bytes, most significant first. */
  function BigEndian(b0: bv8, b1: bv8, b2: bv8, b3: bv8): bv32 {
    (b0 as bv32 << 24) | (b1 as bv32 << 16) | (b2 as bv32 << 8) | b3 as bv32
  }

  /** The message schedule. */
  function Schedule(block: Bytes, t: nat): bv32
    requires |block| == 64 && t < 64
  {
    if t < 16 then BigEndian(block[4 * t], block[4 * t + 1], block[4 * t + 2], block[4 * t + 3])
    else Add(Add(Add(Schedule(block, t - 16), SmallSigma0(Schedule(block, t - 15))), Schedule(block, t - 7)),
        SmallSigma1(Schedule(block, t - 2)))
  }

  function Round(v: Words, k: bv32, w: bv32): Words {
    var t1 := Add(Add(Add(Add(v.h, BigSigma1(v.e)), Ch(v.e, v.f, v.g)), k), w);
    var t2 := Add(BigSigma0(v.a), Maj(v.a, v.b, v.c));
    Words(Add(t1, t2), v.a, v.b, v.c, Add(v.d, t1), v.e, v.f, v.g)
  }

  function Rounds(v: Words, block: Bytes, t: nat): Words
    requires |block| == 64 && t <= 64
  {
    if t == 0 then v else Round(Rounds(v, block, t - 1), Constant(t - 1), Schedule(block, t - 1))
  }

  function AddWords(x: Words, y: Words): Words {
    Words(
      Add(x.a, y.a), Add(x.b, y.b), Add(x.c, y.c), Add(x.d, y.d),
      Add(x.e, y.e), Add(x.f, y.f), Add(x.g, y.g), Add(x.h, y.h))
  }

  function Compress(hash: Words, block: Bytes): Words
    requires |block| == 64
  {
    AddWords(hash, Rounds(hash, block, 64))
  }

  /** The hash value after the whole blocks of `data`. */
  function HashBlocks(hash: Words, data: Bytes): Words
    decreases |data|
  {
    if |data| < 64 then hash else HashBlocks(Compress(hash, data[..64]), data[64..])
  }

  /** `n` shifted right by `8 * i` bits. */
  function Shift(n: nat, i: nat): nat { if i == 0 then n else Shift(n / 256, i - 1) }

  /** The low byte of `n >> 8 * i`. */
  function ByteAt(n: nat, i: nat): bv8 { (Shift(n, i) % 256) as bv8 }

  /** Eight bytes, most significant first. */
  function Length64(n: nat): Bytes {
    seq(8, i requires 0 <= i < 8 => ByteAt(n, 7 - i))
  }

  /** The padding after a message of `n` bytes whose length field reads `bits`: a marker,
      as few zero bytes as make the whole a multiple of 64, and the length. */
  function Padding(n: nat, bits: nat): Bytes {
    [0x80] + seq((119 - n % 64) % 64, _ => 0) + Length64(bits)
  }

  function Pad(message: Bytes): Bytes {
    message + Padding(|message|, 8 * |message|)
  }

  /** Section 5.1.1 asks for the least number k of zero bits with
      l + 1 + k = 448 modulo 512. */
  lemma PaddingIsLeast(message: Bytes)
    ensures
      var zeros := 7 + 8 * ((119 - |message| % 64) % 64);
      && (8 * |message| + 1 + zeros) % 512 == 448 && zeros < 512
      && |Pad(message)| % 64 == 0
  {
    var m, q := |message| % 64, |message| / 64;
    var z := (119 - m) % 64;
    assert |message| == 64 * q + m;
    assert z == if m <= 55 then 55 - m else 119 - m;
    assert |Pad(message)| == |message| + 1 + z + 8;
  }

  function BytesOfWord(w: bv32): (s: Bytes)
    ensures |s| == 4
  {
    [((w >> 24) & 0xff) as bv8, ((w >> 16) & 0xff) as bv8, ((w >> 8) & 0xff) as bv8, (w & 0xff) as bv8]
  }

  function WordAt(v: Words, i: nat): bv32
    requires i < 8
  {
    if i == 0 then v.a else if i == 1 then v.b else if i == 2 then v.c else if i == 3 then v.d
    else if i == 4 then v.e else if i == 5 then v.f else if i == 6 then v.g else v.h
  }

  function BytesOfFirst(v: Words, k: nat): (s: Bytes)
    requires k <= 8
    ensures |s| == 4 * k
  {
    if k == 0 then [] else BytesOfFirst(v, k - 1) + BytesOfWord(WordAt(v, k - 1))
  }

  function BytesOf(v: Words): Bytes {
    BytesOfFirst(v, 8)
  }

  /** The message digest. */
  function Digest(message: Bytes): Bytes {
    BytesOf(HashBlocks(INITIAL, Pad(message)))
  }

  function HexChar(x: bv32): char
    requires x < 16
  {
    "0123456789abcdef"[x as int]
  }

  /** Two lowercase hexadecimal digits. */
  function HexByte(b: bv8): string {
    [HexChar((b >> 4) as bv32), HexChar((b & 0xf) as bv32)]
  }

  function Hex(bytes: Bytes): string {
    if bytes == [] then "" else Hex(bytes[..|bytes| - 1]) + HexByte(bytes[|bytes| - 1])
  }

  // ---------- hashing piecewise ----------

  lemma {:induction false} HashConcat(hash: Words, x: Bytes, y: Bytes)
    requires |x| % 64 == 0
    ensures HashBlocks(hash, x + y) == HashBlocks(HashBlocks(hash, x), y)
    decreases |x|
  {
    hide Compress;
    if |x| == 0 {
      assert x + y == y;
    } else {
      assert (x + y)[..64] == x[..64] && (x + y)[64..] == x[64..] + y;
      HashConcat(Compress(hash, x[..64]), x[64..], y);
    }
  }

  lemma HashOne(hash: Words, block: Bytes)
    requires |block| == 64
    ensures HashBlocks(hash, block) == Compress(hash, block)
  {
    hide Compress;
    assert block[..64] == block && block[64..] == [];
  }

  // ---------- the length field ----------

  /** The value of base-256 digits, most significant first. */
  function Value(digits: seq<nat>): nat {
    if digits == [] then 0 else 256 * Value(digits[..|digits| - 1]) + digits[|digits| - 1]
  }

  function Power256(n: nat): nat { if n == 0 then 1 else 256 * Power256(n - 1) }

  function Digits(n: nat, k: nat): seq<nat> {
    seq(k, i requires 0 <= i < k => Shift(n, k - 1 - i) % 256)
  }

  lemma {:induction false} DigitsRead(n: nat, k: nat)
    requires n < Power256(k)
    ensures Value(Digits(n, k)) == n
  {
    if k > 0 {
      DigitsRead(n / 256, k - 1);
      var s, high := Digits(n, k), Digits(n / 256, k - 1);
      forall i | 0 <= i < k - 1 ensures s[i] == high[i] {
        assert Shift(n, k - 1 - i) == Shift(n / 256, k - 2 - i);
      }
      assert s[..k - 1] == high;
      assert s[k - 1] == Shift(n, 0) % 256;
    }
  }

  /** The length field is made of the digits of the number of message bits. */
  lemma LengthFieldReads(n: nat)
    requires n < 0x1_0000_0000_0000_0000
    ensures Value(Digits(n, 8)) == n
    ensures forall i :: 0 <= i < 8 ==> Length64(n)[i] == Digits(n, 8)[i] as bv8
  {
    assert Power256(8) == 0x1_0000_0000_0000_0000 by {
      assert Power256(4) == 256 * 256 * 256 * 256;
      assert Power256(6) == 256 * 256 * Power256(4);
    }
    DigitsRead(n, 8);
  }
}
