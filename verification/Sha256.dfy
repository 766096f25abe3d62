/** SHA-256 as section 6.2 of FIPS 180-4 defines it, on 32-bit words. */
module Sha256 {
  type Byte = bv8
  type Word = bv32

  /** Section 4.2.2, in rows of eight. */
  const K: seq<seq<Word>> := [
    [0x428a2f98, 0x71374491, 0xb5c0fbcf, 0xe9b5dba5, 0x3956c25b, 0x59f111f1, 0x923f82a4, 0xab1c5ed5],
    [0xd807aa98, 0x12835b01, 0x243185be, 0x550c7dc3, 0x72be5d74, 0x80deb1fe, 0x9bdc06a7, 0xc19bf174],
    [0xe49b69c1, 0xefbe4786, 0x0fc19dc6, 0x240ca1cc, 0x2de92c6f, 0x4a7484aa, 0x5cb0a9dc, 0x76f988da],
    [0x983e5152, 0xa831c66d, 0xb00327c8, 0xbf597fc7, 0xc6e00bf3, 0xd5a79147, 0x06ca6351, 0x14292967],
    [0x27b70a85, 0x2e1b2138, 0x4d2c6dfc, 0x53380d13, 0x650a7354, 0x766a0abb, 0x81c2c92e, 0x92722c85],
    [0xa2bfe8a1, 0xa81a664b, 0xc24b8b70, 0xc76c51a3, 0xd192e819, 0xd6990624, 0xf40e3585, 0x106aa070],
    [0x19a4c116, 0x1e376c08, 0x2748774c, 0x34b0bcb5, 0x391c0cb3, 0x4ed8aa4a, 0x5b9cca4f, 0x682e6ff3],
    [0x748f82ee, 0x78a5636f, 0x84c87814, 0x8cc70208, 0x90befffa, 0xa4506ceb, 0xbef9a3f7, 0xc67178f2]]

  function Constant(t: nat): Word
    requires t < 64
  {
    assert |K| == 8 && forall r :: 0 <= r < 8 ==> |K[r]| == 8;
    K[t / 8][t % 8]
  }

  /** Section 5.3.3. */
  const INITIAL: seq<Word> := [
    0x6a09e667, 0xbb67ae85, 0x3c6ef372, 0xa54ff53a, 0x510e527f, 0x9b05688c, 0x1f83d9ab, 0x5be0cd19]

  /** Addition modulo 2 to the 32nd. */
  function Add(x: Word, y: Word): Word { x + y }

  // ---- Section 4.1.2 ------------------------------------------------------------------------------------

  function Rotr(x: Word, n: bv5): Word {
    (x >> n) | (x << (32 - (n as bv6)))
  }

  function Shr(x: Word, n: bv5): Word { x >> n }

  function Xor(x: Word, y: Word, z: Word): Word { x ^ y ^ z }

  function Ch(x: Word, y: Word, z: Word): Word { (x & y) ^ (!x & z) }

  function Maj(x: Word, y: Word, z: Word): Word { (x & y) ^ (x & z) ^ (y & z) }

  function Sigma0(x: Word): Word { Xor(Rotr(x, 2), Rotr(x, 13), Rotr(x, 22)) }

  function Sigma1(x: Word): Word { Xor(Rotr(x, 6), Rotr(x, 11), Rotr(x, 25)) }

  function Small0(x: Word): Word { Xor(Rotr(x, 7), Rotr(x, 18), Shr(x, 3)) }

  function Small1(x: Word): Word { Xor(Rotr(x, 17), Rotr(x, 19), Shr(x, 10)) }

  // ---- Section 6.2.2 ------------------------------------------------------------------------------------

  function BigEndian(a: Byte, b: Byte, c: Byte, d: Byte): Word {
    ((a as bv32) << 24 as bv5) | ((b as bv32) << 16 as bv5) | ((c as bv32) << 8 as bv5) | (d as bv32)
  }

  /** The message schedule. */
  function Schedule(block: seq<Byte>, t: nat): Word
    requires |block| == 64 && t < 64
  {
    if t < 16 then BigEndian(block[4*t], block[4*t+1], block[4*t+2], block[4*t+3])
    else
      Add(Add(Add(Small1(Schedule(block, t - 2)), Schedule(block, t - 7)), Small0(Schedule(block, t - 15))),
          Schedule(block, t - 16))
  }

  /** The eight working variables. */
  datatype Vars = Vars(a: Word, b: Word, c: Word, d: Word, e: Word, f: Word, g: Word, h: Word)

  function Round(v: Vars, k: Word, w: Word): Vars {
    var t1 := Add(Add(Add(Add(v.h, Sigma1(v.e)), Ch(v.e, v.f, v.g)), k), w);
    var t2 := Add(Sigma0(v.a), Maj(v.a, v.b, v.c));
    Vars(Add(t1, t2), v.a, v.b, v.c, Add(v.d, t1), v.e, v.f, v.g)
  }

  function Rounds(v: Vars, block: seq<Byte>, t: nat): Vars
    requires |block| == 64 && t <= 64
  {
    if t == 0 then v else Round(Rounds(v, block, t - 1), Constant(t - 1), Schedule(block, t - 1))
  }

  function VarsOf(hv: seq<Word>): Vars
    requires |hv| == 8
  {
    Vars(hv[0], hv[1], hv[2], hv[3], hv[4], hv[5], hv[6], hv[7])
  }

  function VarsList(v: Vars): (r: seq<Word>)
    ensures |r| == 8
  {
    [v.a, v.b, v.c, v.d, v.e, v.f, v.g, v.h]
  }

  function AddEach(x: seq<Word>, y: seq<Word>): (r: seq<Word>)
    requires |x| == |y|
    ensures |r| == |x|
  {
    seq(|x|, i requires 0 <= i < |x| => Add(x[i], y[i]))
  }

  function Compress(hv: seq<Word>, block: seq<Byte>): (r: seq<Word>)
    requires |hv| == 8 && |block| == 64
    ensures |r| == 8
  {
    AddEach(VarsList(Rounds(VarsOf(hv), block, 64)), hv)
  }

  /** The hash value after all whole blocks of m. */
  function Blocks(hv: seq<Word>, m: seq<Byte>): (r: seq<Word>)
    requires |hv| == 8
    ensures |r| == 8
    decreases |m|
  {
    if |m| < 64 then hv else Blocks(Compress(hv, m[..64]), m[64..])
  }

  // ---- Section 5.1.1 ------------------------------------------------------------------------------------

  const TWO64: nat := 0x1_0000_0000_0000_0000

  function Octet(x: nat): Byte {
    (x % 256) as bv8
  }

  /** The two lowest bytes, the higher one first. */
  function Pair(x: nat): (r: seq<Byte>)
    ensures |r| == 2
  {
    [Octet(x / 256), Octet(x)]
  }

  /** A number below 2 to the 64th as eight bytes, the most significant first. */
  function Octets(x: nat): (r: seq<Byte>)
    ensures |r| == 8
  {
    Pair(x / 0x1_0000_0000_0000) + Pair(x / 0x1_0000_0000) + Pair(x / 0x1_0000) + Pair(x)
  }

  function ZeroBytes(n: nat): (r: seq<Byte>)
    ensures |r| == n && forall i :: 0 <= i < n ==> r[i] == 0
  {
    seq(n, _ => 0 as Byte)
  }

  /** The least number of zero bytes that brings a message of n bytes, the mark and the length to whole blocks. */
  function ZeroCount(n: nat): (k: nat)
    ensures k < 64 && (n + 1 + k + 8) % 64 == 0
  {
    (119 - n % 64) % 64
  }

  /** The message, one bit, zeros, and the number of bits modulo 2 to the 64th. */
  function Pad(m: seq<Byte>): (r: seq<Byte>)
    ensures |r| % 64 == 0
  {
    m + [0x80] + ZeroBytes(ZeroCount(|m|)) + Octets(8 * |m| % TWO64)
  }

  function WordBytes(x: Word): (r: seq<Byte>)
    ensures |r| == 4
  {
    [(x >> 24 as bv5) as bv8, ((x >> 16 as bv5) & 0xff) as bv8, ((x >> 8 as bv5) & 0xff) as bv8, (x & 0xff) as bv8]
  }

  function DigestBytes(hv: seq<Word>): (r: seq<Byte>)
    ensures |r| == 4 * |hv|
  {
    if hv == [] then [] else DigestBytes(hv[..|hv|-1]) + WordBytes(hv[|hv|-1])
  }

  function Digest(m: seq<Byte>): (r: seq<Byte>)
    ensures |r| == 32
  {
    DigestBytes(Blocks(INITIAL, Pad(m)))
  }

  // ---- Facts about the definitions --------------------------------------------------------------------------

  /** Hashing goes block by block: whole blocks can be hashed apart. */
  lemma {:induction false} BlocksAppend(hv: seq<Word>, a: seq<Byte>, b: seq<Byte>)
    requires |hv| == 8 && |a| % 64 == 0
    ensures Blocks(hv, a + b) == Blocks(Blocks(hv, a), b)
    decreases |a|
  {
    hide Compress;
    if |a| == 0 {
      assert a + b == b;
    } else {
      assert (a + b)[..64] == a[..64];
      assert (a + b)[64..] == a[64..] + b;
      BlocksAppend(Compress(hv, a[..64]), a[64..], b);
    }
  }

  lemma BlocksOne(hv: seq<Word>, a: seq<Byte>)
    requires |hv| == 8 && |a| == 64
    ensures Blocks(hv, a) == Compress(hv, a)
  {
    hide Compress;
    assert a[..64] == a && a[64..] == [];
  }

  /** What is left over from whole blocks does not count yet. */
  lemma {:induction false} BlocksRest(hv: seq<Word>, a: seq<Byte>, r: seq<Byte>)
    requires |hv| == 8 && |a| % 64 == 0 && |r| < 64
    ensures Blocks(hv, a + r) == Blocks(hv, a)
  {
    hide Compress;
    BlocksAppend(hv, a, r);
  }
}
