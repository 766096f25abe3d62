/** hash256_one_by_one: hashing a message that comes in pieces. */
module Sha256Stream {
  import opened Sha256
  import opened LazyMasking

  // ---- The length, kept as four digits of 16 bits ----------------------------------------------------------

  ghost predicate Digits(d: seq<nat>) {
    |d| == 4 && forall i :: 0 <= i < 4 ==> d[i] < 65536
  }

  function Value(d: seq<nat>): nat
    requires |d| == 4
  {
    d[0] + 0x1_0000 * d[1] + 0x1_0000_0000 * d[2] + 0x1_0000_0000_0000 * d[3]
  }

  /** The weight of digit i. */
  function Weight(i: nat): nat
    requires i <= 4
  {
    if i == 0 then 1 else if i == 1 then 0x1_0000 else if i == 2 then 0x1_0000_0000 else if i == 3 then 0x1_0000_0000_0000 else TWO64
  }

  /** Adding c to digit i, or taking c times 65536 away from it for a carry. */
  lemma DigitAdd(d: seq<nat>, i: nat, c: nat)
    requires |d| == 4 && i < 4
    ensures Value(d[i := d[i] + c]) == Value(d) + c * Weight(i)
  {
  }

  lemma DigitCarry(d: seq<nat>, i: nat)
    requires |d| == 4 && i < 4
    ensures Value(d) == Value(d[i := d[i] % 65536]) + d[i] / 65536 * Weight(i + 1)
  {
    DigitAdd(d[i := d[i] % 65536], i, 65536 * (d[i] / 65536));
    assert d[i := d[i] % 65536][i := d[i] % 65536 + 65536 * (d[i] / 65536)] == d;
    CarryWeight(d[i] / 65536, i);
  }

  lemma CarryWeight(c: nat, i: nat)
    requires i < 4
    ensures 65536 * c * Weight(i) == c * Weight(i + 1)
  {
  }

  lemma DigitsBound(d: seq<nat>)
    requires Digits(d)
    ensures Value(d) < TWO64
  {
  }

  lemma DropCarry(total: nat, v: nat, c: nat)
    requires total == v + c * TWO64 && v < TWO64
    ensures v == total % TWO64
  {
  }

  /** The bits of the length: three times doubled, the top bits lost. */
  lemma BitStep(v: nat, carry: nat)
    requires v < 65536 && carry < 8
    ensures 8 * v + carry == (8 * v + carry) % 65536 + 65536 * (v / 8192) && v / 8192 < 8
  {
  }

  lemma SamePair(x: nat, y: nat)
    requires x % 65536 == y % 65536
    ensures Pair(x) == Pair(y)
  {
    LowBits(x);
    LowBits(y);
    SameOctet(x / 256, y / 256);
    SameOctet(x, y);
    hide Octet;
  }

  lemma SameOctet(x: nat, y: nat)
    requires x % 256 == y % 256
    ensures Octet(x) == Octet(y)
  {
  }

  lemma LowBits(x: nat)
    ensures x / 256 % 256 == x % 65536 / 256 && x % 256 == x % 65536 % 256
  {
    var q, r := x / 65536, x % 65536;
    assert x == 256 * (256 * q) + r;
  }

  lemma Shift16(low: nat, y: nat)
    requires low < 0x1_0000
    ensures (low + 0x1_0000 * y) / 0x1_0000 == y && (low + 0x1_0000 * y) % 65536 == low
  {
  }

  lemma Shift32(low: nat, y: nat)
    requires low < 0x1_0000_0000
    ensures (low + 0x1_0000_0000 * y) / 0x1_0000_0000 == y
  {
  }

  lemma Shift48(low: nat, y: nat)
    requires low < 0x1_0000_0000_0000
    ensures (low + 0x1_0000_0000_0000 * y) / 0x1_0000_0000_0000 == y
  {
  }

  lemma Slices(d: seq<nat>, x: nat)
    requires Digits(d) && x == Value(d)
    ensures x / 0x1_0000_0000_0000 == d[3] && x / 0x1_0000_0000 % 65536 == d[2]
    ensures x / 0x1_0000 % 65536 == d[1] && x % 65536 == d[0]
  {
    var y2 := d[2] + 0x1_0000 * d[3];
    var y1 := d[1] + 0x1_0000 * y2;
    assert x == d[0] + 0x1_0000 * y1;
    assert x == (d[0] + 0x1_0000 * d[1]) + 0x1_0000_0000 * y2;
    assert x == (d[0] + 0x1_0000 * d[1] + 0x1_0000_0000 * d[2]) + 0x1_0000_0000_0000 * d[3];
    Shift16(d[0], y1);
    Shift16(d[1], y2);
    Shift16(d[2], d[3]);
    Shift32(d[0] + 0x1_0000 * d[1], y2);
    Shift48(d[0] + 0x1_0000 * d[1] + 0x1_0000_0000 * d[2], d[3]);
  }

  /** The bytes of the digits from the top one down to digit i. */
  function FromTop(d: seq<nat>, i: nat): seq<Byte>
    requires i <= |d| == 4
    decreases 4 - i
  {
    if i == 4 then [] else if i == 3 then Pair(d[3]) else FromTop(d, i + 1) + Pair(d[i])
  }

  lemma BytesOf(d: seq<nat>)
    requires Digits(d)
    ensures Octets(Value(d)) == FromTop(d, 0)
  {
    var x := Value(d);
    Slices(d, x);
    hide Value, Pair;
    SamePair(x / 0x1_0000_0000, d[2]);
    SamePair(x / 0x1_0000, d[1]);
    SamePair(x, d[0]);
    assert FromTop(d, 1) == FromTop(d, 2) + Pair(d[1]) && FromTop(d, 2) == FromTop(d, 3) + Pair(d[2]);
  }

  // ---- The message so far: whole blocks are hashed, the rest waits --------------------------------------------

  function Rest(m: seq<Byte>): (r: seq<Byte>)
    ensures |r| == |m| % 64
  {
    m[|m| - |m| % 64..]
  }

  function Whole(m: seq<Byte>): (r: seq<Byte>)
    ensures |r| % 64 == 0 && |r| + |m| % 64 == |m|
  {
    m[..|m| - |m| % 64]
  }

  lemma WholeRest(m: seq<Byte>)
    ensures m == Whole(m) + Rest(m) && Blocks(INITIAL, m) == Blocks(INITIAL, Whole(m))
  {
    assert m == Whole(m) + Rest(m);
    BlocksRest(INITIAL, Whole(m), Rest(m));
  }

  /** More bytes: those that were waiting and the new ones are cut into blocks, and what is left waits. */
  lemma MoreBytes(m: seq<Byte>, chunk: seq<Byte>, i: nat)
    requires i <= |Rest(m) + chunk| && i % 64 == 0 && |Rest(m) + chunk| - i < 64
    ensures var b := Rest(m) + chunk;
      && Rest(m + chunk) == b[i..]
      && Blocks(INITIAL, m + chunk) == Blocks(Blocks(INITIAL, m), b[..i])
  {
    hide Blocks, Whole, Rest;
    var b := Rest(m) + chunk;
    WholeRest(m);
    var a := Whole(m);
    assert m + chunk == a + b;
    assert b == b[..i] + b[i..];
    assert a + b == (a + b[..i]) + b[i..];
    WholeBlocks(a, b[..i]);
    BlocksRest(INITIAL, a + b[..i], b[i..]);
    BlocksAppend(INITIAL, a, b[..i]);
    RestIs(a + b[..i], b[i..]);
  }

  lemma WholeBlocks(a: seq<Byte>, b: seq<Byte>)
    requires |a| % 64 == 0 && |b| % 64 == 0
    ensures |a + b| % 64 == 0
  {
  }

  lemma RestIs(a: seq<Byte>, r: seq<Byte>)
    requires |a| % 64 == 0 && |r| < 64
    ensures Rest(a + r) == r
  {
    assert |a + r| % 64 == |r|;
  }

  lemma NextBlock(hv: seq<Word>, b: seq<Byte>, i: nat)
    requires |hv| == 8 && i + 64 <= |b| && i % 64 == 0
    ensures Blocks(hv, b[..i+64]) == Compress(Blocks(hv, b[..i]), b[i..i+64])
  {
    hide Compress, Blocks;
    assert b[..i+64] == b[..i] + b[i..i+64];
    BlocksAppend(hv, b[..i], b[i..i+64]);
    BlocksOne(Blocks(hv, b[..i]), b[i..i+64]);
  }

  lemma LengthAdds(m: seq<Byte>, chunk: seq<Byte>)
    ensures (|m| % TWO64 + |chunk|) % TWO64 == |m + chunk| % TWO64
  {
  }

  method WriteAt(a: array<Byte>, start: nat, bytes: seq<Byte>)
    requires start + |bytes| <= a.Length
    modifies a
    ensures a[..] == old(a[..start]) + bytes + old(a[start + |bytes|..])
  {
    for i := 0 to |bytes|
      invariant a[..] == old(a[..start]) + bytes[..i] + old(a[start + i..])
    {
      a[start + i] := bytes[i];
    }
    assert bytes[..|bytes|] == bytes;
  }

  method Fill(a: array<Byte>, start: nat, end: nat, v: Byte)
    requires start <= end <= a.Length
    modifies a
    ensures forall i :: 0 <= i < a.Length ==> a[i] == if start <= i < end then v else old(a[i])
  {
    for k := start to end
      invariant forall i :: 0 <= i < a.Length ==> a[i] == if start <= i < k then v else old(a[i])
    {
      a[k] := v;
    }
  }

  class Hasher {
    var buffer: seq<Byte>
    const digits: array<nat>
    const h: array<Wide>
    ghost var message: seq<Byte>

    /** The state as a function of the message alone, however it came. */
    ghost predicate Valid()
      reads this, digits, h
    {
      && digits.Length == 4 && Digits(digits[..]) && Value(digits[..]) == |message| % TWO64
      && h.Length == 8 && h[..] == WidenAll(Blocks(INITIAL, message))
      && buffer == Rest(message)
    }

    constructor ()
      ensures Valid() && fresh(digits) && fresh(h) && message == []
    {
      buffer := [];
      digits := new nat[4](_ => 0);
      h := new Wide[8](i requires 0 <= i < 8 => Widen(INITIAL[i]));
      message := [];
      new;
      assert h[..] == WidenAll(INITIAL);
    }

    /** add_to_data_length: the carry runs through the digits, and out of the last one. */
    method AddToDataLength(n: nat)
      requires digits.Length == 4 && Digits(digits[..]) && n < 0x8000_0000_0000_0000
      modifies digits
      ensures Digits(digits[..]) && Value(digits[..]) == (old(Value(digits[..])) + n) % TWO64
    {
      hide Value;
      ghost var total := Value(digits[..]) + n;
      var carry: nat := 0;
      DigitAdd(digits[..], 0, n);
      ghost var d0 := digits[..];
      digits[0] := (digits[0] + n) % TWO64;
      assert digits[..] == d0[0 := d0[0] + n];
      var i := 0;
      while i < 4
        invariant 0 <= i <= 4
        invariant Value(digits[..]) + carry * Weight(i) == total
        invariant forall j :: 0 <= j < 4 && (j < i || j > i || i > 0) ==> digits[j] < 65536
      {
        ghost var d := digits[..];
        DigitAdd(d, i, carry);
        digits[i] := digits[i] + carry;
        assert digits[..] == d[i := d[i] + carry];
        if digits[i] >= 65536 {
          ghost var e := digits[..];
          DigitCarry(e, i);
          carry := digits[i] / 65536;
          digits[i] := digits[i] % 65536;
          assert digits[..] == e[i := e[i] % 65536];
        } else {
          carry := 0;
          break;
        }
        i := i + 1;
      }
      DigitsBound(digits[..]);
      DropCarry(total, Value(digits[..]), if i == 4 then carry else 0);
    }

    /** process. */
    method Process(chunk: seq<Byte>)
      requires Valid() && |chunk| < 0x8000_0000_0000_0000
      modifies this, digits, h
      ensures Valid() && message == old(message) + chunk
    {
      hide Compress, Blocks, Value, Digits, Rest, WidenAll;
      ghost var m := message;
      LengthAdds(m, chunk);
      AddToDataLength(|chunk|);
      buffer := buffer + chunk;
      var b := buffer;
      var i := 0;
      NoBlock(Blocks(INITIAL, m), b);
      while i + 64 <= |b|
        invariant 0 <= i <= |b| && i % 64 == 0 && buffer == b && message == m
        invariant h[..] == WidenAll(Blocks(Blocks(INITIAL, m), b[..i]))
        invariant Digits(digits[..]) && Value(digits[..]) == |m + chunk| % TWO64
        decreases |b| - i
      {
        NextBlock(Blocks(INITIAL, m), b, i);
        Hash256Block(h, Blocks(Blocks(INITIAL, m), b[..i]), b[i..i+64]);
        i := i + 64;
      }
      MoreBytes(m, chunk, i);
      buffer := buffer[i..];
      message := m + chunk;
    }

    /** write_data_bit_length: the digits times eight, carried on, and written out from the top. */
    method WriteDataBitLength() returns (r: seq<Byte>)
      requires digits.Length == 4 && Digits(digits[..])
      ensures r == Octets(8 * Value(digits[..]) % TWO64)
    {
      hide Value, Below, Octets, Pair, Weight;
      NothingBelow(digits[..]);
      var bits: seq<nat> := digits[..];
      ghost var d := digits[..];
      var carry: nat := 0;
      for i := 0 to 4
        invariant |bits| == 4 && carry < 8 && forall j :: i <= j < 4 ==> bits[j] == d[j]
        invariant forall j :: 0 <= j < i ==> bits[j] < 65536
        invariant 8 * Below(d, i) == Below(bits, i) + carry * Weight(i)
      {
        var before := bits[i];
        BitStep(before, carry);
        BitCarry(before, carry, i);
        ghost var old1 := bits;
        bits := bits[i := (8 * before + carry) % 65536];
        BelowKept(old1, bits, i);
        BelowNext(d, i);
        BelowNext(bits, i);
        carry := before / 8192;
      }
      BelowAll(d);
      BelowAll(bits);
      DigitsBound(bits);
      TopWeight();
      DropCarry(8 * Value(d), Value(bits), carry);
      BytesOf(bits);
      r := [];
      var i: nat := 4;
      while i > 0
        invariant i <= 4 && r == FromTop(bits, i)
      {
        i := i - 1;
        if r == [] { assert r + Pair(bits[i]) == Pair(bits[i]); }
        r := r + Pair(bits[i]);
      }
    }

    /** finish: what is left, the mark, zeros and the length are put into one block, or into two when they do not fit. */
    method Finish()
      requires Valid()
      modifies h
      ensures h[..] == WidenAll(Blocks(INITIAL, Pad(message)))
    {
      hide Compress, Blocks, Value, Digits, WidenAll, Octets, Whole;
      var remains := |buffer|;
      var temp := new Byte[64](_ => 0);
      WriteAt(temp, 0, buffer);
      temp[remains] := 0x80;
      BitCount(|message|, Value(digits[..]));
      WholeRest(message);
      ghost var hv := Blocks(INITIAL, Whole(message));
      ghost var first: seq<Byte>;
      if remains > 55 {
        Fill(temp, remains + 1, 64, 0);
        first := temp[..];
        assert first == buffer + [0x80] + ZeroBytes(63 - remains);
        Hash256Block(h, hv, temp[..]);
        hv := Compress(hv, first);
        Fill(temp, 0, 60, 0);
      } else {
        Fill(temp, remains + 1, 60, 0);
      }
      ghost var before := temp[..56];
      var length := WriteDataBitLength();
      WriteAt(temp, 56, length);
      assert temp[..] == before + length;
      Hash256Block(h, hv, temp[..]);
      if remains > 55 {
        assert before == ZeroBytes(56);
        TwoBlocks(message, first, temp[..]);
      } else {
        assert before == buffer + [0x80] + ZeroBytes(55 - remains);
        OneBlock(message, temp[..]);
      }
    }

    /** get_hash_bytes: the bytes of the hash value, as far as the output has room. */
    method GetHashBytes(size: nat, ghost hv: seq<Word>) returns (r: seq<Byte>)
      requires h.Length == 8 && |hv| == 8 && h[..] == WidenAll(hv)
      ensures r == (if size < 32 then DigestBytes(hv)[..size] else DigestBytes(hv))
    {
      hide DigestBytes, WideBytes, WordBytes, Widen;
      r := [];
      DigestNone(hv);
      for k := 0 to 8
        invariant h[..] == WidenAll(hv)
        invariant |DigestBytes(hv[..k])| == 4 * k
        invariant r == (if size < 4 * k then DigestBytes(hv[..k])[..size] else DigestBytes(hv[..k]))
      {
        WordBytesAgree(hv[k]);
        assert h[..][k] == Widen(hv[k]);
        DigestMore(hv, k);
        r := PutBytes(r, WideBytes(h[k]), size);
      }
      assert hv[..8] == hv;
    }
  }

  /** The bytes of a word are put out as long as there is room. */
  method PutBytes(had: seq<Byte>, word: seq<Byte>, size: nat) returns (r: seq<Byte>)
    requires |word| == 4
    ensures r == if |had| >= size then had else if |had| + 4 <= size then had + word else (had + word)[..size]
  {
    r := had;
    var i := 0;
    while i < 4 && |r| < size
      invariant 0 <= i <= 4 && r == had + word[..i]
      invariant i > 0 ==> |r| <= size
    {
      r := r + [word[i]];
      i := i + 1;
    }
  }

  lemma DigestNone(hv: seq<Word>)
    ensures DigestBytes(hv[..0]) == []
  {
  }

  lemma DigestMore(hv: seq<Word>, k: nat)
    requires k < |hv|
    ensures DigestBytes(hv[..k+1]) == DigestBytes(hv[..k]) + WordBytes(hv[k])
  {
    hide WordBytes;
    assert hv[..k+1][..k] == hv[..k];
  }

  /** The lowest i digits as a number. */
  function Below(d: seq<nat>, i: nat): nat
    requires i <= |d| == 4
  {
    if i == 0 then 0 else Below(d, i - 1) + d[i-1] * Weight(i - 1)
  }

  lemma NothingBelow(d: seq<nat>)
    requires |d| == 4
    ensures Below(d, 0) == 0
  {
  }

  lemma BelowNext(d: seq<nat>, i: nat)
    requires i < |d| == 4
    ensures Below(d, i + 1) == Below(d, i) + d[i] * Weight(i)
  {
  }

  lemma TopWeight()
    ensures Weight(4) == TWO64
  {
  }

  lemma BelowAll(d: seq<nat>)
    requires |d| == 4
    ensures Below(d, 4) == Value(d)
  {
    assert Below(d, 0) == 0 && Below(d, 1) == d[0] && Below(d, 2) == d[0] + 0x1_0000 * d[1];
  }

  lemma {:induction false} BelowKept(d: seq<nat>, e: seq<nat>, i: nat)
    requires i <= |d| == |e| == 4 && forall j :: 0 <= j < i ==> d[j] == e[j]
    ensures Below(d, i) == Below(e, i)
  {
    if i > 0 { BelowKept(d, e, i - 1); }
  }

  lemma BitCarry(v: nat, carry: nat, i: nat)
    requires v < 65536 && carry < 8 && i < 4
    ensures 8 * (v * Weight(i)) + carry * Weight(i) == (8 * v + carry) % 65536 * Weight(i) + v / 8192 * Weight(i + 1)
  {
    BitStep(v, carry);
  }

  lemma NoBlock(hv: seq<Word>, b: seq<Byte>)
    requires |hv| == 8
    ensures b[..0] == [] && Blocks(hv, b[..0]) == hv
  {
  }


  function WideBytes(x: Wide): (r: seq<Byte>)
    ensures |r| == 4
  {
    [((x >> 24 as bv6) & 0xff) as bv8, ((x >> 16 as bv6) & 0xff) as bv8, ((x >> 8 as bv6) & 0xff) as bv8, (x & 0xff) as bv8]
  }

  lemma WordBytesAgree(x: Word)
    ensures WideBytes(Widen(x)) == WordBytes(x)
  {
  }

  lemma BitCount(n: nat, v: nat)
    requires v == n % TWO64
    ensures 8 * v % TWO64 == 8 * n % TWO64
  {
    assert 8 * n == 8 * v + 8 * (n / TWO64) * TWO64;
  }

  lemma OneBlock(m: seq<Byte>, temp: seq<Byte>)
    requires |m| % 64 <= 55 && temp == Rest(m) + [0x80] + ZeroBytes(55 - |m| % 64) + Octets(8 * |m| % TWO64)
    ensures |temp| == 64 && Blocks(INITIAL, Pad(m)) == Compress(Blocks(INITIAL, Whole(m)), temp)
  {
    hide Compress, Blocks, Octets, Whole, Rest;
    WholeRest(m);
    assert ZeroCount(|m|) == 55 - |m| % 64;
    assert Pad(m) == Whole(m) + temp;
    BlocksAppend(INITIAL, Whole(m), temp);
    BlocksOne(Blocks(INITIAL, Whole(m)), temp);
  }

  lemma TwoBlocks(m: seq<Byte>, temp: seq<Byte>, last: seq<Byte>)
    requires |m| % 64 > 55 && temp == Rest(m) + [0x80] + ZeroBytes(63 - |m| % 64)
    requires last == ZeroBytes(56) + Octets(8 * |m| % TWO64)
    ensures |temp| == 64 && |last| == 64
    ensures Blocks(INITIAL, Pad(m)) == Compress(Compress(Blocks(INITIAL, Whole(m)), temp), last)
  {
    hide Compress, Blocks, Octets, Whole, Rest;
    WholeRest(m);
    assert ZeroCount(|m|) == 119 - |m| % 64;
    assert ZeroBytes(119 - |m| % 64) == ZeroBytes(63 - |m| % 64) + ZeroBytes(56);
    assert Pad(m) == (Whole(m) + temp) + last;
    BlocksAppend(INITIAL, Whole(m) + temp, last);
    BlocksAppend(INITIAL, Whole(m), temp);
    BlocksOne(Blocks(INITIAL, Whole(m)), temp);
    BlocksOne(Compress(Blocks(INITIAL, Whole(m)), temp), last);
  }

  // ---- Whole hashes -----------------------------------------------------------------------------------------------

  /** The random-access path: everything at once. */
  method HashAll(m: seq<Byte>) returns (r: seq<Byte>)
    requires |m| < 0x8000_0000_0000_0000
    ensures r == Digest(m)
  {
    hide Pad, Blocks, WidenAll, DigestBytes;
    var hasher := new Hasher();
    hasher.Process(m);
    assert [] + m == m;
    hasher.Finish();
    r := hasher.GetHashBytes(32, Blocks(INITIAL, Pad(m)));
  }

  /** The input-iterator path: a buffer is filled over and over again. */
  method HashInput(m: seq<Byte>, bufferSize: nat) returns (r: seq<Byte>)
    requires 0 < bufferSize < 0x8000_0000
    ensures r == Digest(m)
  {
    hide Pad, Blocks, WidenAll, DigestBytes;
    var hasher := new Hasher();
    var first := 0;
    while first != |m|
      invariant 0 <= first <= |m| && hasher.Valid() && hasher.message == m[..first]
      invariant fresh(hasher) && fresh(hasher.digits) && fresh(hasher.h)
      decreases |m| - first
    {
      var buffer := [];
      ghost var start := first;
      while |buffer| != bufferSize && first != |m|
        invariant start <= first <= |m| && buffer == m[start..first] && |buffer| <= bufferSize
        invariant first == start ==> |buffer| == 0
        decreases |m| - first
      {
        buffer := buffer + [m[first]];
        first := first + 1;
      }
      hasher.Process(buffer);
      assert m[..first] == m[..start] + m[start..first];
    }
    assert m[..|m|] == m;
    hasher.Finish();
    r := hasher.GetHashBytes(32, Blocks(INITIAL, Pad(m)));
  }

  function Flatten(chunks: seq<seq<Byte>>): seq<Byte> {
    if chunks == [] then [] else Flatten(chunks[..|chunks|-1]) + chunks[|chunks|-1]
  }

  /** However a message is cut into pieces, hashing the pieces one by one gives the hash of the message. */
  method HashPieces(chunks: seq<seq<Byte>>) returns (r: seq<Byte>)
    requires forall i :: 0 <= i < |chunks| ==> |chunks[i]| < 0x8000_0000_0000_0000
    ensures r == Digest(Flatten(chunks))
  {
    hide Pad, Blocks, WidenAll, DigestBytes;
    var hasher := new Hasher();
    for i := 0 to |chunks|
      invariant hasher.Valid() && hasher.message == Flatten(chunks[..i])
      invariant fresh(hasher) && fresh(hasher.digits) && fresh(hasher.h)
    {
      hasher.Process(chunks[i]);
      assert chunks[..i+1][..i] == chunks[..i];
    }
    assert chunks[..|chunks|] == chunks;
    hasher.Finish();
    r := hasher.GetHashBytes(32, Blocks(INITIAL, Pad(Flatten(chunks))));
  }
}
