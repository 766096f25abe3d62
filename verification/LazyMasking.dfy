/** hash256_block: the compression on 64-bit words, of which only some results are masked to 32 bits. */
module LazyMasking {
  import opened Sha256

  type Wide = bv64

  function Widen(x: Word): Wide { x as bv64 }

  function Low(x: Wide): Word { (x & 0xffff_ffff) as bv32 }

  function Mask(x: Wide): Wide { x & 0xffff_ffff }

  function Plus(x: Wide, y: Wide): Wide { x + y }

  // ---- The functions on 64-bit words --------------------------------------------------------------------

  function WideRotr(x: Wide, n: bv5): Wide {
    Mask((x >> n) | (x << (32 - (n as bv6))))
  }

  function WideShr(x: Wide, n: bv5): Wide { x >> n }

  function WideXor(x: Wide, y: Wide, z: Wide): Wide { x ^ y ^ z }

  function WideCh(x: Wide, y: Wide, z: Wide): Wide { (x & y) ^ (!x & z) }

  function WideMaj(x: Wide, y: Wide, z: Wide): Wide { (x & y) ^ (x & z) ^ (y & z) }

  function BSig0(x: Wide): Wide { WideXor(WideRotr(x, 2), WideRotr(x, 13), WideRotr(x, 22)) }

  function BSig1(x: Wide): Wide { WideXor(WideRotr(x, 6), WideRotr(x, 11), WideRotr(x, 25)) }

  function SSig0(x: Wide): Wide { WideXor(WideRotr(x, 7), WideRotr(x, 18), WideShr(x, 3)) }

  function SSig1(x: Wide): Wide { WideXor(WideRotr(x, 17), WideRotr(x, 19), WideShr(x, 10)) }

  function Assemble(a: Byte, b: Byte, c: Byte, d: Byte): Wide {
    (((a & 0xff) as bv64) << 24 as bv6) | (((b & 0xff) as bv64) << 16 as bv6) | (((c & 0xff) as bv64) << 8 as bv6) | ((d & 0xff) as bv64)
  }

  // ---- They agree with those on 32-bit words: bit by bit, then by name --------------

  lemma RotrBits(x: Word, n: bv5)
    ensures WideRotr(x as bv64, n) == ((x >> n) | (x << (32 - (n as bv6)))) as bv64
  {
  }

  lemma RotrWidens(x: Word, n: bv5)
    ensures WideRotr(Widen(x), n) == Widen((x >> n) | (x << (32 - (n as bv6))))
  {
    RotrBits(x, n);
    hide WideRotr;
  }

  lemma RotrAgrees(x: Word, n: bv5)
    ensures WideRotr(Widen(x), n) == Widen(Rotr(x, n))
  {
    RotrWidens(x, n);
    hide WideRotr, Widen;
  }

  lemma ShrBits(x: Word, n: bv5)
    ensures WideShr(x as bv64, n) == (x >> n) as bv64
  {
  }

  lemma ShrWidens(x: Word, n: bv5)
    ensures WideShr(Widen(x), n) == Widen(x >> n)
  {
    ShrBits(x, n);
    hide WideShr;
  }

  lemma ShrAgrees(x: Word, n: bv5)
    ensures WideShr(Widen(x), n) == Widen(Shr(x, n))
  {
    ShrWidens(x, n);
    hide WideShr, Widen;
  }

  lemma XorBits(x: Word, y: Word, z: Word)
    ensures WideXor(x as bv64, y as bv64, z as bv64) == (x ^ y ^ z) as bv64
  {
  }

  lemma XorWidens(x: Word, y: Word, z: Word)
    ensures WideXor(Widen(x), Widen(y), Widen(z)) == Widen(x ^ y ^ z)
  {
    XorBits(x, y, z);
    hide WideXor;
  }

  lemma XorAgrees(x: Word, y: Word, z: Word)
    ensures WideXor(Widen(x), Widen(y), Widen(z)) == Widen(Xor(x, y, z))
  {
    XorWidens(x, y, z);
    hide WideXor, Widen;
  }

  lemma ChBits(x: Word, y: Word, z: Word)
    ensures WideCh(x as bv64, y as bv64, z as bv64) == ((x & y) ^ (!x & z)) as bv64
  {
  }

  lemma ChWidens(x: Word, y: Word, z: Word)
    ensures WideCh(Widen(x), Widen(y), Widen(z)) == Widen((x & y) ^ (!x & z))
  {
    ChBits(x, y, z);
    hide WideCh;
  }

  lemma ChAgrees(x: Word, y: Word, z: Word)
    ensures WideCh(Widen(x), Widen(y), Widen(z)) == Widen(Ch(x, y, z))
  {
    ChWidens(x, y, z);
    hide WideCh, Widen;
  }

  lemma MajBits(x: Word, y: Word, z: Word)
    ensures WideMaj(x as bv64, y as bv64, z as bv64) == ((x & y) ^ (x & z) ^ (y & z)) as bv64
  {
  }

  lemma MajWidens(x: Word, y: Word, z: Word)
    ensures WideMaj(Widen(x), Widen(y), Widen(z)) == Widen((x & y) ^ (x & z) ^ (y & z))
  {
    MajBits(x, y, z);
    hide WideMaj;
  }

  lemma MajAgrees(x: Word, y: Word, z: Word)
    ensures WideMaj(Widen(x), Widen(y), Widen(z)) == Widen(Maj(x, y, z))
  {
    MajWidens(x, y, z);
    hide WideMaj, Widen;
  }

  lemma SigmaAgrees(x: Word)
    ensures BSig0(Widen(x)) == Widen(Sigma0(x)) && BSig1(Widen(x)) == Widen(Sigma1(x))
    ensures SSig0(Widen(x)) == Widen(Small0(x)) && SSig1(Widen(x)) == Widen(Small1(x))
  {
    hide WideRotr, Rotr, WideXor, Xor, WideShr, Shr, Widen;
    RotrAgrees(x, 2); RotrAgrees(x, 13); RotrAgrees(x, 22);
    RotrAgrees(x, 6); RotrAgrees(x, 11); RotrAgrees(x, 25);
    RotrAgrees(x, 7); RotrAgrees(x, 18); ShrAgrees(x, 3);
    RotrAgrees(x, 17); RotrAgrees(x, 19); ShrAgrees(x, 10);
    XorAgrees(Rotr(x, 2), Rotr(x, 13), Rotr(x, 22));
    XorAgrees(Rotr(x, 6), Rotr(x, 11), Rotr(x, 25));
    XorAgrees(Rotr(x, 7), Rotr(x, 18), Shr(x, 3));
    XorAgrees(Rotr(x, 17), Rotr(x, 19), Shr(x, 10));
  }

  lemma AssembleCast(a: Byte, b: Byte, c: Byte, d: Byte)
    ensures Assemble(a, b, c, d) == BigEndian(a, b, c, d) as bv64
  {
  }

  lemma AssembleAgrees(a: Byte, b: Byte, c: Byte, d: Byte)
    ensures Assemble(a, b, c, d) == Widen(BigEndian(a, b, c, d))
  {
    AssembleCast(a, b, c, d);
    hide Assemble, BigEndian;
  }

  // ---- Sums: the low 32 bits of a wide sum are the sum of the low 32 bits --------------------------------------

  lemma LowSumCast(x: Wide, y: Wide)
    ensures Low(x + y) == Add((x & 0xffff_ffff) as bv32, (y & 0xffff_ffff) as bv32)
  {
  }

  lemma LowSum(x: Wide, y: Wide)
    ensures Low(x + y) == Add(Low(x), Low(y))
  {
    LowSumCast(x, y);
    hide Add;
  }

  lemma LowPlus(x: Wide, y: Wide)
    ensures Low(Plus(x, y)) == Add(Low(x), Low(y))
  {
    LowSum(x, y);
    hide Add, Low;
  }

  lemma LowWiden(x: Word)
    ensures Low(Widen(x)) == x
  {
  }

  lemma MaskLow(x: Wide)
    ensures Mask(x) == Widen(Low(x))
  {
  }

  // ---- Sums as integers: nothing that is left unmasked wraps round ---------------------------------------------

  /** The integer a wide word stands for. */
  function Num(x: Wide): int { x as int }

  /** The sum of the words is the sum of the integers. */
  predicate NoWrap(x: Wide, y: Wide) { Num(Plus(x, y)) == Num(x) + Num(y) }

  /** An addition whose result is left unmasked. */
  function Sum(x: Wide, y: Wide): (r: Wide)
    requires NoWrap(x, y)
    ensures Num(r) == Num(x) + Num(y)
  {
    Plus(x, y)
  }

  /** Below 2 to the 32nd. */
  predicate IsWord(x: Wide) { x == Widen(Low(x)) }

  lemma WidenIsWord(x: Word)
    ensures IsWord(Widen(x))
  {
    LowWiden(x);
    hide Widen, Low;
  }

  lemma NumCast(x: Word)
    ensures Num(x as bv64) == x as int
  {
  }

  lemma NumWiden(x: Word)
    ensures 0 <= Num(Widen(x)) <= 0xffff_ffff
  {
    NumCast(x);
    hide Num;
  }

  lemma WordNum(x: Wide)
    requires IsWord(x)
    ensures 0 <= Num(x) <= 0xffff_ffff
  {
    NumWiden(Low(x));
    hide Num, Low, Widen;
  }

  lemma NarrowSumCast(n: bv40, m: bv40)
    ensures ((n as bv64) + (m as bv64)) as int == n as int + m as int
  {
  }

  lemma NarrowSumNum(n: bv40, m: bv40)
    ensures Num((n as bv64) + (m as bv64)) == n as int + m as int
  {
    NarrowSumCast(n, m);
  }

  lemma NarrowSum(n: bv40, m: bv40)
    ensures Num(Plus(n as bv64, m as bv64)) == n as int + m as int
  {
    NarrowSumNum(n, m);
    hide Num;
  }

  lemma NarrowNum(n: bv40)
    ensures Num(n as bv64) == n as int
  {
  }

  lemma Narrow(x: Wide) returns (n: bv40)
    requires Num(x) <= 0xff_ffff_ffff
    ensures x == n as bv64
  {
    n := x as bv40;
  }

  /** Whatever is below 2 to the 40th can be added. */
  lemma SumFits(x: Wide, y: Wide)
    requires Num(x) <= 0xff_ffff_ffff && Num(y) <= 0xff_ffff_ffff
    ensures NoWrap(x, y)
  {
    hide Num, Plus;
    var n := Narrow(x);
    var m := Narrow(y);
    NarrowSum(n, m);
    NarrowNum(n);
    NarrowNum(m);
  }

  /** So can any two of several words added one after the other. */
  lemma WordsFit(x: Wide, y: Wide, i: nat, j: nat)
    requires Num(x) <= i * 0xffff_ffff && Num(y) <= j * 0xffff_ffff && i + j <= 8
    ensures NoWrap(x, y) && Num(Plus(x, y)) <= (i + j) * 0xffff_ffff
  {
    SumFits(x, y);
    hide Num, Plus;
  }

  // ---- The message schedule and the rounds ------------------------------------------------------------------------

  function WideSchedule(a: Wide, b: Wide, c: Wide, d: Wide): Wide
    requires IsWord(a) && IsWord(b) && IsWord(c) && IsWord(d)
  {
    ScheduleFits(a, b, c, d);
    Mask(Sum(Sum(Sum(SSig1(a), b), SSig0(c)), d))
  }

  /** The sum of four words in the schedule does not wrap round. */
  lemma ScheduleFits(a: Wide, b: Wide, c: Wide, d: Wide)
    requires IsWord(a) && IsWord(b) && IsWord(c) && IsWord(d)
    ensures NoWrap(SSig1(a), b) && NoWrap(Plus(SSig1(a), b), SSig0(c)) && NoWrap(Plus(Plus(SSig1(a), b), SSig0(c)), d)
  {
    hide Plus, SSig0, SSig1, Small0, Small1, Num, NoWrap;
    SigmaAgrees(Low(a)); SigmaAgrees(Low(c));
    NumWiden(Small1(Low(a))); WordNum(b); NumWiden(Small0(Low(c))); WordNum(d);
    hide Low, Widen;
    WordsFit(SSig1(a), b, 1, 1);
    WordsFit(Plus(SSig1(a), b), SSig0(c), 2, 1);
    WordsFit(Plus(Plus(SSig1(a), b), SSig0(c)), d, 3, 1);
  }

  lemma ScheduleAgrees(block: seq<Byte>, t: nat)
    requires |block| == 64 && 16 <= t < 64
    ensures IsWord(Widen(Schedule(block, t - 2))) && IsWord(Widen(Schedule(block, t - 7)))
    ensures IsWord(Widen(Schedule(block, t - 15))) && IsWord(Widen(Schedule(block, t - 16)))
    ensures WideSchedule(Widen(Schedule(block, t - 2)), Widen(Schedule(block, t - 7)),
                         Widen(Schedule(block, t - 15)), Widen(Schedule(block, t - 16))) == Widen(Schedule(block, t))
  {
    ScheduleStep(block, t);
    hide Schedule, Mask, Plus, SSig0, SSig1, Small0, Small1, Low, Widen, Add;
    var a, b, c, d := Schedule(block, t - 2), Schedule(block, t - 7), Schedule(block, t - 15), Schedule(block, t - 16);
    WidenIsWord(a); WidenIsWord(b); WidenIsWord(c); WidenIsWord(d);
    ScheduleFits(Widen(a), Widen(b), Widen(c), Widen(d));
    SigmaAgrees(a);
    SigmaAgrees(c);
    LowWiden(Small1(a)); LowWiden(b); LowWiden(Small0(c)); LowWiden(d);
    var s1 := Plus(Widen(Small1(a)), Widen(b));
    var s2 := Plus(s1, Widen(Small0(c)));
    LowPlus(Widen(Small1(a)), Widen(b));
    LowPlus(s1, Widen(Small0(c)));
    LowPlus(s2, Widen(d));
    MaskLow(Plus(s2, Widen(d)));
  }

  lemma ScheduleStep(block: seq<Byte>, t: nat)
    requires |block| == 64 && t < 64
    ensures t < 16 ==> Schedule(block, t) == BigEndian(block[4*t], block[4*t+1], block[4*t+2], block[4*t+3])
    ensures t >= 16 ==> (
      Schedule(block, t) ==
      Add(Add(Add(Small1(Schedule(block, t - 2)), Schedule(block, t - 7)), Small0(Schedule(block, t - 15))), Schedule(block, t - 16)))
  {
    hide BigEndian, Add, Small0, Small1;
  }

  function Temp1(h: Wide, e: Wide, f: Wide, g: Wide, k: Wide, w: Wide): (r: Wide)
    requires IsWord(h) && IsWord(e) && IsWord(f) && IsWord(g) && IsWord(k) && IsWord(w)
    ensures Num(r) == Num(h) + Num(BSig1(e)) + Num(WideCh(e, f, g)) + Num(k) + Num(w) <= 5 * 0xffff_ffff
  {
    Temp1Fits(h, e, f, g, k, w);
    Sum(Sum(Sum(Sum(h, BSig1(e)), WideCh(e, f, g)), k), w)
  }

  function Temp2(a: Wide, b: Wide, c: Wide): (r: Wide)
    requires IsWord(a) && IsWord(b) && IsWord(c)
    ensures Num(r) == Num(BSig0(a)) + Num(WideMaj(a, b, c)) <= 2 * 0xffff_ffff
  {
    Temp2Fits(a, b, c);
    Sum(BSig0(a), WideMaj(a, b, c))
  }

  /** The sum of five words does not wrap round. */
  lemma Temp1Fits(h: Wide, e: Wide, f: Wide, g: Wide, k: Wide, w: Wide)
    requires IsWord(h) && IsWord(e) && IsWord(f) && IsWord(g) && IsWord(k) && IsWord(w)
    ensures var s1 := Plus(h, BSig1(e)); var s2 := Plus(s1, WideCh(e, f, g)); var s3 := Plus(s2, k);
      && NoWrap(h, BSig1(e)) && NoWrap(s1, WideCh(e, f, g)) && NoWrap(s2, k) && NoWrap(s3, w)
      && Num(Plus(s3, w)) <= 5 * 0xffff_ffff
  {
    hide Plus, BSig1, WideCh, Sigma1, Ch, Num, NoWrap;
    SigmaAgrees(Low(e));
    ChAgrees(Low(e), Low(f), Low(g));
    WordNum(h); NumWiden(Sigma1(Low(e))); NumWiden(Ch(Low(e), Low(f), Low(g))); WordNum(k); WordNum(w);
    hide Low, Widen;
    var s1 := Plus(h, BSig1(e));
    var s2 := Plus(s1, WideCh(e, f, g));
    WordsFit(h, BSig1(e), 1, 1);
    WordsFit(s1, WideCh(e, f, g), 2, 1);
    WordsFit(s2, k, 3, 1);
    WordsFit(Plus(s2, k), w, 4, 1);
  }

  lemma Temp2Fits(a: Wide, b: Wide, c: Wide)
    requires IsWord(a) && IsWord(b) && IsWord(c)
    ensures NoWrap(BSig0(a), WideMaj(a, b, c)) && Num(Plus(BSig0(a), WideMaj(a, b, c))) <= 2 * 0xffff_ffff
  {
    hide Plus, BSig0, WideMaj, Sigma0, Maj, Num, NoWrap;
    SigmaAgrees(Low(a));
    MajAgrees(Low(a), Low(b), Low(c));
    NumWiden(Sigma0(Low(a)));
    NumWiden(Maj(Low(a), Low(b), Low(c)));
    hide Low, Widen;
    WordsFit(BSig0(a), WideMaj(a, b, c), 1, 1);
  }

  predicate WideVars(v: Vars, k: Word, w: Word) {
    && IsWord(Widen(v.a)) && IsWord(Widen(v.b)) && IsWord(Widen(v.c)) && IsWord(Widen(v.d))
    && IsWord(Widen(v.e)) && IsWord(Widen(v.f)) && IsWord(Widen(v.g)) && IsWord(Widen(v.h))
    && IsWord(Widen(k)) && IsWord(Widen(w))
  }

  lemma VarsAreWords(v: Vars, k: Word, w: Word)
    ensures WideVars(v, k, w)
  {
    hide IsWord;
    WidenIsWord(v.a); WidenIsWord(v.b); WidenIsWord(v.c); WidenIsWord(v.d);
    WidenIsWord(v.e); WidenIsWord(v.f); WidenIsWord(v.g); WidenIsWord(v.h);
    WidenIsWord(k); WidenIsWord(w);
  }

  lemma Temp1Low(h: Word, e: Word, f: Word, g: Word, k: Word, w: Word)
    requires IsWord(Widen(h)) && IsWord(Widen(e)) && IsWord(Widen(f)) && IsWord(Widen(g)) && IsWord(Widen(k)) && IsWord(Widen(w))
    ensures Low(Temp1(Widen(h), Widen(e), Widen(f), Widen(g), Widen(k), Widen(w))) ==
      Add(Add(Add(Add(h, Sigma1(e)), Ch(e, f, g)), k), w)
  {
    hide Plus, BSig1, WideCh, Sigma1, Ch, Low, Widen, Add, Num, NoWrap, IsWord;
    Temp1Fits(Widen(h), Widen(e), Widen(f), Widen(g), Widen(k), Widen(w));
    SigmaAgrees(e);
    ChAgrees(e, f, g);
    LowWiden(h); LowWiden(Sigma1(e)); LowWiden(Ch(e, f, g)); LowWiden(k); LowWiden(w);
    var s1 := Plus(Widen(h), Widen(Sigma1(e)));
    var s2 := Plus(s1, Widen(Ch(e, f, g)));
    var s3 := Plus(s2, Widen(k));
    LowPlus(Widen(h), Widen(Sigma1(e)));
    LowPlus(s1, Widen(Ch(e, f, g)));
    LowPlus(s2, Widen(k));
    LowPlus(s3, Widen(w));
  }

  lemma Temp2Low(a: Word, b: Word, c: Word)
    requires IsWord(Widen(a)) && IsWord(Widen(b)) && IsWord(Widen(c))
    ensures Low(Temp2(Widen(a), Widen(b), Widen(c))) == Add(Sigma0(a), Maj(a, b, c))
  {
    hide Plus, BSig0, WideMaj, Sigma0, Maj, Low, Widen, Add, Num, NoWrap, IsWord;
    Temp2Fits(Widen(a), Widen(b), Widen(c));
    SigmaAgrees(a);
    MajAgrees(a, b, c);
    LowWiden(Sigma0(a)); LowWiden(Maj(a, b, c));
    LowPlus(Widen(Sigma0(a)), Widen(Maj(a, b, c)));
  }

  /** One round: none of its sums wraps round, and masking only the two new variables gives the round of the standard. */
  lemma RoundAgrees(v: Vars, k: Word, w: Word)
    ensures WideVars(v, k, w)
    ensures var t1 := Temp1(Widen(v.h), Widen(v.e), Widen(v.f), Widen(v.g), Widen(k), Widen(w));
      var t2 := Temp2(Widen(v.a), Widen(v.b), Widen(v.c));
      && NoWrap(Widen(v.d), t1) && Mask(Sum(Widen(v.d), t1)) == Widen(Round(v, k, w).e)
      && NoWrap(t1, t2) && Mask(Sum(t1, t2)) == Widen(Round(v, k, w).a)
  {
    hide Plus, Temp1, Temp2, Sigma0, Sigma1, Ch, Maj, Low, Widen, Add, Mask, Num, IsWord, NoWrap;
    VarsAreWords(v, k, w);
    var t1 := Temp1(Widen(v.h), Widen(v.e), Widen(v.f), Widen(v.g), Widen(k), Widen(w));
    var t2 := Temp2(Widen(v.a), Widen(v.b), Widen(v.c));
    Temp1Low(v.h, v.e, v.f, v.g, k, w);
    Temp2Low(v.a, v.b, v.c);
    LowWiden(v.d);
    NumWiden(v.d);
    SumFits(Widen(v.d), t1);
    SumFits(t1, t2);
    LowPlus(Widen(v.d), t1);
    LowPlus(t1, t2);
    MaskLow(Plus(Widen(v.d), t1));
    MaskLow(Plus(t1, t2));
  }

  // ---- The method ------------------------------------------------------------------------------------------------------

  function WidenAll(s: seq<Word>): (r: seq<Wide>)
    ensures |r| == |s| && forall i :: 0 <= i < |r| ==> r[i] == Widen(s[i])
  {
    seq(|s|, i requires 0 <= i < |s| => Widen(s[i]))
  }

  lemma StepRounds(v: Vars, block: seq<Byte>, t: nat)
    requires |block| == 64 && t < 64
    ensures Rounds(v, block, t + 1) == Round(Rounds(v, block, t), Constant(t), Schedule(block, t))
  {
    hide Round, Constant, Schedule;
  }

  /** The words of the block, then the schedule: every entry is a word, so it is below 2 to the 32nd. */
  method BuildSchedule(block: seq<Byte>) returns (w: array<Wide>)
    requires |block| == 64
    ensures fresh(w) && w.Length == 64 && forall t :: 0 <= t < 64 ==> w[t] == Widen(Schedule(block, t))
  {
    hide Schedule, Widen, Assemble, WideSchedule, BigEndian, Add, IsWord;
    w := new Wide[64](_ => 0);
    for i := 0 to 16
      invariant forall t :: 0 <= t < i ==> w[t] == Widen(Schedule(block, t))
    {
      w[i] := Assemble(block[i * 4], block[i * 4 + 1], block[i * 4 + 2], block[i * 4 + 3]);
      ScheduleStep(block, i);
      AssembleAgrees(block[i * 4], block[i * 4 + 1], block[i * 4 + 2], block[i * 4 + 3]);
    }
    for i := 16 to 64
      invariant forall t :: 0 <= t < i ==> w[t] == Widen(Schedule(block, t))
    {
      ScheduleAgrees(block, i);
      w[i] := WideSchedule(w[i - 2], w[i - 7], w[i - 15], w[i - 16]);
    }
  }

  /** The working variables, loaded from the hash value, through all rounds: each stays below 2 to the 32nd. */
  method RunRounds(md: seq<Wide>, w: array<Wide>, ghost v0: Vars, block: seq<Byte>) returns (vs: seq<Wide>)
    requires |block| == 64 && w.Length == 64 && forall t :: 0 <= t < 64 ==> w[t] == Widen(Schedule(block, t))
    requires |md| == 8 && md == WidenAll(VarsList(v0))
    ensures vs == WidenAll(VarsList(Rounds(v0, block, 64)))
  {
    hide Schedule, Widen, Temp1, Temp2, Sum, Mask, Round, Rounds, Constant, Add, IsWord, NoWrap;
    ghost var v := v0;
    Loaded(md, v0);
    hide VarsList, WidenAll;
    var a, b, c, d := md[0], md[1], md[2], md[3];
    var e, f, g, h := md[4], md[5], md[6], md[7];
    NoRounds(v0, block);
    for i := 0 to 64
      invariant v == Rounds(v0, block, i)
      invariant a == Widen(v.a) && b == Widen(v.b) && c == Widen(v.c) && d == Widen(v.d)
      invariant e == Widen(v.e) && f == Widen(v.f) && g == Widen(v.g) && h == Widen(v.h)
    {
      StepRounds(v0, block, i);
      RoundAgrees(v, Constant(i), Schedule(block, i));
      RoundShifts(v, Constant(i), Schedule(block, i));
      var temp1 := Temp1(h, e, f, g, Widen(Constant(i)), w[i]);
      var temp2 := Temp2(a, b, c);
      h := g;
      g := f;
      f := e;
      e := Mask(Sum(d, temp1));
      d := c;
      c := b;
      b := a;
      a := Mask(Sum(temp1, temp2));
      v := Round(v, Constant(i), Schedule(block, i));
    }
    vs := [a, b, c, d, e, f, g, h];
    ListWidens(v, vs);
  }

  lemma Loaded(md: seq<Wide>, v: Vars)
    requires |md| == 8 && md == WidenAll(VarsList(v))
    ensures md[0] == Widen(v.a) && md[1] == Widen(v.b) && md[2] == Widen(v.c) && md[3] == Widen(v.d)
    ensures md[4] == Widen(v.e) && md[5] == Widen(v.f) && md[6] == Widen(v.g) && md[7] == Widen(v.h)
  {
    hide Widen;
  }

  lemma VarsRound(hv: seq<Word>)
    requires |hv| == 8
    ensures VarsList(VarsOf(hv)) == hv
  {
  }

  /** hash256_block: with all working variables and schedule words below 2 to the 32nd before and after every round, it
      computes the compression function, in place. */
  method Hash256Block(md: array<Wide>, ghost hv: seq<Word>, block: seq<Byte>)
    requires md.Length == 8 && |hv| == 8 && md[..] == WidenAll(hv) && |block| == 64
    modifies md
    ensures md[..] == WidenAll(Compress(hv, block))
  {
    hide Schedule, Widen, Rounds, Add, Compress, AddEach, VarsList, VarsOf, WidenAll;
    var w := BuildSchedule(block);
    VarsRound(hv);
    var vs := RunRounds(md[..], w, VarsOf(hv), block);
    AddBack(md, hv, vs, Rounds(VarsOf(hv), block, 64));
    CompressIs(hv, block);
  }

  lemma NoRounds(v: Vars, block: seq<Byte>)
    requires |block| == 64
    ensures Rounds(v, block, 0) == v
  {
  }

  lemma RoundShifts(v: Vars, k: Word, w: Word)
    ensures var r := Round(v, k, w); r.b == v.a && r.c == v.b && r.d == v.c && r.f == v.e && r.g == v.f && r.h == v.g
  {
    hide Add, Sigma0, Sigma1, Ch, Maj;
  }

  lemma ListWidens(v: Vars, vs: seq<Wide>)
    requires |vs| == 8
    requires vs[0] == Widen(v.a) && vs[1] == Widen(v.b) && vs[2] == Widen(v.c) && vs[3] == Widen(v.d)
    requires vs[4] == Widen(v.e) && vs[5] == Widen(v.f) && vs[6] == Widen(v.g) && vs[7] == Widen(v.h)
    ensures vs == WidenAll(VarsList(v))
  {
    hide Widen;
  }

  lemma CompressIs(hv: seq<Word>, block: seq<Byte>)
    requires |hv| == 8 && |block| == 64
    ensures Compress(hv, block) == AddEach(VarsList(Rounds(VarsOf(hv), block, 64)), hv)
  {
    hide Rounds, Add, AddEach, VarsList, VarsOf;
  }

  lemma SumBack(x: Word, y: Word)
    ensures NoWrap(Widen(x), Widen(y)) && Mask(Sum(Widen(x), Widen(y))) == Widen(Add(y, x))
  {
    hide Plus, Mask, Low, Widen, Num, NoWrap;
    NumWiden(x);
    NumWiden(y);
    SumFits(Widen(x), Widen(y));
    LowWiden(x);
    LowWiden(y);
    LowPlus(Widen(x), Widen(y));
    MaskLow(Plus(Widen(x), Widen(y)));
    hide Add;
    AddCommutes(x, y);
  }

  lemma AddCommutes(x: Word, y: Word)
    ensures Add(x, y) == Add(y, x)
  {
  }

  method AddInto(md: array<Wide>, vs: seq<Wide>)
    requires md.Length == 8 && |vs| == 8
    requires forall j :: 0 <= j < 8 ==> NoWrap(md[j], vs[j])
    modifies md
    ensures forall j :: 0 <= j < 8 ==> md[j] == Sum(old(md[j]), vs[j])
  {
    hide Sum, NoWrap;
    for i := 0 to 8
      invariant forall j :: 0 <= j < i ==> md[j] == Sum(old(md[j]), vs[j])
      invariant forall j :: i <= j < 8 ==> md[j] == old(md[j])
    {
      md[i] := Sum(md[i], vs[i]);
    }
  }

  method MaskAll(md: array<Wide>)
    requires md.Length == 8
    modifies md
    ensures forall j :: 0 <= j < 8 ==> md[j] == Mask(old(md[j]))
  {
    hide Mask;
    for i := 0 to 8
      invariant forall j :: 0 <= j < i ==> md[j] == Mask(old(md[j]))
      invariant forall j :: i <= j < 8 ==> md[j] == old(md[j])
    {
      md[i] := Mask(md[i]);
    }
  }

  /** The working variables are added to the hash value, and only then masked. */
  method AddBack(md: array<Wide>, ghost hv: seq<Word>, vs: seq<Wide>, ghost v: Vars)
    requires md.Length == 8 && |hv| == 8 && md[..] == WidenAll(hv) && vs == WidenAll(VarsList(v))
    modifies md
    ensures md[..] == WidenAll(AddEach(VarsList(v), hv))
  {
    hide Sum, Mask, Widen, Add, VarsList, NoWrap;
    ghost var before := md[..];
    forall j | 0 <= j < 8 ensures NoWrap(md[j], vs[j]) {
      SumBack(hv[j], VarsList(v)[j]);
      assert before[j] == Widen(hv[j]) && vs[j] == Widen(VarsList(v)[j]);
    }
    AddInto(md, vs);
    MaskAll(md);
    forall j | 0 <= j < 8 ensures md[j] == Widen(AddEach(VarsList(v), hv)[j]) {
      SumBack(hv[j], VarsList(v)[j]);
      assert before[j] == Widen(hv[j]) && vs[j] == Widen(VarsList(v)[j]);
    }
  }
}
