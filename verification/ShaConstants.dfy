/** Where the constants of SHA-256 come from: sections 4.2.2 and 5.3.3 of FIPS 180-4 take the first 32 bits of the fractional
    parts of the cube roots of the first 64 primes, and of the square roots of the first eight. */
module ShaConstants {
  import opened Sha256

  /** The first 64 primes, in rows of eight. */
  const PRIMES: seq<seq<nat>> := [
    [2, 3, 5, 7, 11, 13, 17, 19],
    [23, 29, 31, 37, 41, 43, 47, 53],
    [59, 61, 67, 71, 73, 79, 83, 89],
    [97, 101, 103, 107, 109, 113, 127, 131],
    [137, 139, 149, 151, 157, 163, 167, 173],
    [179, 181, 191, 193, 197, 199, 211, 223],
    [227, 229, 233, 239, 241, 251, 257, 263],
    [269, 271, 277, 281, 283, 293, 307, 311]]

  function NthPrime(t: nat): nat
    requires t < 64
  {
    assert |PRIMES| == 8 && forall r :: 0 <= r < 8 ==> |PRIMES[r]| == 8;
    PRIMES[t / 8][t % 8]
  }

  const SCALE: nat := 0x1_0000_0000

  /** Not the product of two larger than one. */
  ghost predicate Prime(n: nat) {
    n >= 2 && forall d: nat, e: nat :: d >= 2 && e >= 2 ==> Product(d, e) != n
  }

  function Product(d: nat, e: nat): nat { d * e }

  function Num(x: Word): nat { x as nat }

  function Square(x: nat): nat { x * x }

  function Cube(x: nat): nat { x * x * x }

  /** w is the first 32 bits behind the point of the square root of p, which is n before it: n and w make up the square root
      of p, scaled by 2 to the 32nd and rounded down. */
  ghost predicate SquareRootBits(w: Word, n: nat, p: nat) {
    Square(n * SCALE + Num(w)) <= p * Square(SCALE) < Square(n * SCALE + Num(w) + 1)
  }

  ghost predicate CubeRootBits(w: Word, n: nat, p: nat) {
    Cube(n * SCALE + Num(w)) <= p * Cube(SCALE) < Cube(n * SCALE + Num(w) + 1)
  }

  ghost predicate HasSquareRoot(w: Word, p: nat) {
    exists n: nat :: SquareRootBits(w, n, p)
  }

  ghost predicate HasCubeRoot(w: Word, p: nat) {
    exists n: nat :: CubeRootBits(w, n, p)
  }

  // ---- The primes ---------------------------------------------------------------------------------------------

  /** No prime below 18, other than n itself, divides n. */
  predicate Sieved(n: nat) {
    && n >= 2 && (n == 2 || n % 2 != 0) && (n == 3 || n % 3 != 0) && (n == 5 || n % 5 != 0) && (n == 7 || n % 7 != 0)
    && (n == 11 || n % 11 != 0) && (n == 13 || n % 13 != 0) && (n == 17 || n % 17 != 0)
  }

  lemma Times2(n: nat, k: nat)
    requires n == 2 * k
    ensures n % 2 == 0
  {
  }

  lemma Times3(n: nat, k: nat)
    requires n == 3 * k
    ensures n % 3 == 0
  {
  }

  lemma Times5(n: nat, k: nat)
    requires n == 5 * k
    ensures n % 5 == 0
  {
  }

  lemma Times7(n: nat, k: nat)
    requires n == 7 * k
    ensures n % 7 == 0
  {
  }

  lemma Times11(n: nat, k: nat)
    requires n == 11 * k
    ensures n % 11 == 0
  {
  }

  lemma Times13(n: nat, k: nat)
    requires n == 13 * k
    ensures n % 13 == 0
  {
  }

  lemma Times17(n: nat, k: nat)
    requires n == 17 * k
    ensures n % 17 == 0
  {
  }

  /** A factor below 18 is sieved out, or makes n one of the primes it is sieved by. */
  lemma SmallFactor(n: nat, d: nat, e: nat)
    requires 2 <= d < 18 && e >= 2 && n == Product(d, e)
    ensures !Sieved(n)
  {
    if d == 2 { Times2(n, e); }
    if d == 3 { Times3(n, e); }
    if d == 4 { Times2(n, 2 * e); }
    if d == 5 { Times5(n, e); }
    if d == 6 { Times2(n, 3 * e); }
    if d == 7 { Times7(n, e); }
    if d == 8 { Times2(n, 4 * e); }
    if d == 9 { Times3(n, 3 * e); }
    if d == 10 { Times2(n, 5 * e); }
    if d == 11 { Times11(n, e); }
    if d == 12 { Times2(n, 6 * e); }
    if d == 13 { Times13(n, e); }
    if d == 14 { Times2(n, 7 * e); }
    if d == 15 { Times3(n, 5 * e); }
    if d == 16 { Times2(n, 8 * e); }
    if d == 17 { Times17(n, e); }
  }

  lemma FactorsApart(d: nat, e: nat)
    requires d >= 18 && e >= 18
    ensures Product(d, e) >= 324
  {
    assert d * e >= 18 * e;
  }

  lemma HasFactor(n: nat, q: nat)
    requires q in {2, 3, 5, 7, 11, 13, 17} && n % q == 0 && n >= 2 && n != q
    ensures !Prime(n)
  {
    assert n == Product(q, n / q);
  }

  /** Below the square of 18, sieving by the primes below 18 is enough. */
  lemma SievedIsPrime(n: nat)
    requires n < 324
    ensures Sieved(n) <==> Prime(n)
  {
    hide Product;
    if Sieved(n) {
      forall d: nat, e: nat | d >= 2 && e >= 2 ensures Product(d, e) != n {
        if Product(d, e) == n {
          Commute(d, e);
          if d < 18 { SmallFactor(n, d, e); } else if e < 18 { SmallFactor(n, e, d); } else { FactorsApart(d, e); }
        }
      }
    } else if n >= 2 {
      var q :| q in {2, 3, 5, 7, 11, 13, 17} && n % q == 0 && n != q;
      HasFactor(n, q);
    }
  }

  lemma Commute(d: nat, e: nat)
    ensures Product(d, e) == Product(e, d)
  {
  }

  // ---- The constants ------------------------------------------------------------------------------------------

  /** Nothing between p and q passes the sieve. */
  predicate Gap(p: nat, q: nat)
    decreases q - p
  {
    p + 1 < q ==> !Sieved(p + 1) && Gap(p + 1, q)
  }

  lemma {:induction false} InGap(p: nat, q: nat, n: nat)
    requires Gap(p, q) && p < n < q
    ensures !Sieved(n)
    decreases q - p
  {
    hide Sieved;
    if n > p + 1 { InGap(p + 1, q, n); }
  }

  /** The t-th prime, the one after it, and the constant made of its cube root. */
  ghost predicate RowOk(t: nat)
    requires t < 64
  {
    && Sieved(NthPrime(t)) && NthPrime(t) < 324 && HasCubeRoot(Constant(t), NthPrime(t))
    && (t < 63 ==> NthPrime(t) < NthPrime(t + 1) && Gap(NthPrime(t), NthPrime(t + 1)))
  }

  lemma Row(t: nat, p: nat, q: nat, n: nat, w: nat)
    requires t < 64 && NthPrime(t) == p && (t < 63 ==> NthPrime(t + 1) == q) && Num(Constant(t)) == w
    requires Sieved(p) && p < 324 && p < q && Gap(p, q)
    requires Cube(n * SCALE + w) <= p * Cube(SCALE) < Cube(n * SCALE + w + 1)
    ensures RowOk(t)
  {
    hide Cube, Constant, NthPrime, Num, Sieved, Gap;
    assert CubeRootBits(Constant(t), n, NthPrime(t));
  }

  lemma Rows0(t: nat)
    requires t < 8
    ensures RowOk(t)
  {
    hide RowOk;
    if t == 0 { Row(0, 2, 3, 1, 0x428a2f98); }
    if t == 1 { Row(1, 3, 5, 1, 0x71374491); }
    if t == 2 { Row(2, 5, 7, 1, 0xb5c0fbcf); }
    if t == 3 { Row(3, 7, 11, 1, 0xe9b5dba5); }
    if t == 4 { Row(4, 11, 13, 2, 0x3956c25b); }
    if t == 5 { Row(5, 13, 17, 2, 0x59f111f1); }
    if t == 6 { Row(6, 17, 19, 2, 0x923f82a4); }
    if t == 7 { Row(7, 19, 23, 2, 0xab1c5ed5); }
  }

  lemma Rows1(t: nat)
    requires 8 <= t < 16
    ensures RowOk(t)
  {
    hide RowOk;
    if t == 8 { Row(8, 23, 29, 2, 0xd807aa98); }
    if t == 9 { Row(9, 29, 31, 3, 0x12835b01); }
    if t == 10 { Row(10, 31, 37, 3, 0x243185be); }
    if t == 11 { Row(11, 37, 41, 3, 0x550c7dc3); }
    if t == 12 { Row(12, 41, 43, 3, 0x72be5d74); }
    if t == 13 { Row(13, 43, 47, 3, 0x80deb1fe); }
    if t == 14 { Row(14, 47, 53, 3, 0x9bdc06a7); }
    if t == 15 { Row(15, 53, 59, 3, 0xc19bf174); }
  }

  lemma Rows2(t: nat)
    requires 16 <= t < 24
    ensures RowOk(t)
  {
    hide RowOk;
    if t == 16 { Row(16, 59, 61, 3, 0xe49b69c1); }
    if t == 17 { Row(17, 61, 67, 3, 0xefbe4786); }
    if t == 18 { Row(18, 67, 71, 4, 0x0fc19dc6); }
    if t == 19 { Row(19, 71, 73, 4, 0x240ca1cc); }
    if t == 20 { Row(20, 73, 79, 4, 0x2de92c6f); }
    if t == 21 { Row(21, 79, 83, 4, 0x4a7484aa); }
    if t == 22 { Row(22, 83, 89, 4, 0x5cb0a9dc); }
    if t == 23 { Row(23, 89, 97, 4, 0x76f988da); }
  }

  lemma Rows3(t: nat)
    requires 24 <= t < 32
    ensures RowOk(t)
  {
    hide RowOk;
    if t == 24 { Row(24, 97, 101, 4, 0x983e5152); }
    if t == 25 { Row(25, 101, 103, 4, 0xa831c66d); }
    if t == 26 { Row(26, 103, 107, 4, 0xb00327c8); }
    if t == 27 { Row(27, 107, 109, 4, 0xbf597fc7); }
    if t == 28 { Row(28, 109, 113, 4, 0xc6e00bf3); }
    if t == 29 { Row(29, 113, 127, 4, 0xd5a79147); }
    if t == 30 { Row(30, 127, 131, 5, 0x06ca6351); }
    if t == 31 { Row(31, 131, 137, 5, 0x14292967); }
  }

  lemma Rows4(t: nat)
    requires 32 <= t < 40
    ensures RowOk(t)
  {
    hide RowOk;
    if t == 32 { Row(32, 137, 139, 5, 0x27b70a85); }
    if t == 33 { Row(33, 139, 149, 5, 0x2e1b2138); }
    if t == 34 { Row(34, 149, 151, 5, 0x4d2c6dfc); }
    if t == 35 { Row(35, 151, 157, 5, 0x53380d13); }
    if t == 36 { Row(36, 157, 163, 5, 0x650a7354); }
    if t == 37 { Row(37, 163, 167, 5, 0x766a0abb); }
    if t == 38 { Row(38, 167, 173, 5, 0x81c2c92e); }
    if t == 39 { Row(39, 173, 179, 5, 0x92722c85); }
  }

  lemma Rows5(t: nat)
    requires 40 <= t < 48
    ensures RowOk(t)
  {
    hide RowOk;
    if t == 40 { Row(40, 179, 181, 5, 0xa2bfe8a1); }
    if t == 41 { Row(41, 181, 191, 5, 0xa81a664b); }
    if t == 42 { Row(42, 191, 193, 5, 0xc24b8b70); }
    if t == 43 { Row(43, 193, 197, 5, 0xc76c51a3); }
    if t == 44 { Row(44, 197, 199, 5, 0xd192e819); }
    if t == 45 { Row(45, 199, 211, 5, 0xd6990624); }
    if t == 46 { Row(46, 211, 223, 5, 0xf40e3585); }
    if t == 47 { Row(47, 223, 227, 6, 0x106aa070); }
  }

  lemma Rows6(t: nat)
    requires 48 <= t < 56
    ensures RowOk(t)
  {
    hide RowOk;
    if t == 48 { Row(48, 227, 229, 6, 0x19a4c116); }
    if t == 49 { Row(49, 229, 233, 6, 0x1e376c08); }
    if t == 50 { Row(50, 233, 239, 6, 0x2748774c); }
    if t == 51 { Row(51, 239, 241, 6, 0x34b0bcb5); }
    if t == 52 { Row(52, 241, 251, 6, 0x391c0cb3); }
    if t == 53 { Row(53, 251, 257, 6, 0x4ed8aa4a); }
    if t == 54 { Row(54, 257, 263, 6, 0x5b9cca4f); }
    if t == 55 { Row(55, 263, 269, 6, 0x682e6ff3); }
  }

  lemma Rows7(t: nat)
    requires 56 <= t < 64
    ensures RowOk(t)
  {
    hide RowOk;
    if t == 56 { Row(56, 269, 271, 6, 0x748f82ee); }
    if t == 57 { Row(57, 271, 277, 6, 0x78a5636f); }
    if t == 58 { Row(58, 277, 281, 6, 0x84c87814); }
    if t == 59 { Row(59, 281, 283, 6, 0x8cc70208); }
    if t == 60 { Row(60, 283, 293, 6, 0x90befffa); }
    if t == 61 { Row(61, 293, 307, 6, 0xa4506ceb); }
    if t == 62 { Row(62, 307, 311, 6, 0xbef9a3f7); }
    if t == 63 { Row(63, 311, 313, 6, 0xc67178f2); }
  }

  lemma AllRows(t: nat)
    requires t < 64
    ensures RowOk(t)
  {
    hide RowOk;
    match t / 8
    case 0 => Rows0(t);
    case 1 => Rows1(t);
    case 2 => Rows2(t);
    case 3 => Rows3(t);
    case 4 => Rows4(t);
    case 5 => Rows5(t);
    case 6 => Rows6(t);
    case 7 => Rows7(t);
  }

  lemma LeastPrime(n: nat)
    requires Sieved(n)
    ensures NthPrime(0) <= n
  {
  }

  lemma {:induction false} Listed(n: nat, t: nat)
    requires t < 64 && Sieved(n) && n <= NthPrime(t)
    ensures exists i :: 0 <= i <= t && NthPrime(i) == n
  {
    hide HasCubeRoot, NthPrime, Sieved, Gap;
    LeastPrime(n);
    if n < NthPrime(t) && t > 0 {
      AllRows(t - 1);
      if n > NthPrime(t - 1) { InGap(NthPrime(t - 1), NthPrime(t), n); }
      Listed(n, t - 1);
    }
  }

  /** The table holds the primes up to 311, in order; so its t-th entry is the t-th prime. */
  lemma FirstPrimes(n: nat)
    requires n <= 311
    ensures Prime(n) <==> exists t :: 0 <= t < 64 && NthPrime(t) == n
    ensures forall t :: 0 <= t < 63 ==> NthPrime(t) < NthPrime(t + 1)
  {
    hide Sieved, Prime, HasCubeRoot, Gap;
    SievedIsPrime(n);
    forall t | 0 <= t < 63 ensures NthPrime(t) < NthPrime(t + 1) { AllRows(t); }
    if Sieved(n) {
      assert NthPrime(63) == 311;
      Listed(n, 63);
    }
    if t :| 0 <= t < 64 && NthPrime(t) == n { AllRows(t); }
  }

  /** Section 4.2.2: every constant is made of the cube root of its prime. */
  lemma RoundConstants(t: nat)
    requires t < 64
    ensures Prime(NthPrime(t)) && HasCubeRoot(Constant(t), NthPrime(t))
  {
    hide Sieved, Prime, HasCubeRoot, Gap;
    AllRows(t);
    SievedIsPrime(NthPrime(t));
  }

  lemma InitialRow(i: nat, p: nat, n: nat, w: nat)
    requires i < 8 && NthPrime(i) == p && Num(INITIAL[i]) == w
    requires Square(n * SCALE + w) <= p * Square(SCALE) < Square(n * SCALE + w + 1)
    ensures HasSquareRoot(INITIAL[i], NthPrime(i))
  {
    hide Square, NthPrime, Num;
    assert SquareRootBits(INITIAL[i], n, NthPrime(i));
  }

  /** Section 5.3.3: every word of the initial hash value is made of the square root of its prime. */
  lemma InitialValue(i: nat)
    requires i < 8
    ensures HasSquareRoot(INITIAL[i], NthPrime(i))
  {
    hide HasSquareRoot;
    if i == 0 { InitialRow(0, 2, 1, 0x6a09e667); }
    if i == 1 { InitialRow(1, 3, 1, 0xbb67ae85); }
    if i == 2 { InitialRow(2, 5, 2, 0x3c6ef372); }
    if i == 3 { InitialRow(3, 7, 2, 0xa54ff53a); }
    if i == 4 { InitialRow(4, 11, 3, 0x510e527f); }
    if i == 5 { InitialRow(5, 13, 3, 0x9b05688c); }
    if i == 6 { InitialRow(6, 17, 4, 0x1f83d9ab); }
    if i == 7 { InitialRow(7, 19, 4, 0x5be0cd19); }
  }
}
