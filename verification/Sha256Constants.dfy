/** Where the constants of SHA-256 come from: sections 4.2.2 and 5.3.2 of FIPS 180-2. */
module Sha256Constants {
  import opened Arithmetic
  import opened Sha256Block

  // ---------- primes ----------

  predicate Prime(p: nat) {
    p >= 2 && forall d | 2 <= d < p :: p % d != 0
  }

  /** How many primes there are below `n`. */
  function PrimeCount(n: nat): nat {
    if n == 0 then 0 else PrimeCount(n - 1) + if Prime(n - 1) then 1 else 0
  }

  /** `p` is the prime with `i` primes before it. */
  predicate IsPrimeNumber(i: nat, p: nat) {
    Prime(p) && PrimeCount(p) == i
  }

  predicate Survives(p: nat, q: nat)
    requires q > 0
  {
    p == q || p % q != 0
  }

  /** What is left when the multiples of the primes below 19 have been crossed out. */
  predicate Sifted(p: nat) {
    && p >= 2 && Survives(p, 2) && Survives(p, 3) && Survives(p, 5) && Survives(p, 7)
    && Survives(p, 11) && Survives(p, 13) && Survives(p, 17)
  }

  lemma MultipleOf(p: nat, q: nat, m: nat)
    requires p == q * m && m > 1 && q > 0
    ensures !Survives(p, q)
  {
    QuotientOf(p, q, m, 0);
    assert q * m >= q * 2;
  }

  lemma NotCrossedOut(p: nat, d: nat, e: nat)
    requires p == d * e && 2 <= d <= 18 && 2 <= e
    ensures !Sifted(p)
  {
    hide Survives;
    var q := if d % 2 == 0 then 2 else if d % 3 == 0 then 3 else if d % 5 == 0 then 5 else if d % 7 == 0 then 7 else d;
    var f := d / q;
    assert d == q * f && f >= 1;
    assert p == q * (f * e) && f * e >= e;
    MultipleOf(p, q, f * e);
    assert q == 2 || q == 3 || q == 5 || q == 7 || q == 11 || q == 13 || q == 17;
  }

  /** Up to the square of 19 that leaves just the primes. */
  lemma SiftedArePrime(p: nat)
    requires p < 361
    ensures Sifted(p) <==> Prime(p)
  {
    if Sifted(p) {
      forall d | 2 <= d < p ensures p % d != 0 {
        if p % d == 0 {
          var e := p / d;
          assert p == d * e;
          assert e != 0 && e != 1;
          if d <= 18 {
            NotCrossedOut(p, d, e);
          } else {
            assert e >= 19 ==> d * e >= 361;
            NotCrossedOut(p, e, d);
          }
        }
      }
    } else if p >= 2 {
      assert !Survives(p, 2) || !Survives(p, 3) || !Survives(p, 5) || !Survives(p, 7)
          || !Survives(p, 11) || !Survives(p, 13) || !Survives(p, 17);
    }
  }

  function SiftedCount(n: nat): nat {
    if n == 0 then 0 else SiftedCount(n - 1) + if Sifted(n - 1) then 1 else 0
  }

  lemma {:induction false} CountSifted(n: nat)
    requires n <= 361
    ensures SiftedCount(n) == PrimeCount(n)
  {
    hide Sifted, Prime;
    if n > 0 {
      CountSifted(n - 1);
      SiftedArePrime(n - 1);
    }
  }

  predicate Found(i: nat, p: nat) {
    Sifted(p) && SiftedCount(p) == i
  }

  function One(b: bool): nat { if b then 1 else 0 }

  /** Of six numbers in a row only two need to be looked at. */
  lemma SixMore(k: nat)
    requires k > 0
    ensures var c := SiftedCount(6 * k);
            && SiftedCount(6 * k + 1) == c
            && SiftedCount(6 * k + 5) == c + One(Sifted(6 * k + 1))
            && SiftedCount(6 * k + 6) == c + One(Sifted(6 * k + 1)) + One(Sifted(6 * k + 5))
  {
    hide SiftedCount, Sifted;
    var n := 6 * k;
    CrossedOut(n, 2, 3 * k);
    CrossedOut(n + 2, 2, 3 * k + 1);
    CrossedOut(n + 3, 3, 2 * k + 1);
    CrossedOut(n + 4, 2, 3 * k + 2);
    CountNext(n);
    CountNext(n + 1);
    CountNext(n + 2);
    CountNext(n + 3);
    CountNext(n + 4);
    CountNext(n + 5);
  }

  lemma CrossedOut(n: nat, q: nat, m: nat)
    requires n == q * m && m > 1 && (q == 2 || q == 3)
    ensures !Sifted(n)
  {
    hide Survives;
    MultipleOf(n, q, m);
  }

  lemma CountNext(n: nat)
    ensures SiftedCount(n + 1) == SiftedCount(n) + One(Sifted(n))
  {
    hide Sifted;
  }

  function OneNumberOf(i: nat, p0: nat, p1: nat, p2: nat, p3: nat, p4: nat, p5: nat, p6: nat, p7: nat): nat {
    if i < 4 then if i == 0 then p0 else if i == 1 then p1 else if i == 2 then p2 else p3
    else if i == 4 then p4 else if i == 5 then p5 else if i == 6 then p6 else p7
  }

  /** The first 64 primes. */
  function PrimeNumber(i: nat): nat
    requires i < 64
  {
    if i < 8 then OneNumberOf(i, 2, 3, 5, 7, 11, 13, 17, 19)
    else if i < 16 then OneNumberOf(i - 8, 23, 29, 31, 37, 41, 43, 47, 53)
    else if i < 24 then OneNumberOf(i - 16, 59, 61, 67, 71, 73, 79, 83, 89)
    else if i < 32 then OneNumberOf(i - 24, 97, 101, 103, 107, 109, 113, 127, 131)
    else if i < 40 then OneNumberOf(i - 32, 137, 139, 149, 151, 157, 163, 167, 173)
    else if i < 48 then OneNumberOf(i - 40, 179, 181, 191, 193, 197, 199, 211, 223)
    else if i < 56 then OneNumberOf(i - 48, 227, 229, 233, 239, 241, 251, 257, 263)
    else OneNumberOf(i - 56, 269, 271, 277, 281, 283, 293, 307, 311)
  }

  lemma Primes6()
    ensures Found(0, 2) && Found(1, 3) && Found(2, 5) && SiftedCount(6) == 3
  {
  }

  lemma Primes30()
    ensures Found(3, 7) && Found(4, 11) && Found(5, 13) && Found(6, 17) && Found(7, 19)
    ensures Found(8, 23) && Found(9, 29)
    ensures SiftedCount(30) == 10
  {
    hide SiftedCount;
    Primes6();
    SixMore(1);
    SixMore(2);
    SixMore(3);
    SixMore(4);
  }

  lemma Primes54()
    ensures Found(10, 31) && Found(11, 37) && Found(12, 41) && Found(13, 43) && Found(14, 47)
    ensures Found(15, 53)
    ensures SiftedCount(54) == 16
  {
    hide SiftedCount;
    Primes30();
    SixMore(5);
    SixMore(6);
    SixMore(7);
    SixMore(8);
  }

  lemma Primes78()
    ensures Found(16, 59) && Found(17, 61) && Found(18, 67) && Found(19, 71) && Found(20, 73)
    ensures SiftedCount(78) == 21
  {
    hide SiftedCount;
    Primes54();
    SixMore(9);
    SixMore(10);
    SixMore(11);
    SixMore(12);
  }

  lemma Primes102()
    ensures Found(21, 79) && Found(22, 83) && Found(23, 89) && Found(24, 97) && Found(25, 101)
    ensures SiftedCount(102) == 26
  {
    hide SiftedCount;
    Primes78();
    SixMore(13);
    SixMore(14);
    SixMore(15);
    SixMore(16);
  }

  lemma Primes126()
    ensures Found(26, 103) && Found(27, 107) && Found(28, 109) && Found(29, 113)
    ensures SiftedCount(126) == 30
  {
    hide SiftedCount;
    Primes102();
    SixMore(17);
    SixMore(18);
    SixMore(19);
    SixMore(20);
  }

  lemma Primes150()
    ensures Found(30, 127) && Found(31, 131) && Found(32, 137) && Found(33, 139) && Found(34, 149)
    ensures SiftedCount(150) == 35
  {
    hide SiftedCount;
    Primes126();
    SixMore(21);
    SixMore(22);
    SixMore(23);
    SixMore(24);
  }

  lemma Primes174()
    ensures Found(35, 151) && Found(36, 157) && Found(37, 163) && Found(38, 167) && Found(39, 173)
    ensures SiftedCount(174) == 40
  {
    hide SiftedCount;
    Primes150();
    SixMore(25);
    SixMore(26);
    SixMore(27);
    SixMore(28);
  }

  lemma Primes198()
    ensures Found(40, 179) && Found(41, 181) && Found(42, 191) && Found(43, 193) && Found(44, 197)
    ensures SiftedCount(198) == 45
  {
    hide SiftedCount;
    Primes174();
    SixMore(29);
    SixMore(30);
    SixMore(31);
    SixMore(32);
  }

  lemma Primes222()
    ensures Found(45, 199) && Found(46, 211)
    ensures SiftedCount(222) == 47
  {
    hide SiftedCount;
    Primes198();
    SixMore(33);
    SixMore(34);
    SixMore(35);
    SixMore(36);
  }

  lemma Primes246()
    ensures Found(47, 223) && Found(48, 227) && Found(49, 229) && Found(50, 233) && Found(51, 239)
    ensures Found(52, 241)
    ensures SiftedCount(246) == 53
  {
    hide SiftedCount;
    Primes222();
    SixMore(37);
    SixMore(38);
    SixMore(39);
    SixMore(40);
  }

  lemma Primes270()
    ensures Found(53, 251) && Found(54, 257) && Found(55, 263) && Found(56, 269)
    ensures SiftedCount(270) == 57
  {
    hide SiftedCount;
    Primes246();
    SixMore(41);
    SixMore(42);
    SixMore(43);
    SixMore(44);
  }

  lemma Primes294()
    ensures Found(57, 271) && Found(58, 277) && Found(59, 281) && Found(60, 283) && Found(61, 293)
    ensures SiftedCount(294) == 62
  {
    hide SiftedCount;
    Primes270();
    SixMore(45);
    SixMore(46);
    SixMore(47);
    SixMore(48);
  }

  lemma Primes312()
    ensures Found(62, 307) && Found(63, 311)
    ensures SiftedCount(312) == 64
  {
    hide SiftedCount;
    Primes294();
    SixMore(49);
    SixMore(50);
    SixMore(51);
  }

  lemma FoundFrom0(i: nat)
    requires 0 <= i < 16
    ensures Found(i, PrimeNumber(i))
  {
    hide Found, SiftedCount;
    Primes6();
    Primes30();
    Primes54();
  }

  lemma FoundFrom16(i: nat)
    requires 16 <= i < 32
    ensures Found(i, PrimeNumber(i))
  {
    hide Found, SiftedCount;
    Primes78();
    Primes102();
    Primes126();
    Primes150();
  }

  lemma FoundFrom32(i: nat)
    requires 32 <= i < 48
    ensures Found(i, PrimeNumber(i))
  {
    hide Found, SiftedCount;
    Primes150();
    Primes174();
    Primes198();
    Primes222();
    Primes246();
  }

  lemma FoundFrom48(i: nat)
    requires 48 <= i < 64
    ensures Found(i, PrimeNumber(i))
  {
    hide Found, SiftedCount;
    Primes246();
    Primes270();
    Primes294();
    Primes312();
  }

  /** They are. */
  lemma FirstPrimes(i: nat)
    requires i < 64
    ensures IsPrimeNumber(i, PrimeNumber(i))
  {
    hide Prime, Sifted, PrimeNumber;
    if i < 16 {
      FoundFrom0(i);
    } else if i < 32 {
      FoundFrom16(i);
    } else if i < 48 {
      FoundFrom32(i);
    } else {
      FoundFrom48(i);
    }
    Small(i);
    SiftedArePrime(PrimeNumber(i));
    CountSifted(PrimeNumber(i));
  }

  lemma Small(i: nat)
    requires i < 64
    ensures PrimeNumber(i) < 361
  {
  }

  // ---------- roots ----------

  /** A number with `n` before the point and the 32 bits `k` behind it, as a multiple of 2^-32. */
  function Fixed(n: nat, k: nat): nat {
    UINT32 * n + k
  }

  function Square(x: nat): nat { x * x }
  function Cube(x: nat): nat { x * x * x }

  /** The bits `k` are the first 32 bits of the fractional part of the root. */
  ghost predicate SquareRootBits(p: nat, k: nat) {
    exists n :: Square(Fixed(n, k)) <= p * Square(UINT32) < Square(Fixed(n, k) + 1)
  }

  ghost predicate CubeRootBits(p: nat, k: nat) {
    exists n :: Cube(Fixed(n, k)) <= p * Cube(UINT32) < Cube(Fixed(n, k) + 1)
  }

  lemma Roots0(i: nat)
    requires 0 <= i < 8
    ensures CubeRootBits(PrimeNumber(i), RoundConstant(i) as int)
  {
    assert Cube(Fixed(1, 0x428A2F98)) <= 2 * Cube(UINT32) < Cube(Fixed(1, 0x428A2F98) + 1);
    assert Cube(Fixed(1, 0x71374491)) <= 3 * Cube(UINT32) < Cube(Fixed(1, 0x71374491) + 1);
    assert Cube(Fixed(1, 0xB5C0FBCF)) <= 5 * Cube(UINT32) < Cube(Fixed(1, 0xB5C0FBCF) + 1);
    assert Cube(Fixed(1, 0xE9B5DBA5)) <= 7 * Cube(UINT32) < Cube(Fixed(1, 0xE9B5DBA5) + 1);
    assert Cube(Fixed(2, 0x3956C25B)) <= 11 * Cube(UINT32) < Cube(Fixed(2, 0x3956C25B) + 1);
    assert Cube(Fixed(2, 0x59F111F1)) <= 13 * Cube(UINT32) < Cube(Fixed(2, 0x59F111F1) + 1);
    assert Cube(Fixed(2, 0x923F82A4)) <= 17 * Cube(UINT32) < Cube(Fixed(2, 0x923F82A4) + 1);
    assert Cube(Fixed(2, 0xAB1C5ED5)) <= 19 * Cube(UINT32) < Cube(Fixed(2, 0xAB1C5ED5) + 1);
  }

  lemma Roots8(i: nat)
    requires 8 <= i < 16
    ensures CubeRootBits(PrimeNumber(i), RoundConstant(i) as int)
  {
    assert Cube(Fixed(2, 0xD807AA98)) <= 23 * Cube(UINT32) < Cube(Fixed(2, 0xD807AA98) + 1);
    assert Cube(Fixed(3, 0x12835B01)) <= 29 * Cube(UINT32) < Cube(Fixed(3, 0x12835B01) + 1);
    assert Cube(Fixed(3, 0x243185BE)) <= 31 * Cube(UINT32) < Cube(Fixed(3, 0x243185BE) + 1);
    assert Cube(Fixed(3, 0x550C7DC3)) <= 37 * Cube(UINT32) < Cube(Fixed(3, 0x550C7DC3) + 1);
    assert Cube(Fixed(3, 0x72BE5D74)) <= 41 * Cube(UINT32) < Cube(Fixed(3, 0x72BE5D74) + 1);
    assert Cube(Fixed(3, 0x80DEB1FE)) <= 43 * Cube(UINT32) < Cube(Fixed(3, 0x80DEB1FE) + 1);
    assert Cube(Fixed(3, 0x9BDC06A7)) <= 47 * Cube(UINT32) < Cube(Fixed(3, 0x9BDC06A7) + 1);
    assert Cube(Fixed(3, 0xC19BF174)) <= 53 * Cube(UINT32) < Cube(Fixed(3, 0xC19BF174) + 1);
  }

  lemma Roots16(i: nat)
    requires 16 <= i < 24
    ensures CubeRootBits(PrimeNumber(i), RoundConstant(i) as int)
  {
    assert Cube(Fixed(3, 0xE49B69C1)) <= 59 * Cube(UINT32) < Cube(Fixed(3, 0xE49B69C1) + 1);
    assert Cube(Fixed(3, 0xEFBE4786)) <= 61 * Cube(UINT32) < Cube(Fixed(3, 0xEFBE4786) + 1);
    assert Cube(Fixed(4, 0x0FC19DC6)) <= 67 * Cube(UINT32) < Cube(Fixed(4, 0x0FC19DC6) + 1);
    assert Cube(Fixed(4, 0x240CA1CC)) <= 71 * Cube(UINT32) < Cube(Fixed(4, 0x240CA1CC) + 1);
    assert Cube(Fixed(4, 0x2DE92C6F)) <= 73 * Cube(UINT32) < Cube(Fixed(4, 0x2DE92C6F) + 1);
    assert Cube(Fixed(4, 0x4A7484AA)) <= 79 * Cube(UINT32) < Cube(Fixed(4, 0x4A7484AA) + 1);
    assert Cube(Fixed(4, 0x5CB0A9DC)) <= 83 * Cube(UINT32) < Cube(Fixed(4, 0x5CB0A9DC) + 1);
    assert Cube(Fixed(4, 0x76F988DA)) <= 89 * Cube(UINT32) < Cube(Fixed(4, 0x76F988DA) + 1);
  }

  lemma Roots24(i: nat)
    requires 24 <= i < 32
    ensures CubeRootBits(PrimeNumber(i), RoundConstant(i) as int)
  {
    assert Cube(Fixed(4, 0x983E5152)) <= 97 * Cube(UINT32) < Cube(Fixed(4, 0x983E5152) + 1);
    assert Cube(Fixed(4, 0xA831C66D)) <= 101 * Cube(UINT32) < Cube(Fixed(4, 0xA831C66D) + 1);
    assert Cube(Fixed(4, 0xB00327C8)) <= 103 * Cube(UINT32) < Cube(Fixed(4, 0xB00327C8) + 1);
    assert Cube(Fixed(4, 0xBF597FC7)) <= 107 * Cube(UINT32) < Cube(Fixed(4, 0xBF597FC7) + 1);
    assert Cube(Fixed(4, 0xC6E00BF3)) <= 109 * Cube(UINT32) < Cube(Fixed(4, 0xC6E00BF3) + 1);
    assert Cube(Fixed(4, 0xD5A79147)) <= 113 * Cube(UINT32) < Cube(Fixed(4, 0xD5A79147) + 1);
    assert Cube(Fixed(5, 0x06CA6351)) <= 127 * Cube(UINT32) < Cube(Fixed(5, 0x06CA6351) + 1);
    assert Cube(Fixed(5, 0x14292967)) <= 131 * Cube(UINT32) < Cube(Fixed(5, 0x14292967) + 1);
  }

  lemma Roots32(i: nat)
    requires 32 <= i < 40
    ensures CubeRootBits(PrimeNumber(i), RoundConstant(i) as int)
  {
    assert Cube(Fixed(5, 0x27B70A85)) <= 137 * Cube(UINT32) < Cube(Fixed(5, 0x27B70A85) + 1);
    assert Cube(Fixed(5, 0x2E1B2138)) <= 139 * Cube(UINT32) < Cube(Fixed(5, 0x2E1B2138) + 1);
    assert Cube(Fixed(5, 0x4D2C6DFC)) <= 149 * Cube(UINT32) < Cube(Fixed(5, 0x4D2C6DFC) + 1);
    assert Cube(Fixed(5, 0x53380D13)) <= 151 * Cube(UINT32) < Cube(Fixed(5, 0x53380D13) + 1);
    assert Cube(Fixed(5, 0x650A7354)) <= 157 * Cube(UINT32) < Cube(Fixed(5, 0x650A7354) + 1);
    assert Cube(Fixed(5, 0x766A0ABB)) <= 163 * Cube(UINT32) < Cube(Fixed(5, 0x766A0ABB) + 1);
    assert Cube(Fixed(5, 0x81C2C92E)) <= 167 * Cube(UINT32) < Cube(Fixed(5, 0x81C2C92E) + 1);
    assert Cube(Fixed(5, 0x92722C85)) <= 173 * Cube(UINT32) < Cube(Fixed(5, 0x92722C85) + 1);
  }

  lemma Roots40(i: nat)
    requires 40 <= i < 48
    ensures CubeRootBits(PrimeNumber(i), RoundConstant(i) as int)
  {
    assert Cube(Fixed(5, 0xA2BFE8A1)) <= 179 * Cube(UINT32) < Cube(Fixed(5, 0xA2BFE8A1) + 1);
    assert Cube(Fixed(5, 0xA81A664B)) <= 181 * Cube(UINT32) < Cube(Fixed(5, 0xA81A664B) + 1);
    assert Cube(Fixed(5, 0xC24B8B70)) <= 191 * Cube(UINT32) < Cube(Fixed(5, 0xC24B8B70) + 1);
    assert Cube(Fixed(5, 0xC76C51A3)) <= 193 * Cube(UINT32) < Cube(Fixed(5, 0xC76C51A3) + 1);
    assert Cube(Fixed(5, 0xD192E819)) <= 197 * Cube(UINT32) < Cube(Fixed(5, 0xD192E819) + 1);
    assert Cube(Fixed(5, 0xD6990624)) <= 199 * Cube(UINT32) < Cube(Fixed(5, 0xD6990624) + 1);
    assert Cube(Fixed(5, 0xF40E3585)) <= 211 * Cube(UINT32) < Cube(Fixed(5, 0xF40E3585) + 1);
    assert Cube(Fixed(6, 0x106AA070)) <= 223 * Cube(UINT32) < Cube(Fixed(6, 0x106AA070) + 1);
  }

  lemma Roots48(i: nat)
    requires 48 <= i < 56
    ensures CubeRootBits(PrimeNumber(i), RoundConstant(i) as int)
  {
    assert Cube(Fixed(6, 0x19A4C116)) <= 227 * Cube(UINT32) < Cube(Fixed(6, 0x19A4C116) + 1);
    assert Cube(Fixed(6, 0x1E376C08)) <= 229 * Cube(UINT32) < Cube(Fixed(6, 0x1E376C08) + 1);
    assert Cube(Fixed(6, 0x2748774C)) <= 233 * Cube(UINT32) < Cube(Fixed(6, 0x2748774C) + 1);
    assert Cube(Fixed(6, 0x34B0BCB5)) <= 239 * Cube(UINT32) < Cube(Fixed(6, 0x34B0BCB5) + 1);
    assert Cube(Fixed(6, 0x391C0CB3)) <= 241 * Cube(UINT32) < Cube(Fixed(6, 0x391C0CB3) + 1);
    assert Cube(Fixed(6, 0x4ED8AA4A)) <= 251 * Cube(UINT32) < Cube(Fixed(6, 0x4ED8AA4A) + 1);
    assert Cube(Fixed(6, 0x5B9CCA4F)) <= 257 * Cube(UINT32) < Cube(Fixed(6, 0x5B9CCA4F) + 1);
    assert Cube(Fixed(6, 0x682E6FF3)) <= 263 * Cube(UINT32) < Cube(Fixed(6, 0x682E6FF3) + 1);
  }

  lemma Roots56(i: nat)
    requires 56 <= i < 64
    ensures CubeRootBits(PrimeNumber(i), RoundConstant(i) as int)
  {
    assert Cube(Fixed(6, 0x748F82EE)) <= 269 * Cube(UINT32) < Cube(Fixed(6, 0x748F82EE) + 1);
    assert Cube(Fixed(6, 0x78A5636F)) <= 271 * Cube(UINT32) < Cube(Fixed(6, 0x78A5636F) + 1);
    assert Cube(Fixed(6, 0x84C87814)) <= 277 * Cube(UINT32) < Cube(Fixed(6, 0x84C87814) + 1);
    assert Cube(Fixed(6, 0x8CC70208)) <= 281 * Cube(UINT32) < Cube(Fixed(6, 0x8CC70208) + 1);
    assert Cube(Fixed(6, 0x90BEFFFA)) <= 283 * Cube(UINT32) < Cube(Fixed(6, 0x90BEFFFA) + 1);
    assert Cube(Fixed(6, 0xA4506CEB)) <= 293 * Cube(UINT32) < Cube(Fixed(6, 0xA4506CEB) + 1);
    assert Cube(Fixed(6, 0xBEF9A3F7)) <= 307 * Cube(UINT32) < Cube(Fixed(6, 0xBEF9A3F7) + 1);
    assert Cube(Fixed(6, 0xC67178F2)) <= 311 * Cube(UINT32) < Cube(Fixed(6, 0xC67178F2) + 1);
  }

  /** The round constants are the first 32 bits of the fractional parts of the cube roots of the first 64
      primes. */
  lemma ConstantsAreCubeRoots(i: nat)
    requires i < 64
    ensures exists p :: IsPrimeNumber(i, p) && CubeRootBits(p, RoundConstant(i) as int)
  {
    hide IsPrimeNumber, CubeRootBits, PrimeNumber, RoundConstant;
    FirstPrimes(i);
    if i < 8 {
      Roots0(i);
    } else if i < 16 {
      Roots8(i);
    } else if i < 24 {
      Roots16(i);
    } else if i < 32 {
      Roots24(i);
    } else if i < 40 {
      Roots32(i);
    } else if i < 48 {
      Roots40(i);
    } else if i < 56 {
      Roots48(i);
    } else {
      Roots56(i);
    }
  }

  function Word(h: Words, i: nat): bv32
    requires i < 8
  {
    OneOf(i, h.a, h.b, h.c, h.d, h.e, h.f, h.g, h.h)
  }

  lemma SquareRoots(i: nat)
    requires i < 8
    ensures SquareRootBits(PrimeNumber(i), Word(INITIAL, i) as int)
  {
    assert Square(Fixed(1, 0x6A09E667)) <= 2 * Square(UINT32) < Square(Fixed(1, 0x6A09E667) + 1);
    assert Square(Fixed(1, 0xBB67AE85)) <= 3 * Square(UINT32) < Square(Fixed(1, 0xBB67AE85) + 1);
    assert Square(Fixed(2, 0x3C6EF372)) <= 5 * Square(UINT32) < Square(Fixed(2, 0x3C6EF372) + 1);
    assert Square(Fixed(2, 0xA54FF53A)) <= 7 * Square(UINT32) < Square(Fixed(2, 0xA54FF53A) + 1);
    assert Square(Fixed(3, 0x510E527F)) <= 11 * Square(UINT32) < Square(Fixed(3, 0x510E527F) + 1);
    assert Square(Fixed(3, 0x9B05688C)) <= 13 * Square(UINT32) < Square(Fixed(3, 0x9B05688C) + 1);
    assert Square(Fixed(4, 0x1F83D9AB)) <= 17 * Square(UINT32) < Square(Fixed(4, 0x1F83D9AB) + 1);
    assert Square(Fixed(4, 0x5BE0CD19)) <= 19 * Square(UINT32) < Square(Fixed(4, 0x5BE0CD19) + 1);
  }

  /** The words of the initial hash value are those of the square roots of the first eight primes. */
  lemma InitialAreSquareRoots(i: nat)
    requires i < 8
    ensures exists p :: IsPrimeNumber(i, p) && SquareRootBits(p, Word(INITIAL, i) as int)
  {
    hide IsPrimeNumber, SquareRootBits, PrimeNumber, Word;
    FirstPrimes(i);
    SquareRoots(i);
  }
}
