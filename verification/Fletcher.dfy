/** The Fletcher checksums: sums that are reduced once a block instead of once a word, against the
    one's-complement sums of RFC 1146. */
module Fletcher {
  import opened Arithmetic

  // ---------- the plain sums ----------

  predicate Words(data: seq<int>, base: nat) {
    forall i | 0 <= i < |data| :: 0 <= data[i] < base
  }

  /** Sum of the words. */
  function Sum(data: seq<int>): int {
    if data == [] then 0 else Sum(data[..|data| - 1]) + data[|data| - 1]
  }

  /** Sum of the running sums. */
  function SumOfSums(data: seq<int>): int {
    if data == [] then 0 else SumOfSums(data[..|data| - 1]) + Sum(data)
  }

  /** The representative of `v` modulo `m` between 1 and `m`. */
  function Residue(v: int, m: int): (r: int)
    requires m > 0
    ensures 1 <= r <= m
  {
    if v % m == 0 then m else v % m
  }

  /** There is only one such representative. */
  lemma ResidueUnique(r: int, v: int, k: int, m: int)
    requires m > 0 && 1 <= r <= m && r == v + m * k
    ensures r == Residue(v, m)
  {
    if r == m {
      assert v == m * (1 - k) + 0;
      QuotientOf(v, m, 1 - k, 0);
    } else {
      assert v == m * (-k) + r;
      QuotientOf(v, m, -k, r);
    }
  }

  // ---------- sums up to multiples of the modulus ----------

  /** `x` is `v` but for a multiple of `m`. */
  ghost predicate Congruent(x: int, v: int, m: int) {
    exists k :: Shifted(v, k, m) == x
  }

  ghost function Shifted(v: int, k: int, m: int): int {
    v + m * k
  }

  lemma CongruentSum(x: int, v: int, y: int, w: int, m: int)
    requires Congruent(x, v, m) && Congruent(y, w, m)
    ensures Congruent(x + y, v + w, m)
  {
    var k :| Shifted(v, k, m) == x;
    var l :| Shifted(w, l, m) == y;
    assert m * (k + l) == m * k + m * l;
    assert Shifted(v + w, k + l, m) == x + y;
  }

  lemma CongruentSelf(x: int, k: int, m: int)
    ensures Congruent(x, x + m * k, m) && Congruent(x + m * k, x, m)
  {
    assert m * (-k) == -(m * k);
    assert Shifted(x + m * k, -k, m) == x;
    assert Shifted(x, k, m) == x + m * k;
  }

  lemma CongruentLess(x: int, v: int, m: int)
    requires Congruent(x, v, m)
    ensures Congruent(x - m, v, m)
  {
    CongruentSelf(-m, 1, m);
    CongruentSum(x, v, -m, 0, m);
  }

  lemma CongruentResidue(r: int, v: int, m: int)
    requires m > 0 && 1 <= r <= m && Congruent(r, v, m)
    ensures r == Residue(v, m)
  {
    var k :| Shifted(v, k, m) == r;
    ResidueUnique(r, v, k, m);
  }

  lemma SumStep(data: seq<int>, d: int)
    ensures Sum(data + [d]) == Sum(data) + d
    ensures SumOfSums(data + [d]) == SumOfSums(data) + Sum(data + [d])
  {
    assert (data + [d])[..|data|] == data;
  }

  // ---------- the sums of RFC 1146 ----------

  datatype Sums = Sums(a: nat, b: nat)

  /** One's-complement addition: the carry out of a word is added at its other end. */
  function OnesPlus(x: nat, y: nat, base: nat): nat
    requires base > 1
  {
    if x + y < base then x + y else x + y - base + 1
  }

  /** The accumulators A and B of Appendices I and II of RFC 1146, which start from zero. */
  function OnesSums(data: seq<int>, base: nat): Sums
    requires base > 1 && Words(data, base)
  {
    if data == [] then Sums(0, 0) else
      var n := |data| - 1;
      var s := OnesSums(data[..n], base);
      var a := OnesPlus(s.a, data[n], base);
      Sums(a, OnesPlus(s.b, a, base))
  }

  predicate AllZero(data: seq<int>) {
    forall i | 0 <= i < |data| :: data[i] == 0
  }

  lemma OnesPlusKeeps(x: nat, y: nat, base: nat, v: int, w: int)
    requires base > 1 && x < base && y < base && Congruent(x, v, base - 1) && Congruent(y, w, base - 1)
    ensures OnesPlus(x, y, base) < base && Congruent(OnesPlus(x, y, base), v + w, base - 1)
    ensures OnesPlus(x, y, base) == 0 <==> x == 0 && y == 0
  {
    hide Congruent;
    CongruentSum(x, v, y, w, base - 1);
    if x + y >= base {
      CongruentLess(x + y, v + w, base - 1);
    }
  }

  /** The accumulators are congruent to the plain sums, and zero only as long as every word was. */
  lemma {:induction false} OnesSumsKeep(data: seq<int>, base: nat)
    requires base > 1 && Words(data, base)
    ensures var s := OnesSums(data, base);
            && s.a < base && Congruent(s.a, Sum(data), base - 1) && (s.a == 0 <==> AllZero(data))
            && s.b < base && Congruent(s.b, SumOfSums(data), base - 1) && (s.b == 0 <==> AllZero(data))
  {
    hide Congruent, Sum, SumOfSums, OnesPlus;
    if data == [] {
      SumsOfNothing();
      CongruentSelf(0, 0, base - 1);
    } else {
      var n := |data| - 1;
      var front, d := data[..n], data[n];
      assert data == front + [d];
      OnesSumsKeep(front, base);
      var s := OnesSums(front, base);
      SumStep(front, d);
      CongruentSelf(d, 0, base - 1);
      OnesPlusKeeps(s.a, d, base, Sum(front), d);
      OnesPlusKeeps(s.b, OnesPlus(s.a, d, base), base, SumOfSums(front), Sum(data));
      assert AllZero(data) <==> AllZero(front) && d == 0;
    }
  }

  lemma SumsOfNothing()
    ensures Sum([]) == SumOfSums([]) == 0
  {
  }

  /** What the accumulators are, and that from all ones instead of zero they would end with the same
      but for data that is all zero. */
  lemma OnesSumsAre(data: seq<int>, base: nat)
    requires base > 1 && Words(data, base)
    ensures OnesSums(data, base)
              == if AllZero(data) then Sums(0, 0) else Sums(Residue(Sum(data), base - 1), Residue(SumOfSums(data), base - 1))
  {
    hide Congruent, Sum, SumOfSums, OnesSums, Residue;
    OnesSumsKeep(data, base);
    var s := OnesSums(data, base);
    if !AllZero(data) {
      CongruentResidue(s.a, Sum(data), base - 1);
      CongruentResidue(s.b, SumOfSums(data), base - 1);
    }
  }

  lemma {:induction false} ZeroSums(data: seq<int>)
    requires AllZero(data)
    ensures Sum(data) == 0 && SumOfSums(data) == 0
  {
    if data != [] { ZeroSums(data[..|data| - 1]); }
  }

  // ---------- the sums of the program, were they of unlimited width ----------

  /** The low part plus the high part. */
  function Folded(x: nat, base: nat): nat
    requires base > 1
  {
    x % base + x / base
  }

  /** The sums as the `n`-th word is about to be added: folded, if a block has just ended. */
  function Entering(s: Sums, n: nat, base: nat, block: nat): Sums
    requires base > 1 && block > 0
  {
    if n > 0 && n % block == 0 then Sums(Folded(s.a, base), Folded(s.b, base)) else s
  }

  /** The sums just after the last word of `data` has been added.  This is when they are largest. */
  function Running(data: seq<int>, base: nat, block: nat): Sums
    requires base > 1 && block > 0 && Words(data, base)
  {
    if data == [] then Sums(base - 1, base - 1) else
      var n := |data| - 1;
      var s := Entering(Running(data[..n], base, block), n, base, block);
      Sums(s.a + data[n], s.b + (s.a + data[n]))
  }

  // ---------- how large they get ----------

  /** Bounds for the sums after `t` words of a block that the first begins at most at m + c. */
  function Bound1(m: nat, c: nat, t: nat): nat {
    if t == 0 then m + c else Bound1(m, c, t - 1) + m
  }

  function Bound2(m: nat, c: nat, t: nat): nat {
    if t == 0 then 2 * m else Bound2(m, c, t - 1) + Bound1(m, c, t)
  }

  lemma {:induction false} Bound1Is(m: nat, c: nat, t: nat)
    ensures Bound1(m, c, t) == m * (t + 1) + c <= Bound2(m, c, t) + m + c
  {
    if t > 0 {
      Bound1Is(m, c, t - 1);
      assert m * (t + 1) == m * t + m;
    }
  }

  lemma {:induction false} Bounds32(t: nat)
    ensures Bound1(65535, 361, t) == 65896 + 65535 * t
    ensures 2 * Bound2(65535, 361, t) == 262140 + 131792 * t + 65535 * (t * (t + 1))
  {
    if t > 0 {
      Bounds32(t - 1);
      assert t * (t + 1) == (t - 1) * t + 2 * t;
    }
  }

  lemma {:induction false} Bounds16(t: nat)
    ensures Bound1(255, 22, t) == 277 + 255 * t
    ensures 2 * Bound2(255, 22, t) == 1020 + 554 * t + 255 * (t * (t + 1))
  {
    if t > 0 {
      Bounds16(t - 1);
      assert t * (t + 1) == (t - 1) * t + 2 * t;
    }
  }

  lemma {:induction false} BoundsIncrease(m: nat, c: nat, t: nat, u: nat)
    requires t <= u
    ensures Bound1(m, c, t) <= Bound1(m, c, u) && Bound2(m, c, t) <= Bound2(m, c, u)
    decreases u
  {
    if t < u { BoundsIncrease(m, c, t, u - 1); }
  }

  /** Folding keeps the value but for multiples of m, and brings the sums back to where a block may
      begin. */
  lemma FoldedKeeps(x: nat, base: nat, v: int)
    requires base > 1 && 1 <= x && Congruent(x, v, base - 1)
    ensures 1 <= Folded(x, base) && Congruent(Folded(x, base), v, base - 1)
  {
    var q, r := x / base, x % base;
    assert x == base * q + r;
    assert x == (r + q) + (base - 1) * q;
    var k :| Shifted(v, k, base - 1) == x;
    assert (base - 1) * (k - q) == (base - 1) * k - (base - 1) * q;
    assert Shifted(v, k - q, base - 1) == r + q;
    assert q == 0 ==> r == x;
  }

  lemma HighPart(x: nat, base: nat, q: nat, r: nat, c: nat)
    requires base > 1 && r < base && x == base * q + r && x < base * (c + 1)
    ensures q <= c
  {
    assert q > c ==> base * q >= base * (c + 1);
  }

  lemma FoldedSize(x: nat, base: nat, c: nat)
    requires base > 1 && x < base * (c + 1)
    ensures Folded(x, base) <= base - 1 + c
  {
    HighPart(x, base, x / base, x % base, c);
  }

  lemma FoldedTwice(x: nat, base: nat)
    requires base > 1 && x <= 2 * (base - 1)
    ensures Folded(x, base) <= base - 1
  {
    HighPart(x, base, x / base, x % base, 1);
  }

  /** How many words of the current block have been added. */
  function Place(n: nat, block: nat): (t: nat)
    requires block > 0
    ensures t <= block
  {
    if n == 0 then 0 else (n - 1) % block + 1
  }

  lemma PlaceStep(n: nat, block: nat)
    requires block > 0
    ensures Place(n + 1, block) == if n % block == 0 then 1 else Place(n, block) + 1
    ensures n % block == 0 ==> Place(n, block) == if n == 0 then 0 else block
  {
    var q, r := n / block, n % block;
    assert n == block * q + r;
    if r == 0 && n > 0 {
      assert n - 1 == block * (q - 1) + (block - 1);
      QuotientOf(n - 1, block, q - 1, block - 1);
    } else if n > 0 {
      QuotientOf(n - 1, block, q, r - 1);
    }
  }

  lemma BoundsAtStart(m: nat, c: nat)
    ensures Bound1(m, c, 0) == m + c && Bound2(m, c, 0) == 2 * m
  {
  }

  lemma Bound1Small(base: nat, c: nat, t: nat)
    requires base > 1 && t < c
    ensures Bound1(base - 1, c, t) < base * (c + 1)
  {
    hide Bound1, Bound2;
    Bound1Is(base - 1, c, t);
    assert (base - 1) * (t + 1) <= (base - 1) * c;
    assert (base - 1) * c + c + base == base * (c + 1);
  }

  lemma EnteringBounded(s: Sums, n: nat, base: nat, block: nat, c: nat)
    requires base > 1 && 0 < block < c && Bound2(base - 1, c, block) < base * base
    requires s.a <= Bound1(base - 1, c, Place(n, block)) && s.b <= Bound2(base - 1, c, Place(n, block))
    ensures var e, t := Entering(s, n, base, block), Place(n + 1, block);
            t > 0 && e.a <= Bound1(base - 1, c, t - 1) && e.b <= Bound2(base - 1, c, t - 1)
  {
    hide Folded, Bound1, Bound2, Place;
    PlaceStep(n, block);
    BoundsAtStart(base - 1, c);
    if n > 0 && n % block == 0 {
      Bound1Small(base, c, block);
      FoldedSize(s.a, base, c);
      FoldedSize(s.b, base, base - 1);
    }
  }

  lemma {:induction false} RunningBounded(data: seq<int>, base: nat, block: nat, c: nat)
    requires base > 1 && 0 < block < c && Words(data, base) && Bound2(base - 1, c, block) < base * base
    ensures var s, t := Running(data, base, block), Place(|data|, block);
            s.a <= Bound1(base - 1, c, t) && s.b <= Bound2(base - 1, c, t)
  {
    if data != [] {
      var n := |data| - 1;
      RunningBounded(data[..n], base, block, c);
      EnteringBounded(Running(data[..n], base, block), n, base, block, c);
    }
  }

  predicate Fits(s: Sums, limit: nat) {
    s.a < limit && s.b < limit
  }

  /** No sum reaches the limit that the bounds stay below, whatever the data and wherever in it. */
  lemma RunningFits(data: seq<int>, base: nat, block: nat, c: nat, limit: nat)
    requires base > 1 && 0 < block < c && Words(data, base)
    requires Bound2(base - 1, c, block) < limit <= base * base && Bound1(base - 1, c, block) < limit
    ensures Fits(Running(data, base, block), limit)
  {
    hide Running, Bound1, Bound2;
    RunningBounded(data, base, block, c);
    BoundsIncrease(base - 1, c, Place(|data|, block), block);
  }

  // ---------- the longest blocks ----------

  function Ones(n: nat, m: nat): (data: seq<int>)
    ensures |data| == n && Words(data, m + 1)
  {
    seq(n, i => m)
  }

  lemma NoOnes(m: nat, block: nat)
    requires m > 0 && block > 0
    ensures Running(Ones(0, m), m + 1, block) == Sums(m, m)
  {
  }

  lemma OnesStep(n: nat, m: nat, block: nat)
    requires m > 0 && n < block
    ensures var s := Running(Ones(n, m), m + 1, block);
            Running(Ones(n + 1, m), m + 1, block) == Sums(s.a + m, s.b + (s.a + m))
  {
    hide Folded;
    assert Ones(n + 1, m)[..n] == Ones(n, m);
    QuotientOf(n, block, 0, n);
  }

  lemma {:induction false} Peak32(n: nat, block: nat)
    requires n <= block && block > 0
    ensures var s := Running(Ones(n, 65535), 0x1_0000, block);
            s.a == 65535 + 65535 * n && 2 * s.b == 131070 + 131070 * n + 65535 * (n * (n + 1))
  {
    hide Running, Ones;
    if n == 0 {
      NoOnes(65535, block);
    } else {
      Peak32(n - 1, block);
      OnesStep(n - 1, 65535, block);
      assert n * (n + 1) == (n - 1) * n + 2 * n;
    }
  }

  lemma {:induction false} Peak16(n: nat, block: nat)
    requires n <= block && block > 0
    ensures var s := Running(Ones(n, 255), 0x100, block);
            s.a == 255 + 255 * n && 2 * s.b == 510 + 510 * n + 255 * (n * (n + 1))
  {
    hide Running, Ones;
    if n == 0 {
      NoOnes(255, block);
    } else {
      Peak16(n - 1, block);
      OnesStep(n - 1, 255, block);
      assert n * (n + 1) == (n - 1) * n + 2 * n;
    }
  }

  /** With blocks of up to 360 words no sum of any data ever leaves 32 bits, and with longer ones the
      sums of 361 words that are all ones do. */
  lemma LongestBlock32(block: nat)
    requires block > 0
    ensures (forall data | Words(data, 0x1_0000) :: Fits(Running(data, 0x1_0000, block), 0x1_0000_0000)) <==> block <= 360
  {
    hide Running, Bound1, Bound2;
    if block <= 360 {
      Bounds32(360);
      BoundsIncrease(65535, 361, block, 360);
      forall data | Words(data, 0x1_0000) ensures Fits(Running(data, 0x1_0000, block), 0x1_0000_0000) {
        RunningFits(data, 0x1_0000, block, 361, 0x1_0000_0000);
      }
    } else {
      Peak32(361, block);
      assert !Fits(Running(Ones(361, 65535), 0x1_0000, block), 0x1_0000_0000);
    }
  }

  /** For bytes and 16 bits the longest blocks are those of 21 bytes. */
  lemma LongestBlock16(block: nat)
    requires block > 0
    ensures (forall data | Words(data, 0x100) :: Fits(Running(data, 0x100, block), 0x1_0000)) <==> block <= 21
  {
    hide Running, Bound1, Bound2;
    if block <= 21 {
      Bounds16(21);
      BoundsIncrease(255, 22, block, 21);
      forall data | Words(data, 0x100) ensures Fits(Running(data, 0x100, block), 0x1_0000) {
        RunningFits(data, 0x100, block, 22, 0x1_0000);
      }
    } else {
      Peak16(22, block);
      assert !Fits(Running(Ones(22, 255), 0x100, block), 0x1_0000);
    }
  }

  // ---------- what they amount to ----------

  lemma EnteringCongruent(s: Sums, n: nat, base: nat, block: nat, v: int, w: int)
    requires base > 1 && block > 0 && s.a >= 1 && s.b >= 1
    requires Congruent(s.a, v, base - 1) && Congruent(s.b, w, base - 1)
    ensures var e := Entering(s, n, base, block);
            e.a >= 1 && e.b >= 1 && Congruent(e.a, v, base - 1) && Congruent(e.b, w, base - 1)
  {
    hide Congruent, Folded;
    FoldedKeeps(s.a, base, v);
    FoldedKeeps(s.b, base, w);
  }

  lemma {:induction false} RunningCongruent(data: seq<int>, base: nat, block: nat)
    requires base > 1 && block > 0 && Words(data, base)
    ensures var s := Running(data, base, block);
            && s.a >= 1 && Congruent(s.a, Sum(data), base - 1)
            && s.b >= 1 && Congruent(s.b, SumOfSums(data), base - 1)
  {
    hide Congruent, Sum, SumOfSums, Entering;
    if data == [] {
      SumsOfNothing();
      CongruentSelf(0, 1, base - 1);
    } else {
      var n := |data| - 1;
      var front, d := data[..n], data[n];
      assert data == front + [d];
      RunningCongruent(front, base, block);
      var r := Running(front, base, block);
      EnteringCongruent(r, n, base, block, Sum(front), SumOfSums(front));
      var e := Entering(r, n, base, block);
      SumStep(front, d);
      CongruentSelf(d, 0, base - 1);
      CongruentSum(e.a, Sum(front), d, d, base - 1);
      CongruentSum(e.b, SumOfSums(front), e.a + d, Sum(data), base - 1);
    }
  }

  /** The sums behind the block that ends with `data`, folded. */
  function Ready(data: seq<int>, base: nat, block: nat): Sums
    requires base > 1 && block > 0 && Words(data, base)
  {
    var s := Running(data, base, block);
    if data == [] then s else Sums(Folded(s.a, base), Folded(s.b, base))
  }

  /** Folded once more, the sums are the residues of the plain sums. */
  lemma FinalSums(data: seq<int>, base: nat, block: nat)
    requires base > 1 && block > 0 && Words(data, base) && Fits(Running(data, base, block), base * base)
    ensures var s := Ready(data, base, block);
            && Folded(s.a, base) == Residue(Sum(data), base - 1)
            && Folded(s.b, base) == Residue(SumOfSums(data), base - 1)
  {
    hide Congruent, Sum, SumOfSums, Running, Residue, Folded;
    RunningCongruent(data, base, block);
    var r := Running(data, base, block);
    FoldedKeeps(r.a, base, Sum(data));
    FoldedKeeps(r.b, base, SumOfSums(data));
    if data == [] {
      FirstSums(base, block);
    } else {
      FoldedSize(r.a, base, base - 1);
      FoldedSize(r.b, base, base - 1);
    }
    var s := Ready(data, base, block);
    FoldedKeeps(s.a, base, Sum(data));
    FoldedKeeps(s.b, base, SumOfSums(data));
    FoldedTwice(s.a, base);
    FoldedTwice(s.b, base);
    CongruentResidue(Folded(s.a, base), Sum(data), base - 1);
    CongruentResidue(Folded(s.b, base), SumOfSums(data), base - 1);
  }

  lemma FirstSums(base: nat, block: nat)
    requires base > 1 && block > 0
    ensures Running([], base, block) == Sums(base - 1, base - 1)
  {
  }

  lemma NotABlockEnd(from: nat, t: nat, block: nat)
    requires t < block && from % block == 0
    ensures (from + t) % block == t
  {
    QuotientOf(from + t, block, from / block, t);
  }

  /** The sums with the first `t` words of the block that begins at `from`. */
  function InBlock(data: seq<int>, from: nat, t: nat, base: nat, block: nat): Sums
    requires base > 1 && block > 0 && Words(data, base) && from + t <= |data|
  {
    if t == 0 then Ready(data[..from], base, block) else Running(data[..from + t], base, block)
  }

  lemma InBlockStep(data: seq<int>, from: nat, t: nat, base: nat, block: nat)
    requires base > 1 && t < block && Words(data, base) && from + t < |data| && from % block == 0
    ensures var s, d := InBlock(data, from, t, base, block), data[from + t];
            InBlock(data, from, t + 1, base, block) == Sums(s.a + d, s.b + (s.a + d))
  {
    hide Folded;
    var n := from + t;
    NotABlockEnd(from, t, block);
    assert data[..n + 1][..n] == data[..n];
  }

  // ---------- the program ----------

  /** An unsigned number of limited width. */
  function Cut(x: nat, limit: nat): (r: nat)
    requires limit > 0
    ensures x < limit ==> r == x
  {
    x % limit
  }

  /** The inner loop: one block, in sums of limited width. */
  method AddBlock(data: seq<int>, from: nat, tlen: nat, base: nat, block: nat, limit: nat, sum1: nat, sum2: nat)
    returns (s1: nat, s2: nat)
    requires base > 1 && 0 < tlen <= block && Words(data, base) && from + tlen <= |data| && from % block == 0
    requires Sums(sum1, sum2) == Ready(data[..from], base, block) && limit > 0
    requires forall n | 0 <= n <= |data| :: Fits(Running(data[..n], base, block), limit)
    ensures Sums(s1, s2) == Running(data[..from + tlen], base, block)
  {
    hide Running, Ready, Cut;
    s1, s2 := sum1, sum2;
    var t := 0;
    while t < tlen
      invariant t <= tlen && Sums(s1, s2) == InBlock(data, from, t, base, block)
    {
      InBlockStep(data, from, t, base, block);
      assert Fits(Running(data[..from + t + 1], base, block), limit);
      s1 := Cut(s1 + data[from + t], limit);
      s2 := Cut(s2 + s1, limit);
      t := t + 1;
    }
  }

  lemma BlockEnd(done: nat, block: nat)
    requires block > 0 && done % block == 0
    ensures (done + block) % block == 0
  {
    assert done + block == block * (done / block + 1) + 0;
    QuotientOf(done + block, block, done / block + 1, 0);
  }

  lemma ReadyIs(data: seq<int>, base: nat, block: nat)
    requires base > 1 && block > 0 && Words(data, base)
    ensures Ready([], base, block) == Sums(base - 1, base - 1)
    ensures data != [] ==>
              var s := Running(data, base, block); Ready(data, base, block) == Sums(Folded(s.a, base), Folded(s.b, base))
  {
  }

  /** The two sums of `h13_fletcher32` and `h13_fletcher16`, which differ in the size of a word, the
      length of a block and the width of the sums. */
  method FletcherSums(data: seq<int>, base: nat, block: nat, limit: nat) returns (sum1: nat, sum2: nat)
    requires base > 1 && block > 0 && Words(data, base) && 0 < limit <= base * base
    requires forall n | 0 <= n <= |data| :: Fits(Running(data[..n], base, block), limit)
    ensures sum1 == Residue(Sum(data), base - 1) && sum2 == Residue(SumOfSums(data), base - 1)
  {
    hide Running, Ready, Residue, Sum, SumOfSums, Folded;
    sum1, sum2 := base - 1, base - 1;
    var done := 0;
    assert data[..0] == [];
    ReadyIs([], base, block);
    while done < |data|
      invariant done <= |data| && (done % block == 0 || done == |data|)
      invariant Sums(sum1, sum2) == Ready(data[..done], base, block)
    {
      var tlen := if |data| - done > block then block else |data| - done;
      sum1, sum2 := AddBlock(data, done, tlen, base, block, limit, sum1, sum2);
      BlockEnd(done, block);
      done := done + tlen;
      sum1, sum2 := Folded(sum1, base), Folded(sum2, base);
      ReadyIs(data[..done], base, block);
    }
    assert data[..done] == data;
    assert Fits(Running(data[..|data|], base, block), limit);
    FinalSums(data, base, block);
    sum1, sum2 := Folded(sum1, base), Folded(sum2, base);
  }

  /** `h13_fletcher32`: the sums of Appendix II of RFC 1146, but all ones instead of zero when every word
      is zero. */
  method Fletcher32(data: seq<int>) returns (r: nat)
    requires Words(data, 0x1_0000)
    ensures r == Residue(SumOfSums(data), 65535) * 0x1_0000 + Residue(Sum(data), 65535)
    ensures var s := OnesSums(data, 0x1_0000); r == s.b * 0x1_0000 + s.a <==> !AllZero(data)
    ensures AllZero(data) ==> r == 0xFFFF_FFFF
  {
    hide Running, Residue, Sum, SumOfSums, OnesSums;
    LongestBlock32(359);
    var sum1, sum2 := FletcherSums(data, 0x1_0000, 359, 0x1_0000_0000);
    r := sum2 * 0x1_0000 + sum1;
    OnesSumsAre(data, 0x1_0000);
    if AllZero(data) {
      ZeroSums(data);
      ZeroResidue(65535);
    }
  }

  /** `h13_fletcher16`: the sums of Appendix I of RFC 1146, but all ones instead of zero when every word
      is zero. */
  method Fletcher16(data: seq<int>) returns (r: nat)
    requires Words(data, 0x100)
    ensures r == Residue(SumOfSums(data), 255) * 0x100 + Residue(Sum(data), 255)
    ensures var s := OnesSums(data, 0x100); r == s.b * 0x100 + s.a <==> !AllZero(data)
    ensures AllZero(data) ==> r == 0xFFFF
  {
    hide Running, Residue, Sum, SumOfSums, OnesSums;
    LongestBlock16(20);
    var sum1, sum2 := FletcherSums(data, 0x100, 20, 0x1_0000);
    r := sum2 * 0x100 + sum1;
    OnesSumsAre(data, 0x100);
    if AllZero(data) {
      ZeroSums(data);
      ZeroResidue(255);
    }
  }

  lemma ZeroResidue(m: int)
    requires m > 0
    ensures Residue(0, m) == m
  {
  }
}
