/**
 JavaScript's 32-bit bit operators, over unbounded integers.

 A 32-bit word is held as its unsigned value; `Signed` is the number a script reads from it.
 */
module JsInt {

  const WORD: nat := 0x1_0000_0000
  const HALF: nat := 0x8000_0000

  /** `x` times the `n`-th power of two. */
  function Scaled(x: nat, n: nat): nat {
    if n == 0 then x else 2 * Scaled(x, n - 1)
  }

  /** Bitwise or. */
  function Or(a: nat, b: nat): nat
    decreases a + b
  {
    if a == 0 then b else if b == 0 then a
    else (if a % 2 == 1 || b % 2 == 1 then 1 else 0) + 2 * Or(a / 2, b / 2)
  }

  function Wrap(x: nat): nat {
    x % WORD
  }

  /** `x << n`, where only the low five bits of the count matter. */
  function Shl(x: nat, n: nat): nat {
    Wrap(Scaled(x, n % 32))
  }

  function Signed(word: nat): int {
    if Wrap(word) >= HALF then Wrap(word) - WORD else Wrap(word)
  }

  lemma {:induction false} ScaledSum(a: nat, b: nat, n: nat)
    ensures Scaled(a + b, n) == Scaled(a, n) + Scaled(b, n)
  {
    if n > 0 { ScaledSum(a, b, n - 1); }
  }

  lemma {:induction false} ScaledMore(x: nat, m: nat, n: nat)
    ensures Scaled(Scaled(x, m), n) == Scaled(x, m + n)
  {
    if n > 0 { ScaledMore(x, m, n - 1); }
  }

  lemma {:induction false} ScaledMono(a: nat, b: nat, m: nat, n: nat)
    requires a <= b && m <= n
    ensures Scaled(a, m) <= Scaled(b, n)
  {
    if n > 0 {
      if m == n { ScaledMono(a, b, m - 1, n - 1); } else { ScaledMono(a, b, m, n - 1); }
    }
  }

  lemma OrDouble(x: nat, z: nat)
    requires x > 0 && z > 0
    ensures Or(x, 2 * z) == x % 2 + 2 * Or(x / 2, z)
  {
    assert 2 * z % 2 == 0 && 2 * z / 2 == z;
  }

  /** Words whose bits do not overlap are joined by adding them. */
  lemma {:induction false} OrDisjoint(x: nat, y: nat, n: nat)
    requires x < Scaled(1, n)
    ensures Or(x, Scaled(y, n)) == x + Scaled(y, n)
  {
    if x != 0 && Scaled(y, n) != 0 {
      var z := Scaled(y, n - 1);
      assert Scaled(y, n) == 2 * z;
      OrDisjoint(x / 2, y, n - 1);
      OrDouble(x, z);
    }
  }

  lemma {:induction false} OrCommutes(a: nat, b: nat)
    ensures Or(a, b) == Or(b, a)
    decreases a + b
  {
    if a != 0 && b != 0 { OrCommutes(a / 2, b / 2); }
  }

  /** A shift whose result stays below 2^31 loses nothing. */
  lemma ShlExact(x: nat, n: nat)
    requires Scaled(x, n) < HALF
    ensures Shl(x, n) == Scaled(x, n)
  {
    if x == 0 {
      ScaledZero(n);
      ScaledZero(n % 32);
    } else {
      ShiftBelow(x, n);
      ShlSmall(x, n);
    }
  }

  lemma ShiftBelow(x: nat, n: nat)
    requires x > 0 && Scaled(x, n) < HALF
    ensures n < 31
  {
    ScaledMono(1, x, n, n);
    ScaledLarge(n);
  }

  lemma ShlSmall(x: nat, n: nat)
    requires n < 32 && Scaled(x, n) < WORD
    ensures Shl(x, n) == Scaled(x, n)
  {
    var k := n % 32;
    assert k == n;
    var y := Scaled(x, k);
    assert y < WORD;
    assert Wrap(y) == y;
  }

  lemma ScaledLarge(n: nat)
    ensures n >= 31 ==> Scaled(1, n) >= HALF
  {
    if n >= 31 {
      ScaledHalf();
      ScaledMono(1, 1, 31, n);
    }
  }

  lemma ScaledHalf()
    ensures Scaled(1, 31) == HALF
  {
    ScaledBySeven(1);
    ScaledBySeven(128);
    ScaledMore(1, 7, 7);
    ScaledBySeven(16384);
    ScaledMore(1, 14, 7);
    ScaledBySeven(2097152);
    ScaledMore(1, 21, 7);
    ScaledBySeven(268435456);
    ScaledMore(1, 28, 3);
  }

  lemma ScaledWord()
    ensures Scaled(1, 32) == WORD
  {
    ScaledHalf();
  }

  lemma ScaledBySeven(x: nat)
    ensures Scaled(x, 3) == 8 * x && Scaled(x, 4) == 16 * x && Scaled(x, 7) == 128 * x
  {
    assert Scaled(x, 1) == 2 * x;
    assert Scaled(x, 2) == 4 * x;
    assert Scaled(x, 5) == 2 * Scaled(x, 4);
    assert Scaled(x, 6) == 2 * Scaled(x, 5);
  }

  lemma ScaledByBytes(x: nat)
    ensures Scaled(x, 8) == 0x100 * x && Scaled(x, 16) == 0x1_0000 * x && Scaled(x, 24) == 0x100_0000 * x
  {
    ScaledBySeven(x);
    ScaledBySeven(128 * x);
    ScaledMore(x, 7, 7);
    ScaledBySeven(16384 * x);
    ScaledMore(x, 14, 7);
    ScaledMore(x, 14, 2);
    ScaledMore(x, 21, 3);
    ScaledBySeven(2097152 * x);
    assert Scaled(16384 * x, 1) == 2 * (16384 * x);
    assert Scaled(16384 * x, 2) == 4 * (16384 * x);
  }

  lemma {:induction false} ScaledZero(n: nat)
    ensures Scaled(0, n) == 0
  {
    if n > 0 { ScaledZero(n - 1); }
  }

  // ---- what the operators mean ----

  /** The number read from a word: its value modulo 2^32, between -2^31 and 2^31. */
  lemma SignedMeans(word: nat)
    ensures -0x8000_0000 <= Signed(word) < 0x8000_0000
    ensures (Signed(word) - word) % 0x1_0000_0000 == 0
  {
    var q := word / WORD;
    assert word == WORD * q + word % WORD;
    assert Signed(word) == word - WORD * q || Signed(word) == word - WORD * (q + 1);
    Multiples(q);
    Multiples(q + 1);
  }

  lemma Multiples(q: int)
    ensures (-(0x1_0000_0000 * q)) % 0x1_0000_0000 == 0
  {
  }

  /** Or works bit by bit. */
  lemma OrBits(a: nat, b: nat)
    ensures Or(a, b) % 2 == 1 <==> a % 2 == 1 || b % 2 == 1
    ensures Or(a, b) / 2 == Or(a / 2, b / 2)
  {
  }

  /** A shift by one more place doubles the word, and a shift by 32 places is none. */
  lemma ShlMeans(x: nat, n: nat)
    ensures Shl(x, 0) == x % 0x1_0000_0000 && Shl(x, n + 32) == Shl(x, n)
    ensures n < 31 ==> Shl(x, n + 1) == 2 * Shl(x, n) % 0x1_0000_0000
  {
    hide Scaled, Wrap;
    ShlCount(x, n);
    ShlCount(x, n + 32);
    ShlCount(x, 0);
    ScaledOnce(x, n);
    if n < 31 {
      ShlCount(x, n + 1);
      DoubleWraps(Scaled(x, n));
    }
  }

  lemma ShlCount(x: nat, n: nat)
    ensures n < 32 ==> Shl(x, n) == Scaled(x, n) % 0x1_0000_0000
    ensures Shl(x, n) == Scaled(x, n % 32) % 0x1_0000_0000 && (n + 32) % 32 == n % 32
  {
    hide Scaled;
  }

  lemma ScaledOnce(x: nat, n: nat)
    ensures Scaled(x, 0) == x && Scaled(x, n + 1) == 2 * Scaled(x, n)
  {
  }

  lemma DoubleWraps(y: nat)
    ensures 2 * y % 0x1_0000_0000 == 2 * (y % 0x1_0000_0000) % 0x1_0000_0000
  {
    var q, r := y / 0x1_0000_0000, y % 0x1_0000_0000;
    assert 2 * y == 2 * r + 0x1_0000_0000 * (2 * q);
    ModShift(2 * r, 2 * q);
  }

  lemma ModShift(r: nat, k: nat)
    ensures (r + 0x1_0000_0000 * k) % 0x1_0000_0000 == r % 0x1_0000_0000
  {
  }
}
