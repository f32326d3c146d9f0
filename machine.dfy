/** Machine integers of the x86-64 Windows kernel the hypervisor runs in, and
    the mathematical power function the utilities are specified against. */
module Machine {

  datatype Option<T> = None | Some(value: T)

  const TWO_32: int := 0x1_0000_0000
  const TWO_64: int := 0x1_0000_0000_0000_0000
  const INT32_MIN: int := -0x8000_0000
  const INT32_MAX: int := 0x7FFF_FFFF

  /** `uintptr_t`, `size_t`, `ULONG64`, `KAFFINITY`: unsigned 64-bit. */
  type u64 = x: int | 0 <= x < TWO_64

  /** `int` under MSVC: signed 32-bit. */
  type int32 = x: int | INT32_MIN <= x <= INT32_MAX

  predicate IsInt32(x: int) {
    INT32_MIN <= x <= INT32_MAX
  }

  /** Unsigned 64-bit arithmetic: the value modulo 2^64. */
  function Wrap64(x: int): (r: u64)
    ensures (r - x) % TWO_64 == 0
    ensures 0 <= x < TWO_64 ==> r == x
  {
    x % TWO_64
  }

  /** Narrowing to a signed 32-bit `int` the way the x86-64 compilers do it:
      keep the low 32 bits and read them in two's complement. */
  function Wrap32(x: int): (r: int32)
    ensures (r - x) % TWO_32 == 0
    ensures IsInt32(x) ==> r == x
  {
    var low := x % TWO_32;
    if low <= INT32_MAX then low else low - TWO_32
  }

  /** Two values congruent modulo 2^32 narrow to the same `int`. */
  lemma Wrap32Congruent(x: int, y: int)
    requires (x - y) % TWO_32 == 0
    ensures Wrap32(x) == Wrap32(y)
  {
    assert x % TWO_32 == y % TWO_32 by {
      var k := (x - y) / TWO_32;
      assert x == y + k * TWO_32;
    }
  }

  /** Narrowing after every multiplication gives the same `int` as narrowing
      the exact product once. */
  lemma Wrap32Product(x: int, b: int)
    ensures Wrap32(Wrap32(x) * b) == Wrap32(x * b)
  {
    var w := Wrap32(x);
    var k := (w - x) / TWO_32;
    assert w == x + k * TWO_32;
    assert w * b - x * b == (k * b) * TWO_32;
    Wrap32Congruent(w * b, x * b);
  }

  /** base^power over the unbounded integers. */
  function Pow(base: int, power: nat): (r: int)
    ensures base > 0 ==> r > 0
  {
    if power == 0 then 1 else Pow(base, power - 1) * base
  }

  lemma {:induction false} PowAdd(base: int, m: nat, n: nat)
    ensures Pow(base, m + n) == Pow(base, m) * Pow(base, n)
  {
    if n > 0 {
      PowAdd(base, m, n - 1);
      var a, b := Pow(base, m), Pow(base, n - 1);
      calc {
        Pow(base, m + n);
        Pow(base, m + n - 1) * base;
        (a * b) * base;
        { MulAssociative(a, b, base); }
        a * (b * base);
        a * Pow(base, n);
      }
    }
  }

  lemma MulAssociative(a: int, b: int, c: int)
    ensures (a * b) * c == a * (b * c)
  {
  }

  lemma {:induction false} PowMonotone(m: nat, n: nat)
    requires m <= n
    ensures Pow(2, m) <= Pow(2, n)
  {
    if m < n {
      PowMonotone(m, n - 1);
    }
  }

  /** The powers of two the word widths are made of. */
  lemma PowersOfTwo()
    ensures Pow(2, 30) == 0x4000_0000
    ensures Pow(2, 31) == 0x8000_0000
    ensures Pow(2, 32) == TWO_32
    ensures Pow(2, 63) == 0x8000_0000_0000_0000
    ensures Pow(2, 64) == TWO_64
  {
    assert Pow(2, 1) == 2;
    PowAdd(2, 1, 1);
    PowAdd(2, 2, 2);
    PowAdd(2, 4, 4);
    PowAdd(2, 8, 8);
    PowAdd(2, 16, 16);
    PowAdd(2, 30, 2);
    PowAdd(2, 32, 32);
    assert Pow(2, 32) == Pow(2, 31) * 2;
    assert Pow(2, 64) == Pow(2, 63) * 2;
  }

  /** Bit `p` of a non-negative integer is set. */
  predicate BitSet(x: nat, p: nat)
  {
    if p == 0 then x % 2 == 1 else BitSet(x / 2, p - 1)
  }

  lemma {:induction false} NoBitOfZero(p: nat)
    ensures !BitSet(0, p)
  {
    if p > 0 {
      NoBitOfZero(p - 1);
    }
  }

  /** 2^n has bit n set and no other. */
  lemma {:induction false} BitsOfPowerOfTwo(n: nat, p: nat)
    ensures BitSet(Pow(2, n), p) <==> p == n
  {
    if n == 0 {
      if p > 0 {
        NoBitOfZero(p - 1);
      }
    } else {
      assert Pow(2, n) == Pow(2, n - 1) * 2;
      if p > 0 {
        BitsOfPowerOfTwo(n - 1, p - 1);
      }
    }
  }

  /** 2^k - 1 has bits 0 to k - 1 set and no other. */
  lemma {:induction false} BitsOfAllOnes(k: nat, p: nat)
    ensures Pow(2, k) - 1 >= 0
    ensures BitSet(Pow(2, k) - 1, p) <==> p < k
  {
    if k == 0 {
      NoBitOfZero(p);
    } else {
      var lower := Pow(2, k - 1) - 1;
      assert Pow(2, k) - 1 == 2 * lower + 1;
      assert (Pow(2, k) - 1) / 2 == lower;
      if p > 0 {
        BitsOfAllOnes(k - 1, p - 1);
      }
    }
  }

  /** Multiplying by 2^n moves every bit up by n places. */
  lemma {:induction false} BitsOfShifted(q: nat, n: nat, p: nat)
    ensures Pow(2, n) * q >= 0
    ensures BitSet(Pow(2, n) * q, p + n) <==> BitSet(q, p)
  {
    if n > 0 {
      BitsOfShifted(q, n - 1, p);
      var half := Pow(2, n - 1) * q;
      assert Pow(2, n) * q == 2 * half by {
        assert Pow(2, n) == Pow(2, n - 1) * 2;
        MulAssociative(Pow(2, n - 1), 2, q);
        MulAssociative(2, Pow(2, n - 1), q);
      }
      assert (2 * half) / 2 == half;
      assert BitSet(2 * half, p + n) == BitSet(half, p + n - 1);
    }
  }
}
