/** Fixed-width words, bytes and the result types shared by every component. */
module Words {

  const U64: int := 0x1_0000_0000_0000_0000
  const PAGE_SIZE: int := 4096

  type byte = x: int | 0 <= x < 256
  type u64 = x: int | 0 <= x < 0x1_0000_0000_0000_0000

  datatype Option<+T> = None | Some(value: T)

  datatype Result<+T, +E> = Ok(value: T) | Err(error: E)

  /** 256 to the power n. */
  function Pow256(n: nat): (p: int)
    ensures p > 0
  {
    if n == 0 then 1 else 256 * Pow256(n - 1)
  }

  /** The low n bytes of v, least significant first (to_le_bytes, truncated). */
  function ToLittleEndian(v: nat, n: nat): (bytes: seq<byte>)
    ensures |bytes| == n
  {
    if n == 0 then [] else [v % 256] + ToLittleEndian(v / 256, n - 1)
  }

  /** The number whose little-endian bytes are given (from_le_bytes). */
  function FromLittleEndian(bytes: seq<byte>): (v: nat)
  {
    if bytes == [] then 0 else bytes[0] + 256 * FromLittleEndian(bytes[1..])
  }

  /** Decoding an encoding keeps exactly the value modulo 256^n. */
  lemma {:induction false} LittleEndianRoundTrip(v: nat, n: nat)
    ensures FromLittleEndian(ToLittleEndian(v, n)) == v % Pow256(n)
  {
    if n == 0 {
    } else {
      LittleEndianRoundTrip(v / 256, n - 1);
      assert ToLittleEndian(v, n)[1..] == ToLittleEndian(v / 256, n - 1);
      SplitModulus(v, 256, Pow256(n - 1));
    }
  }

  /** Low digit and high digits in base b. */
  lemma SplitModulus(v: int, b: int, p: int)
    requires b > 0 && p > 0
    ensures b * p > 0 && v % b + b * ((v / b) % p) == v % (b * p)
  {
    var q := v / b;
    var r := v % b + b * (q % p);
    MulAtLeast(b, p);
    MulMonotone(q % p, p - 1, b);
    assert b * (q % p) == (q % p) * b && b * (p - 1) == (p - 1) * b && b * (p - 1) == b * p - b;
    assert v == r + (b * p) * (q / p) by {
      assert q == p * (q / p) + q % p;
      assert b * q == b * (p * (q / p)) + b * (q % p);
      assert b * (p * (q / p)) == (b * p) * (q / p);
    }
    ModUnique(v, b * p, q / p, r);
  }

  lemma MulMonotone(a: int, b: int, c: int)
    requires a <= b && 0 <= c
    ensures a * c <= b * c
  {
    assert (b - a) * c >= 0;
    assert (b - a) * c == b * c - a * c;
  }

  lemma MulAtLeast(m: int, k: int)
    requires m > 0 && k >= 1
    ensures m * k >= m
  {
  }

  lemma ModUnique(v: int, m: int, k: int, r: int)
    requires m > 0 && 0 <= r < m && v == r + m * k
    ensures v % m == r && v / m == k
  {
    var q, s := v / m, v % m;
    assert v == m * q + s;
    assert m * (k - q) == m * k - m * q;
    assert m * (q - k) == m * q - m * k;
    if k > q {
      MulAtLeast(m, k - q);
      assert false;
    } else if k < q {
      MulAtLeast(m, q - k);
      assert false;
    }
  }

  lemma Pow256Eight()
    ensures Pow256(8) == U64
  {
    assert Pow256(4) == 0x1_0000_0000;
    assert Pow256(8) == 256 * 256 * 256 * 256 * Pow256(4) by {
      assert Pow256(8) == 256 * Pow256(7);
      assert Pow256(7) == 256 * Pow256(6);
      assert Pow256(6) == 256 * Pow256(5);
      assert Pow256(5) == 256 * Pow256(4);
    }
  }

  /** A 64-bit value survives its eight-byte encoding. */
  lemma WordRoundTrip(v: u64)
    ensures FromLittleEndian(ToLittleEndian(v, 8)) == v
  {
    LittleEndianRoundTrip(v, 8);
    Pow256Eight();
    ModUnique(v, U64, 0, v);
  }

  lemma {:induction false} LittleEndianBound(bytes: seq<byte>)
    ensures FromLittleEndian(bytes) < Pow256(|bytes|)
  {
    if bytes != [] { LittleEndianBound(bytes[1..]); }
  }

  lemma {:induction false} Pow256Monotone(n: nat, m: nat)
    requires n <= m
    ensures Pow256(n) <= Pow256(m)
  {
    if n > 0 { Pow256Monotone(n - 1, m - 1); } else if m > 0 { Pow256Monotone(0, m - 1); }
  }

  /** wrapping_add and wrapping_sub of two words. */
  function Plus(a: u64, b: u64): u64 { if a + b < U64 then a + b else a + b - U64 }

  function Minus(a: u64, b: u64): u64 { if a >= b then a - b else a - b + U64 }

  /** At most eight bytes make a word (little_endian_to_u64). */
  function WordOf(bytes: seq<byte>): u64
    requires |bytes| <= 8
  {
    LittleEndianBound(bytes);
    Pow256Monotone(|bytes|, 8);
    Pow256Eight();
    FromLittleEndian(bytes)
  }
}
