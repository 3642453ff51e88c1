/** Machine words and little-endian byte strings, on unbounded integers with the width written out. */
module Words {

  const WORD: int := 0x1_0000_0000_0000_0000
  const U32_LIMIT: int := 0x1_0000_0000

  type u8 = x: int | 0 <= x < 0x100
  type u16 = x: int | 0 <= x < 0x1_0000
  type u32 = x: int | 0 <= x < 0x1_0000_0000
  type u64 = x: int | 0 <= x < 0x1_0000_0000_0000_0000

  datatype Option<+T> = None | Some(value: T)

  /** `wrapping_*` arithmetic keeps the low 64 bits. */
  function Wrap(x: int): (r: u64) {
    x % WORD
  }

  function WrappingAdd(a: u64, b: u64): (r: u64) {
    Wrap(a + b)
  }

  function WrappingSub(a: u64, b: u64): (r: u64) {
    Wrap(a - b)
  }

  function Pow256(width: nat): (r: nat)
    ensures 0 < r
  {
    if width == 0 then 1 else 256 * Pow256(width - 1)
  }

  /** The low `width` bytes of `n` in two's complement, least significant first. */
  function Le(n: int, width: nat): (s: seq<u8>)
    ensures |s| == width
    decreases width
  {
    if width == 0 then [] else [n % 256] + Le(n / 256, width - 1)
  }

  /** The unsigned number a little-endian byte string denotes. */
  function FromLe(s: seq<u8>): (n: nat)
    ensures n < Pow256(|s|)
  {
    if s == [] then 0 else s[0] + 256 * FromLe(s[1..])
  }

  /** Writing truncates to `width` bytes and nothing else is lost. */
  lemma {:induction false} LeTruncates(n: int, width: nat)
    ensures FromLe(Le(n, width)) == n % Pow256(width)
    decreases width
  {
    if width > 0 {
      var p := Pow256(width - 1);
      LeTruncates(n / 256, width - 1);
      assert Le(n, width)[1..] == Le(n / 256, width - 1);
      SplitMod(n, p);
    }
  }

  /** n mod 256p, split at the low byte. */
  lemma SplitMod(n: int, p: int)
    requires 0 < p
    ensures n % (256 * p) == n % 256 + 256 * ((n / 256) % p)
  {
    var q := n / 256;
    var k := q / p;
    var r := n % 256 + 256 * (q % p);
    assert q == p * k + q % p;
    assert n == 256 * q + n % 256;
    assert 256 * q == (256 * p) * k + 256 * (q % p) by {
      assert 256 * (p * k) == (256 * p) * k;
    }
    assert n == (256 * p) * k + r;
    assert 0 <= r < 256 * p;
    UniqueRemainder(n, 256 * p, k, r);
  }

  lemma MulAtLeast(d: int, e: int)
    requires 0 < d && 1 <= e
    ensures d <= d * e
  {
  }

  lemma MulMono(a: nat, b: nat, c: nat)
    requires a <= b
    ensures a * c <= b * c
  {
    var gap := b - a;
    assert 0 <= gap * c;
    assert b * c == a * c + gap * c;
  }

  lemma PositiveMultiple(d: int, e: int)
    requires 0 < d && 0 < d * e
    ensures d <= d * e
  {
    if e >= 1 {
      MulAtLeast(d, e);
    }
  }

  lemma SmallMultiple(d: int, e: int)
    requires -d < d * e < d
    ensures e == 0
  {
    if e >= 1 {
      MulAtLeast(d, e);
    } else if e <= -1 {
      MulAtLeast(d, -e);
    }
  }

  lemma UniqueRemainder(n: int, d: int, k: int, r: int)
    requires 0 < d && n == d * k + r && 0 <= r < d
    ensures n / d == k && n % d == r
  {
    var e := n / d - k;
    assert d * e == d * (n / d) - d * k;
    SmallMultiple(d, e);
  }

  lemma SliceOfSlice(m: seq<u8>, start: nat, width: nat, i: nat, j: nat)
    requires start + width <= |m| && i <= j <= width
    ensures m[start..start + width][i..j] == m[start + i..start + j]
  {
    var left, right := m[start..start + width][i..j], m[start + i..start + j];
    forall k | 0 <= k < j - i
      ensures left[k] == right[k]
    {
      assert left[k] == m[start..start + width][i + k] == m[start + i + k];
    }
  }

  /** `n` blocks of equal size, added up one by one. */
  function Times(n: nat, size: nat): (r: nat) {
    if n == 0 then 0 else size + Times(n - 1, size)
  }

  lemma {:induction false} TimesIsProduct(n: nat, size: nat)
    ensures Times(n, size) == n * size
  {
    if n > 0 {
      TimesIsProduct(n - 1, size);
      assert n * size == (n - 1) * size + size;
    }
  }

  lemma {:induction false} TimesGrows(m: nat, n: nat, size: nat)
    requires m <= n
    ensures Times(m, size) <= Times(n, size)
  {
    if m < n {
      TimesGrows(m, n - 1, size);
    }
  }
}
