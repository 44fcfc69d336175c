/**
 * The machine arithmetic the filters rest on: 64-bit words as naturals below 2^64, shifts, the
 * bitwise `or`, and little-endian bytes.
 */
module Bits {
  const WORD: nat := 0x1_0000_0000_0000_0000
  const HALF: nat := 0x1_0000_0000

  type Byte = b: nat | b < 256

  function Shl(i: nat): (r: nat)
    ensures r > 0
  {
    if i == 0 then 1 else 2 * Shl(i - 1)
  }

  function Shr(w: nat, i: nat): nat {
    if i == 0 then w else Shr(w / 2, i - 1)
  }

  function Bit(w: nat, i: nat): bool {
    Shr(w, i) % 2 == 1
  }

  function Or(a: nat, b: nat): nat {
    if a == 0 && b == 0 then 0
    else 2 * Or(a / 2, b / 2) + (if a % 2 == 1 || b % 2 == 1 then 1 else 0)
  }

  lemma {:induction false} BitOr(a: nat, b: nat, i: nat)
    ensures Bit(Or(a, b), i) <==> Bit(a, i) || Bit(b, i)
  {
    if a == 0 && b == 0 {
      ZeroHasNoBits(i);
    } else if i > 0 {
      assert Or(a, b) / 2 == Or(a / 2, b / 2);
      BitOr(a / 2, b / 2, i - 1);
    }
  }

  lemma {:induction false} ZeroHasNoBits(i: nat)
    ensures !Bit(0, i)
  {
    if i > 0 {
      ZeroHasNoBits(i - 1);
    }
  }

  /** `1 << i` has bit `i` and no other. */
  lemma {:induction false} BitOfShl(i: nat, j: nat)
    ensures Bit(Shl(i), j) <==> i == j
  {
    if i == 0 && j > 0 {
      ZeroHasNoBits(j - 1);
    } else if i > 0 && j > 0 {
      assert Shl(i) / 2 == Shl(i - 1);
      BitOfShl(i - 1, j - 1);
    }
  }

  lemma {:induction false} OrBelow(a: nat, b: nat, n: nat)
    requires a < Shl(n) && b < Shl(n)
    ensures Or(a, b) < Shl(n)
  {
    if n > 0 {
      OrBelow(a / 2, b / 2, n - 1);
    }
  }

  lemma {:induction false} ShlAdds(i: nat, n: nat)
    requires i < n
    ensures Shl(i) < Shl(n)
  {
    if i + 1 < n {
      ShlAdds(i, n - 1);
    }
  }

  lemma ShlByByte(i: nat)
    ensures Shl(i + 8) == 256 * Shl(i)
  {
    assert Shl(i + 4) == 16 * Shl(i) by {
      assert Shl(i + 2) == 4 * Shl(i);
      assert Shl(i + 4) == 4 * Shl(i + 2);
    }
    assert Shl(i + 6) == 4 * Shl(i + 4);
    assert Shl(i + 8) == 4 * Shl(i + 6);
  }

  lemma WordIsShl()
    ensures Shl(64) == WORD
  {
    hide Shl;
    ShlByByte(0);
    ShlByByte(8);
    ShlByByte(16);
    ShlByByte(24);
    ShlByByte(32);
    ShlByByte(40);
    ShlByByte(48);
    ShlByByte(56);
    ShlZero();
  }

  lemma ShlZero()
    ensures Shl(0) == 1
  {
  }

  // ---------- little-endian bytes ----------

  function Pow256(k: nat): (r: nat)
    ensures r > 0
  {
    if k == 0 then 1 else 256 * Pow256(k - 1)
  }

  function LeBytes(n: nat, k: nat): (r: seq<Byte>)
    ensures |r| == k
  {
    if k == 0 then [] else [n % 256] + LeBytes(n / 256, k - 1)
  }

  function FromLe(s: seq<Byte>): nat {
    if s == [] then 0 else s[0] + 256 * FromLe(s[1..])
  }

  /** Byte `i` is the digit of weight 256^i: the least significant byte comes first. */
  lemma {:induction false} LeDigit(n: nat, k: nat, i: nat)
    requires i < k
    ensures LeBytes(n, k)[i] == ShrBytes(n, i) % 256
  {
    if i > 0 {
      LeDigit(n / 256, k - 1, i - 1);
    }
  }

  function ShrBytes(n: nat, i: nat): nat {
    if i == 0 then n else ShrBytes(n / 256, i - 1)
  }

  lemma {:induction false} LeRoundTrip(n: nat, k: nat)
    requires n < Pow256(k)
    ensures FromLe(LeBytes(n, k)) == n
  {
    if k > 0 {
      LeRoundTrip(n / 256, k - 1);
    }
  }

  lemma {:induction false} LeInverse(s: seq<Byte>)
    ensures FromLe(s) < Pow256(|s|) && LeBytes(FromLe(s), |s|) == s
  {
    if s != [] {
      LeInverse(s[1..]);
      assert FromLe(s) % 256 == s[0] && FromLe(s) / 256 == FromLe(s[1..]);
    }
  }

  lemma Pow256Is()
    ensures Pow256(4) == HALF && Pow256(8) == WORD
  {
    assert Pow256(4) == 256 * (256 * (256 * (256 * Pow256(0))));
    assert Pow256(8) == 256 * (256 * (256 * (256 * Pow256(4))));
  }
}
