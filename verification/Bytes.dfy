/** Bytes, C strings and big-endian integers, as every component of the repository uses them. */
module Bytes {
  import opened CStrings

  type byte = x: int | 0 <= x < 256

  function CStr(s: seq<byte>): (r: seq<byte>)
    ensures |r| <= |s| && r == s[..|r|] && 0 !in r
    ensures |r| < |s| ==> s[|r|] == 0
  {
    CString(s, 0)
  }

  lemma CStrOf(s: seq<byte>, t: seq<byte>)
    requires 0 !in t && t <= s && (|t| == |s| || s[|t|] == 0)
    ensures CStr(s) == t
  {
    CStringIs(s, t, 0);
  }

  /** `getchar` at offset `i` of the unread input; -1 stands for EOF. */
  function CharAt(s: seq<byte>, i: nat): int {
    if i < |s| then s[i] else -1
  }

  /** The unread input after `n` calls of `getchar`. */
  function Drop(s: seq<byte>, n: nat): (r: seq<byte>)
    ensures |r| <= |s|
    ensures n <= |s| ==> |r| == |s| - n
  {
    if n <= |s| then s[n..] else []
  }

  lemma DropDrop(s: seq<byte>, m: nat, n: nat)
    ensures Drop(Drop(s, m), n) == Drop(s, m + n)
    ensures CharAt(Drop(s, m), n) == CharAt(s, m + n)
  {
  }

  /** `n` characters stored through a `char`: EOF becomes 0xFF. */
  function Take(s: seq<byte>, n: nat): (r: seq<byte>)
    ensures |r| == n
    ensures n <= |s| ==> r == s[..n]
  {
    seq(n, i requires 0 <= i < n => if i < |s| then s[i] else 255)
  }

  /** Two's complement reading of a 64-bit `off_t`. */
  function Wrap64(x: int): (r: int)
    ensures -0x8000_0000_0000_0000 <= r < 0x8000_0000_0000_0000
    ensures -0x8000_0000_0000_0000 <= x < 0x8000_0000_0000_0000 ==> r == x
  {
    (x + 0x8000_0000_0000_0000) % 0x1_0000_0000_0000_0000 - 0x8000_0000_0000_0000
  }

  /** The big-endian number made of the next `n` characters. */
  function Number(s: seq<byte>, n: nat): int {
    if n == 0 then 0 else Wrap64(Number(s, n - 1) * 256 + CharAt(s, n - 1))
  }

  function Pow256(n: nat): (r: nat)
    ensures r >= 1
  {
    if n == 0 then 1 else 256 * Pow256(n - 1)
  }

  /** Byte `k` of `v`, counting from the least significant one. */
  function Digit(v: int, k: nat): byte
    decreases k
  {
    if k == 0 then v % 256 else Digit(v / 256, k - 1)
  }

  /** The `n` low-order bytes of `v`, most significant first. */
  function BigEndian(v: int, n: nat): (r: seq<byte>)
    ensures |r| == n
  {
    seq(n, i requires 0 <= i < n => Digit(v, n - 1 - i))
  }

  lemma FourDigits(v: nat)
    ensures Digit(v, 1) == v / 256 % 256
    ensures Digit(v, 2) == v / 256 / 256 % 256
    ensures Digit(v, 3) == v / 256 / 256 / 256 % 256
  {
    assert Digit(v, 2) == Digit(v / 256, 1) == Digit(v / 256 / 256, 0);
    assert Digit(v, 3) == Digit(v / 256, 2) == Digit(v / 256 / 256, 1) == Digit(v / 256 / 256 / 256, 0);
  }

  lemma {:induction false} NumberPrefix(s: seq<byte>, t: seq<byte>, n: nat)
    requires forall i | 0 <= i < n :: CharAt(s, i) == CharAt(t, i)
    ensures Number(s, n) == Number(t, n)
  {
    if n == 0 {
    } else {
      NumberPrefix(s, t, n - 1);
    }
  }

  /** Reading `n` big-endian bytes gives back the number they were made from. */
  lemma {:induction false} NumberOfDigits(v: nat, n: nat, s: seq<byte>)
    requires v < Pow256(n) && v < 0x8000_0000_0000_0000
    requires n <= |s| && forall i | 0 <= i < n :: s[i] == Digit(v, n - 1 - i)
    ensures Number(s, n) == v
  {
    if n == 0 {
    } else {
      assert s[n - 1] == Digit(v, 0);
      forall i | 0 <= i < n - 1 ensures s[i] == Digit(v / 256, n - 2 - i) {
        assert s[i] == Digit(v, n - 1 - i);
      }
      NumberOfDigits(v / 256, n - 1, s);
    }
  }

  lemma Pow256Values()
    ensures Pow256(2) == 0x1_0000 && Pow256(4) == 0x1_0000_0000 && Pow256(8) == 0x1_0000_0000_0000_0000
  {
    assert Pow256(2) == 256 * 256;
    assert Pow256(4) == 256 * 256 * Pow256(2);
    assert Pow256(6) == 256 * 256 * Pow256(4);
    assert Pow256(8) == 256 * 256 * Pow256(6);
  }
}
