// Bytes on a migration stream and the big-endian integers written by the
// qemu_put_be64 family.

module Wire {
  import opened Common

  type byte = b: int | 0 <= b < 256

  const U64: nat := 0x1_0000_0000_0000_0000

  function Pow256(k: nat): (r: nat)
    ensures r > 0
  {
    if k == 0 then 1 else 256 * Pow256(k - 1)
  }

  /** The k low-order bytes of n, most significant first. */
  function PutBe(n: nat, k: nat): (s: seq<byte>)
    ensures |s| == k
  {
    if k == 0 then [] else PutBe(n / 256, k - 1) + [n % 256]
  }

  function GetBe(s: seq<byte>): (n: nat)
  {
    if s == [] then 0 else 256 * GetBe(s[..|s| - 1]) + s[|s| - 1]
  }

  /** A value that fits in k bytes is read back unchanged. */
  lemma {:induction false} GetPutBe(n: nat, k: nat)
    requires n < Pow256(k)
    ensures GetBe(PutBe(n, k)) == n
  {
    if k != 0 {
      var p := Pow256(k - 1);
      assert n < 256 * p;
      assert n / 256 < p;
      GetPutBe(n / 256, k - 1);
      hide Pow256;
      var front := PutBe(n / 256, k - 1);
      assert (front + [n % 256])[..k - 1] == front;
    }
  }

  function PutBe64(n: nat): (s: seq<byte>)
    ensures |s| == 8
  {
    PutBe(n, 8)
  }

  /** Byte i of a big-endian field counts 256 to the power of the number of bytes
      behind it. */
  lemma {:induction false} BeDigit(n: nat, k: nat, i: nat)
    requires i < k
    ensures PutBe(n, k)[i] == n / Pow256(k - 1 - i) % 256
  {
    if i < k - 1 {
      BeDigit(n / 256, k - 1, i);
      ShiftByte(n, Pow256(k - 2 - i));
    }
  }

  lemma ShiftByte(n: nat, b: nat)
    requires b > 0
    ensures n / 256 / b == n / (256 * b)
  {
    var q, s := n / 256 / b, n / 256 % b;
    assert q * (256 * b) == 256 * (q * b);
    DivUnique(n, 256 * b, q, s * 256 + n % 256);
  }

  /** The bytes of a small number. */
  lemma SmallBe64(n: nat)
    requires n < 0x1_0000_0000
    ensures PutBe64(n) == [0, 0, 0, 0, n / 0x100_0000, n / 0x1_0000 % 256, n / 0x100 % 256, n % 256]
  {
    hide PutBe;
    assert Pow256(2) == 0x1_0000;
    assert Pow256(4) == 0x1_0000_0000;
    forall i: nat | i < 8
      ensures PutBe64(n)[i] == [0, 0, 0, 0, n / 0x100_0000, n / 0x1_0000 % 256, n / 0x100 % 256, n % 256][i]
    {
      BeDigit(n, 8, i);
      if i < 4 {
        HighByte(n, 7 - i);
      }
    }
  }

  /** Nothing is left of a small number above its four bytes. */
  lemma {:induction false} HighByte(n: nat, e: nat)
    requires n < 0x1_0000_0000 && e >= 4
    ensures n / Pow256(e) == 0
  {
    assert Pow256(e) >= 0x1_0000_0000 by { PowGrows(e); }
    DivUnique(n, Pow256(e), 0, n);
  }

  lemma {:induction false} PowGrows(e: nat)
    requires e >= 4
    ensures Pow256(e) >= 0x1_0000_0000
  {
    if e > 4 {
      PowGrows(e - 1);
    } else {
      assert Pow256(2) == 0x1_0000;
    }
  }

  lemma GetPutBe64(n: nat)
    requires n < U64
    ensures GetBe(PutBe64(n)) == n
  {
    assert Pow256(8) == U64 by {
      assert Pow256(2) == 65536;
      assert Pow256(4) == 65536 * 65536;
    }
    GetPutBe(n, 8);
  }

  /** Bit test of flags that are powers of two. */
  predicate HasFlag(flags: nat, flag: nat)
    requires flag > 0
  {
    flags / flag % 2 == 1
  }

  /** C string seen through a buffer: everything before the first NUL. */
  function CStr(s: seq<byte>): seq<byte> {
    if s == [] || s[0] == 0 then [] else [s[0]] + CStr(s[1..])
  }

  lemma {:induction false} CStrNoNul(s: seq<byte>)
    requires 0 !in s
    ensures CStr(s) == s
  {
    if s != [] {
      CStrNoNul(s[1..]);
    }
  }

  /** Reading a field that was just written: the field, and what follows it. */
  lemma SplitAt(a: seq<byte>, b: seq<byte>)
    ensures (a + b)[..|a|] == a
    ensures (a + b)[|a|..] == b
  {
  }

  /** A name and its length in front of other bytes. */
  lemma ReadName(name: seq<byte>, rest: seq<byte>)
    requires |name| < 256 && 0 !in name
    ensures var s := [|name|] + name + rest;
      s[0] == |name| && CStr(s[1..s[0] as int + 1]) == name && s[s[0] as int + 1..] == rest
  {
    CStrNoNul(name);
    var s := [|name|] + name + rest;
    assert s[1..|name| + 1] == name;
  }

  /** Bytes off .. off + |d| replaced by d. */
  function Splice(data: seq<byte>, off: nat, d: seq<byte>): (r: seq<byte>)
    requires off + |d| <= |data|
    ensures |r| == |data|
  {
    data[..off] + d + data[off + |d|..]
  }
}
