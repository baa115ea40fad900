/**
 * SHA-256 as the ledger uses it: a function from byte strings to 32-byte digests about which nothing
 * else is known.  No such function is injective on all strings, so a result that rests on collision
 * resistance names the messages it concerns: `Ideal(known)` says that the hash has no collision among
 * them and never yields 32 zero bytes, the value the ledger reserves for "nothing before this".
 */
module Sha {
  import opened Text

  /** A 32-byte digest, as the number its bytes write in base 256. */
  type Digest = d: int | 0 <= d < 0x1_0000000000000000_0000000000000000_0000000000000000_0000000000000000

  function Pow256(n: nat): nat {
    if n == 0 then 1 else 256 * Pow256(n - 1)
  }

  function BigEndian(d: nat, n: nat): (b: Bytes)
    ensures |b| == n
  {
    if n == 0 then [] else BigEndian(d / 256, n - 1) + [d % 256]
  }

  /** The bytes of a digest. */
  function Raw(d: Digest): (b: Bytes)
    ensures |b| == 32
  {
    BigEndian(d, 32)
  }

  lemma {:induction false} BigEndianInjective(a: nat, b: nat, n: nat)
    requires a < Pow256(n) && b < Pow256(n) && BigEndian(a, n) == BigEndian(b, n)
    ensures a == b
  {
    if n > 0 {
      var x, y := BigEndian(a, n), BigEndian(b, n);
      assert x[n - 1] == a % 256 && y[n - 1] == b % 256;
      assert x[..n - 1] == BigEndian(a / 256, n - 1) && y[..n - 1] == BigEndian(b / 256, n - 1);
      BigEndianInjective(a / 256, b / 256, n - 1);
    }
  }

  lemma {:induction false} Pow256Of32()
    ensures Pow256(32) == 0x1_0000000000000000_0000000000000000_0000000000000000_0000000000000000
  {
    assert Pow256(8) == 0x1_0000000000000000;
    assert Pow256(16) == 0x1_0000000000000000_0000000000000000;
    assert Pow256(24) == 0x1_0000000000000000_0000000000000000_0000000000000000;
  }

  lemma {:induction false} HexRawInjective(a: Digest, b: Digest)
    requires Hex(Raw(a)) == Hex(Raw(b))
    ensures a == b
  {
    HexInjective(Raw(a), Raw(b));
    Pow256Of32();
    BigEndianInjective(a, b, 32);
  }

  lemma {:induction false} RawInjective(a: Digest, b: Digest)
    requires Raw(a) == Raw(b)
    ensures a == b
  {
    HexRawInjective(a, b);
  }

  function ZeroText(n: nat): (r: string)
    ensures |r| == n && forall i | 0 <= i < n :: r[i] == '0'
  {
    if n == 0 then [] else "0" + ZeroText(n - 1)
  }

  /** The type whose one value is the text of 64 zeros. */
  type ZeroHash = s: string | |s| == 64 && forall i | 0 <= i < 64 :: s[i] == '0' witness ZeroText(64)

  /** The hash text of the record before the first one, and the root of the empty tree. */
  const GENESIS: ZeroHash

  const SHA256: Bytes -> Digest

  ghost predicate Ideal(known: iset<Bytes>) {
    && (forall m, n {:trigger SHA256(m), SHA256(n)} | m in known && n in known && SHA256(m) == SHA256(n) :: m == n)
    && (forall m {:trigger SHA256(m)} | m in known :: SHA256(m) != 0)
  }

  function HashText(text: string): (h: string)
    ensures IsHash(h)
  {
    Hex(Raw(SHA256(Utf8(text))))
  }

  lemma {:induction false} HexOfZero(n: nat)
    ensures forall i | 0 <= i < 2 * n :: Hex(BigEndian(0, n))[i] == '0'
  {
    if n > 0 {
      HexOfZero(n - 1);
      HexAppend(BigEndian(0, n - 1), 0);
    }
  }

  lemma {:induction false} HexAppend(b: Bytes, x: byte)
    ensures Hex(b + [x]) == Hex(b) + [HexDigit(x / 16), HexDigit(x % 16)]
  {
    if b == [] {
      assert b + [x] == [x] && [x][1..] == [];
    } else {
      assert (b + [x])[1..] == b[1..] + [x];
      HexAppend(b[1..], x);
    }
  }

  /** Only the zero digest is written as the genesis text. */
  lemma {:induction false} HexRawGenesis(d: Digest)
    ensures Hex(Raw(d)) == GENESIS <==> d == 0
  {
    HexOfZero(32);
    assert Hex(Raw(0)) == GENESIS;
    if Hex(Raw(d)) == GENESIS {
      HexRawInjective(d, 0);
    }
  }

  /** No record's hash is the genesis text. */
  lemma {:induction false} HashTextNotGenesis(known: iset<Bytes>, a: string)
    requires Ideal(known) && Utf8(a) in known
    ensures HashText(a) != GENESIS
  {
    HexRawGenesis(SHA256(Utf8(a)));
  }

  lemma {:induction false} HashTextInjective(known: iset<Bytes>, a: string, b: string)
    requires Ideal(known) && Utf8(a) in known && Utf8(b) in known
    requires HashText(a) == HashText(b)
    ensures a == b
  {
    HexRawInjective(SHA256(Utf8(a)), SHA256(Utf8(b)));
    Utf8Injective(a, b);
  }
}
