/**
 * Ideal signatures.  A signature names who signed what: it verifies for one key, one algorithm and one message.
 * Public keys are byte strings; the files hold them in hexadecimal, which loses nothing.
 */
module Signatures {
  import opened Text

  /** A public key; the registry file also knows the empty string, for "none yet". */
  type Key = b: Bytes | b != [] witness [0]

  const ED25519 := "ed25519"

  datatype Signature = Sig(key: Bytes, algorithm: string, message: string)

  /** A SigningBackend: the holder of a private key. */
  datatype Backend = Backend(key: Key, algorithm: string)

  function Sign(backend: Backend, message: string): Signature {
    Sig(backend.key, backend.algorithm, message)
  }

  predicate VerifySignature(message: string, signature: Signature, key: Bytes, algorithm: string) {
    signature == Sig(key, algorithm, message)
  }

  // ---------- The bytes of a signature ----------

  function Ones(n: nat): (b: Bytes)
    ensures |b| == n
  {
    if n == 0 then [] else [1] + Ones(n - 1)
  }

  function CountOnes(b: Bytes): (n: nat)
    ensures n <= |b|
  {
    if b == [] || b[0] != 1 then 0 else 1 + CountOnes(b[1..])
  }

  lemma {:induction false} CountsOnes(n: nat, tail: Bytes)
    requires tail != [] && tail[0] != 1
    ensures CountOnes(Ones(n) + tail) == n
  {
    var b := Ones(n) + tail;
    if n > 0 {
      CountsOnes(n - 1, tail);
      assert b[0] == 1 && b[1..] == Ones(n - 1) + tail;
    } else {
      assert b == tail;
    }
  }

  /** Each character in unary with a zero after it, and one zero more at the end. */
  function PackText(t: string): Bytes {
    if t == [] then [0] else Ones(t[0] as int + 1) + ([0] + PackText(t[1..]))
  }

  function UnpackChar(n: nat): char {
    if n < 0xD800 || 0xE000 <= n < 0x110000 then n as char else '?'
  }

  function UnpackText(b: Bytes): (string, Bytes) {
    var n := CountOnes(b);
    if n == 0 || n == |b| then ("", if b == [] then [] else b[1..])
    else
      var (t, rest) := UnpackText(b[n + 1..]);
      ([UnpackChar(n - 1)] + t, rest)
  }

  lemma {:induction false} UnpackPacked(t: string, rest: Bytes)
    ensures UnpackText(PackText(t) + rest) == (t, rest)
  {
    var b := PackText(t) + rest;
    if t == [] {
      assert b[0] == 0 && b[1..] == rest;
    } else {
      var n, tail := t[0] as int + 1, [0] + PackText(t[1..]) + rest;
      assert b == Ones(n) + tail;
      CountsOnes(n, tail);
      assert b[n + 1..] == PackText(t[1..]) + rest;
      UnpackPacked(t[1..], rest);
      assert t == [t[0]] + t[1..];
    }
  }

  function UnpackSignature(b: Bytes): Signature {
    var (algorithm, rest) := UnpackText(b);
    var (message, key) := UnpackText(rest);
    Sig(key, algorithm, message)
  }

  function PackSignature(s: Signature): (b: Bytes)
    ensures UnpackSignature(b) == s
  {
    UnpackPacked(s.algorithm, PackText(s.message) + s.key);
    UnpackPacked(s.message, s.key);
    PackText(s.algorithm) + (PackText(s.message) + s.key)
  }

  datatype Coding = Coding(write: Signature -> Bytes, read: Bytes -> Signature)

  predicate ReadsBack(c: Coding, s: Signature) {
    c.read(c.write(s)) == s
  }

  /** How signatures are written as bytes: nothing is known but that what is written reads back. */
  type SignatureCoding = c: Coding | forall s :: ReadsBack(c, s)
    witness Coding((s: Signature) => PackSignature(s), (b: Bytes) => UnpackSignature(b))

  const SIGNATURES: SignatureCoding
}
