/** Byte strings, the vocabulary of every other module. */
module Bytes {

  type Byte = bv8
  type Bytes = seq<Byte>

  /** A 32-byte value: a key, a key partition or a hash. */
  type Block = b: Bytes | |b| == 32 witness seq(32, _ => 0)

  /** The 24 random bytes in front of every ciphertext. */
  type Nonce = b: Bytes | |b| == 24 witness seq(24, _ => 0)

  datatype Option<+T> = None | Some(value: T)

  function Min(a: nat, b: nat): nat {
    if a < b then a else b
  }

  function Zeros(n: nat): (z: Bytes)
    ensures |z| == n && forall i :: 0 <= i < n ==> z[i] == 0
  {
    seq(n, _ => 0)
  }

  /** The first `n` bytes of a random source. */
  function Drawn(n: nat, random: nat -> Byte): (b: Bytes)
    ensures |b| == n && forall i :: 0 <= i < n ==> b[i] == random(i)
  {
    seq(n, i requires 0 <= i => random(i))
  }

  /** `s` with the bytes from `at` on overwritten by `d`. */
  function Splice(s: Bytes, at: nat, d: Bytes): (r: Bytes)
    requires at + |d| <= |s|
    ensures |r| == |s|
    ensures forall i {:trigger r[i]} :: 0 <= i < |s| ==> r[i] == if at <= i < at + |d| then d[i - at] else s[i]
  {
    s[..at] + d + s[at + |d|..]
  }

  /** Overwriting inside a window is overwriting the window. */
  lemma SpliceWithin(s: Bytes, off: nat, len: nat, at: nat, d: Bytes)
    requires at + |d| <= len && off + len <= |s|
    ensures Splice(s, off + at, d)[off..off + len] == Splice(s[off..off + len], at, d)
  {
  }

  lemma SpliceAll(s: Bytes, d: Bytes)
    requires |s| == |d|
    ensures Splice(s, 0, d) == d
  {
  }

  lemma SpliceStart(s: Bytes, at: nat, d: Bytes)
    requires at + |d| <= |s|
    ensures Splice(s, at, d)[..at + |d|] == s[..at] + d
  {
  }

  lemma SpliceNothing(s: Bytes, at: nat)
    requires at <= |s|
    ensures Splice(s, at, []) == s
  {
  }

  function Xor(a: Bytes, b: Bytes): (r: Bytes)
    requires |a| == |b|
    ensures |r| == |a|
    ensures forall i :: 0 <= i < |a| ==> r[i] == a[i] ^ b[i]
  {
    seq(|a|, i requires 0 <= i < |a| => a[i] ^ b[i])
  }

  lemma XorZero(a: Bytes)
    ensures Xor(a, Zeros(|a|)) == a
  {
  }

  lemma XorByteFixed(a: Byte, b: Byte)
    ensures a ^ b == a <==> b == 0
  {
  }

  /** Only the zero mask leaves the bytes as they are. */
  lemma XorFixed(a: Bytes, b: Bytes)
    requires |a| == |b|
    ensures Xor(a, b) == a <==> b == Zeros(|b|)
  {
    forall i | 0 <= i < |a|
      ensures Xor(a, b)[i] == a[i] <==> b[i] == 0
    {
      XorByteFixed(a[i], b[i]);
    }
  }

  lemma XorByteCancels(a: Byte, b: Byte)
    ensures (a ^ b) ^ b == a
    ensures b ^ (a ^ b) == a
  {
  }

  /** Masking twice with the same bytes is the identity, on either side. */
  lemma XorCancels(a: Bytes, b: Bytes)
    requires |a| == |b|
    ensures Xor(Xor(a, b), b) == a
    ensures Xor(b, Xor(a, b)) == a
  {
    forall i | 0 <= i < |a|
      ensures Xor(Xor(a, b), b)[i] == a[i] && Xor(b, Xor(a, b))[i] == a[i]
    {
      XorByteCancels(a[i], b[i]);
    }
  }

  lemma XorByteResplit(l: Byte, h: Byte, k: Byte)
    ensures k ^ (l ^ (h ^ k)) == h ^ l
  {
  }

  /** Replacing the mask `h` by `k` inside `l` changes nothing under the new mask. */
  lemma XorResplit(l: Bytes, h: Bytes, k: Bytes)
    requires |l| == |h| == |k|
    ensures Xor(k, Xor(l, Xor(h, k))) == Xor(h, l)
  {
    forall i | 0 <= i < |l|
      ensures Xor(k, Xor(l, Xor(h, k)))[i] == Xor(h, l)[i]
    {
      XorByteResplit(l[i], h[i], k[i]);
    }
  }
}
