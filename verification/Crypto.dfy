/**
 * Authenticated encryption framing and the byte-level primitives on slices.
 *
 * The hash and the secret box are parameters: every claim holds for all functions of these types,
 * and where it needs the box to be correct it assumes `Lawful`, which `LawfulBoxExists` shows satisfiable.
 */
module Crypto {
  import opened Auxiliary
  import opened Bytes

  /** Poly1305 tag plus nonce. */
  const OVERHEAD: nat := 16 + 24

  datatype Error =
    | InvalidKeyLength
    | BufferTooSmall
    | DecryptionFailed
    | NullEnclave
    | NullBuffer
    | BufferExpired
    | CofferExpired
    | SliceOutOfRange

  datatype Result<+T> = Ok(value: T) | Err(error: Error)

  datatype Primitives = Primitives(
    hash: Bytes -> Block,
    seal: (Block, Nonce, Bytes) -> Bytes,
    open: (Block, Nonce, Bytes) -> Option<Bytes>)

  /** The box adds 16 bytes and opens exactly the boxes made with the same key and nonce. */
  ghost predicate Lawful(cr: Primitives) {
    && (forall k, n, p :: |cr.seal(k, n, p)| == |p| + 16)
    && (forall k, n, p :: cr.open(k, n, cr.seal(k, n, p)) == Some(p))
    && (forall k, n, c :: cr.open(k, n, c).Some? ==> c == cr.seal(k, n, cr.open(k, n, c).value))
  }

  /** No box made under `k` is also a box under `j`: what an attacker-free run relies on for distinct keys. */
  ghost predicate Separates(cr: Primitives, k: Block, j: Block) {
    forall n, p, q :: cr.seal(k, n, p) != cr.seal(j, n, q)
  }

  function Encrypt(cr: Primitives, plaintext: Bytes, key: Bytes, nonce: Nonce): Result<Bytes> {
    if |key| != 32 then Err(InvalidKeyLength)
    else Ok(nonce + cr.seal(key, nonce, plaintext))
  }

  /** The plaintext that `Decrypt` moves into an output of the given capacity. */
  function Decrypt(cr: Primitives, ciphertext: Bytes, key: Bytes, capacity: nat): Result<Bytes> {
    if |key| != 32 then Err(InvalidKeyLength)
    else if capacity < |ciphertext| - OVERHEAD then Err(BufferTooSmall)
    else if |ciphertext| < 24 then Err(SliceOutOfRange)
    else
      match cr.open(key, ciphertext[..24], ciphertext[24..])
      case Some(m) => Ok(m)
      case None => Err(DecryptionFailed)
  }

  /** Round trip of the framing, with the exact length and for every output that can hold it. */
  lemma DecryptEncrypt(cr: Primitives, p: Bytes, key: Block, nonce: Nonce, capacity: nat)
    requires Lawful(cr)
    ensures Encrypt(cr, p, key, nonce).Ok?
    ensures var c := Encrypt(cr, p, key, nonce).value;
            && |c| == |p| + OVERHEAD
            && Decrypt(cr, c, key, capacity) == if |p| <= capacity then Ok(p) else Err(BufferTooSmall)
  {
    var c := nonce + cr.seal(key, nonce, p);
    assert c[..24] == nonce && c[24..] == cr.seal(key, nonce, p);
  }

  /** Every error of the framing, in the order in which the checks come. */
  lemma FramingErrors(cr: Primitives, c: Bytes, key: Bytes, capacity: nat, p: Bytes, nonce: Nonce)
    requires Lawful(cr)
    ensures |key| != 32 ==> Encrypt(cr, p, key, nonce) == Err(InvalidKeyLength)
    ensures |key| != 32 ==> Decrypt(cr, c, key, capacity) == Err(InvalidKeyLength)
    ensures |key| == 32 && |c| > capacity + OVERHEAD ==> Decrypt(cr, c, key, capacity) == Err(BufferTooSmall)
    ensures |key| == 32 && 24 <= |c| <= capacity + OVERHEAD ==>
              (Decrypt(cr, c, key, capacity) == Err(DecryptionFailed) <==>
                 forall q :: c != c[..24] + cr.seal(key, c[..24], q))
  {
    if |key| == 32 && 24 <= |c| <= capacity + OVERHEAD {
      var nonce := c[..24];
      assert c == nonce + c[24..];
      forall q | c == nonce + cr.seal(key, nonce, q)
        ensures cr.open(key, nonce, c[24..]) == Some(q)
      {
        assert c[24..] == cr.seal(key, nonce, q);
      }
    }
  }

  /** Decryption succeeds on nothing but encryptions under the same key: tampering is always noticed. */
  lemma DecryptOnlyEncryptions(cr: Primitives, c: Bytes, key: Bytes, capacity: nat)
    requires Lawful(cr)
    ensures Decrypt(cr, c, key, capacity).Ok? <==>
            && |key| == 32
            && exists nonce: Nonce, p :: |p| <= capacity && Encrypt(cr, p, key, nonce) == Ok(c)
  {
    var d := Decrypt(cr, c, key, capacity);
    if d.Ok? {
      assert c == c[..24] + c[24..];
      assert Encrypt(cr, d.value, key, c[..24]) == Ok(c);
    }
    if |key| == 32 {
      forall nonce: Nonce, p | |p| <= capacity && Encrypt(cr, p, key, nonce) == Ok(c)
        ensures d == Ok(p)
      {
        DecryptEncrypt(cr, p, key, nonce, capacity);
      }
    }
  }

  /** A ciphertext never decrypts under a key that is separated from its own. */
  lemma DecryptUnderOtherKey(cr: Primitives, p: Bytes, key: Block, nonce: Nonce, other: Block, capacity: nat)
    requires Lawful(cr) && Separates(cr, key, other) && |p| <= capacity
    ensures Decrypt(cr, nonce + cr.seal(key, nonce, p), other, capacity) == Err(DecryptionFailed)
  {
    var c := nonce + cr.seal(key, nonce, p);
    assert c[..24] == nonce && c[24..] == cr.seal(key, nonce, p);
  }

  /** A concrete box: sixteen bytes of the key in front of the plaintext. */
  function ToyBox(): Primitives {
    Primitives(
      _ => Zeros(32),
      (k: Block, n: Nonce, p: Bytes) => k[..16] + p,
      (k: Block, n: Nonce, c: Bytes) => if |c| >= 16 && c[..16] == k[..16] then Some(c[16..]) else None)
  }

  /** The assumptions on the box are consistent: a lawful box separates keys that differ early on. */
  lemma LawfulBoxExists(k: Block, j: Block)
    requires k[..16] != j[..16]
    ensures Lawful(ToyBox()) && Separates(ToyBox(), k, j)
  {
    var cr := ToyBox();
    forall k: Block, n: Nonce, p: Bytes
      ensures |cr.seal(k, n, p)| == |p| + 16 && cr.open(k, n, cr.seal(k, n, p)) == Some(p)
    {
      var c := k[..16] + p;
      assert c[..16] == k[..16] && c[16..] == p;
    }
    forall k: Block, n: Nonce, c: Bytes | cr.open(k, n, c).Some?
      ensures c == cr.seal(k, n, cr.open(k, n, c).value)
    {
      assert c == c[..16] + c[16..];
    }
    forall n: Nonce, p: Bytes, q: Bytes
      ensures cr.seal(k, n, p) != cr.seal(j, n, q)
    {
      assert (k[..16] + p)[..16] == k[..16];
      assert (j[..16] + q)[..16] == j[..16];
    }
  }

  /** Overwrites the slice `a[lo..hi]` with zeroes. */
  method Wipe(a: array<Byte>, lo: nat, hi: nat)
    requires lo <= hi <= a.Length
    modifies a
    ensures a[..] == Splice(old(a[..]), lo, Zeros(hi - lo))
  {
    for i := lo to hi
      invariant forall j :: lo <= j < i ==> a[j] == 0
      invariant forall j :: 0 <= j < a.Length && !(lo <= j < i) ==> a[j] == old(a[j])
    {
      a[i] := 0;
    }
  }

  // ---------------------------------------------------------------- copying

  /** A front-to-back copy inside one array, byte after byte: later bytes are read after earlier ones were stored. */
  function Forward(m: Bytes, lo: nat, from: nat, n: nat): (r: Bytes)
    requires lo + n <= |m| && from + n <= |m|
    ensures |r| == |m|
  {
    if n == 0 then m
    else
      var before := Forward(m, lo, from, n - 1);
      before[lo + n - 1 := before[from + n - 1]]
  }

  /** Where the byte stored at `i` comes from: behind its source, a copy repeats the bytes in front of the target. */
  function Origin(lo: nat, from: nat, i: nat): (o: nat)
    requires lo <= i
    ensures from <= o
  {
    if from < lo then from + (i - lo) % (lo - from) else from + (i - lo)
  }

  lemma OriginRepeats(lo: nat, from: nat, i: nat)
    requires from < lo <= i
    ensures i - lo < lo - from ==> Origin(lo, from, i) == from + (i - lo)
    ensures lo - from <= i - lo ==> Origin(lo, from, i) == Origin(lo, from, i - (lo - from))
  {
    var k, d := i - lo, lo - from;
    if k < d {
      DivModUnique(k, d, 0, k);
    } else {
      var q := k / d;
      assert (q - 1) * d == q * d - d;
      DivModUnique(k - d, d, q - 1, k % d);
    }
  }

  lemma {:induction false} OriginInside(lo: nat, from: nat, i: nat)
    requires lo <= i
    ensures Origin(lo, from, i) <= from + (i - lo)
    decreases i
  {
    if from < lo {
      OriginRepeats(lo, from, i);
      if lo - from <= i - lo {
        OriginInside(lo, from, i - (lo - from));
      }
    }
  }

  /** Every byte of the result of a front-to-back copy, overlapping or not. */
  ghost predicate CopiedForward(m: Bytes, r: Bytes, lo: nat, from: nat, n: nat) {
    && |r| == |m| && lo + n <= |m| && from + n <= |m|
    && (forall i :: lo <= i < lo + n ==> Origin(lo, from, i) < |m| && r[i] == m[Origin(lo, from, i)])
    && (forall i :: 0 <= i < |m| && !(lo <= i < lo + n) ==> r[i] == m[i])
  }

  lemma CopiedOneMore(m: Bytes, r: Bytes, lo: nat, from: nat, n: nat)
    requires CopiedForward(m, r, lo, from, n) && lo + n < |m| && from + n < |m|
    ensures CopiedForward(m, r[lo + n := r[from + n]], lo, from, n + 1)
  {
    OriginInside(lo, from, lo + n);
    if from < lo {
      OriginRepeats(lo, from, lo + n);
    }
    hide Origin;
    assert r[from + n] == m[Origin(lo, from, lo + n)];
  }

  lemma {:induction false} ForwardBytes(m: Bytes, lo: nat, from: nat, n: nat)
    requires lo + n <= |m| && from + n <= |m|
    ensures CopiedForward(m, Forward(m, lo, from, n), lo, from, n)
  {
    if n > 0 {
      ForwardBytes(m, lo, from, n - 1);
      CopiedOneMore(m, Forward(m, lo, from, n - 1), lo, from, n - 1);
    }
  }

  predicate RepeatsAt(m: Bytes, d: nat, i: nat)
    requires d <= i < |m|
  {
    m[i] == m[i - d]
  }

  /** The source repeats itself, at the distance between source and target, wherever the two overlap. */
  ghost predicate Periodic(m: Bytes, d: nat, from: nat, n: nat)
    requires from + n <= |m|
  {
    forall i :: from + d <= i < from + n ==> RepeatsAt(m, d, i)
  }

  lemma {:induction false} PeriodicOrigin(m: Bytes, lo: nat, from: nat, n: nat, i: nat)
    requires from < lo <= i < lo + n && from + n <= |m| && Periodic(m, lo - from, from, n)
    ensures Origin(lo, from, i) < |m| && m[Origin(lo, from, i)] == m[from + (i - lo)]
    decreases i
  {
    hide Origin;
    OriginRepeats(lo, from, i);
    if lo - from <= i - lo {
      PeriodicOrigin(m, lo, from, n, i - (lo - from));
      assert RepeatsAt(m, lo - from, from + (i - lo));
    }
  }

  lemma OriginForward(lo: nat, from: nat, i: nat)
    requires lo <= from && lo <= i
    ensures Origin(lo, from, i) == from + (i - lo)
  {
  }

  /** What the builtin copy stores at `i`. */
  lemma BuiltinAt(m: Bytes, lo: nat, from: nat, n: nat, i: nat)
    requires lo + n <= |m| && from + n <= |m| && lo <= i < lo + n
    ensures Splice(m, lo, m[from..from + n])[i] == m[from + (i - lo)]
  {
    assert m[from..from + n][i - lo] == m[from + (i - lo)];
  }

  lemma PeriodicIsBuiltin(m: Bytes, r: Bytes, lo: nat, from: nat, n: nat)
    requires CopiedForward(m, r, lo, from, n) && (lo <= from || Periodic(m, lo - from, from, n))
    ensures r == Splice(m, lo, m[from..from + n])
  {
    hide Origin, Periodic;
    var b := Splice(m, lo, m[from..from + n]);
    forall i | lo <= i < lo + n
      ensures r[i] == b[i]
    {
      BuiltinAt(m, lo, from, n, i);
      if lo <= from { OriginForward(lo, from, i); } else { PeriodicOrigin(m, lo, from, n, i); }
    }
  }

  lemma BuiltinIsPeriodic(m: Bytes, r: Bytes, lo: nat, from: nat, n: nat)
    requires CopiedForward(m, r, lo, from, n) && from < lo && r == Splice(m, lo, m[from..from + n])
    ensures Periodic(m, lo - from, from, n)
  {
    hide Origin, Splice;
    var d: nat := lo - from;
    forall i | lo <= i < from + n
      ensures RepeatsAt(m, d, i)
    {
      var k := lo + (i - from);
      OriginRepeats(lo, from, k);
      BuiltinAt(m, lo, from, n, k);
      BuiltinAt(m, lo, from, n, k - d);
    }
  }

  /**
   * `Copy` is documented to be the builtin copy, which moves the bytes as they were. Inside one array it is exactly
   * when the target does not begin behind the source, or the source repeats itself over the overlap.
   */
  lemma ForwardIsBuiltinIff(m: Bytes, lo: nat, from: nat, n: nat)
    requires lo + n <= |m| && from + n <= |m|
    ensures Forward(m, lo, from, n) == Splice(m, lo, m[from..from + n]) <==> lo <= from || Periodic(m, lo - from, from, n)
  {
    hide Forward, CopiedForward, Periodic;
    var r := Forward(m, lo, from, n);
    ForwardBytes(m, lo, from, n);
    if lo <= from || Periodic(m, lo - from, from, n) {
      PeriodicIsBuiltin(m, r, lo, from, n);
    } else if r == Splice(m, lo, m[from..from + n]) {
      BuiltinIsPeriodic(m, r, lo, from, n);
    }
  }

  /** Slices that do not overlap are copied as they were. */
  lemma ForwardApart(m: Bytes, lo: nat, from: nat, n: nat)
    requires lo + n <= |m| && from + n <= |m| && (lo <= from || from + n <= lo)
    ensures Forward(m, lo, from, n) == Splice(m, lo, m[from..from + n])
  {
    ForwardIsBuiltinIff(m, lo, from, n);
  }

  /** The builtin would make three bytes 1 2 3 into 1 1 2, but going front to back repeats the first. */
  lemma CopyIsNotBuiltin()
    ensures Forward([1, 2, 3], 1, 0, 2) == [1, 1, 1] != Splice([1, 2, 3], 1, [1, 2])
  {
    assert Forward([1, 2, 3], 1, 0, 1) == [1, 1, 3];
    assert Splice([1, 2, 3], 1, [1, 2])[2] == 2;
  }

  /** Copies as many bytes as both slices hold, front to back. */
  method Copy(dst: array<Byte>, lo: nat, hi: nat, src: array<Byte>, from: nat, to: nat)
    requires lo <= hi <= dst.Length && from <= to <= src.Length
    modifies dst
    ensures var n := Min(hi - lo, to - from);
            dst[..] == if dst == src then Forward(old(dst[..]), lo, from, n)
                       else Splice(old(dst[..]), lo, src[from..from + n])
  {
    var n := Min(hi - lo, to - from);
    if dst == src {
      CopyWithin(dst, lo, from, n);
    } else {
      CopyAcross(dst, lo, src, from, n);
    }
  }

  method CopyWithin(a: array<Byte>, lo: nat, from: nat, n: nat)
    requires lo + n <= a.Length && from + n <= a.Length
    modifies a
    ensures a[..] == Forward(old(a[..]), lo, from, n)
  {
    for i := 0 to n
      invariant a[..] == Forward(old(a[..]), lo, from, i)
    {
      a[lo + i] := a[from + i];
    }
  }

  method CopyAcross(dst: array<Byte>, lo: nat, src: array<Byte>, from: nat, n: nat)
    requires dst != src && lo + n <= dst.Length && from + n <= src.Length
    modifies dst
    ensures dst[..] == Splice(old(dst[..]), lo, src[from..from + n])
  {
    for i := 0 to n
      invariant forall j :: 0 <= j < dst.Length ==>
                  dst[j] == if lo <= j < lo + i then src[from + (j - lo)] else old(dst[j])
    {
      dst[lo + i] := src[from + i];
    }
  }

  /** Copies and then wipes the whole source, and with it what of the target overlaps the source. */
  method Move(dst: array<Byte>, lo: nat, hi: nat, src: array<Byte>, from: nat, to: nat)
    requires lo <= hi <= dst.Length && from <= to <= src.Length
    modifies dst, src
    ensures var n := Min(hi - lo, to - from);
            dst[..] == if dst == src then Splice(Forward(old(dst[..]), lo, from, n), from, Zeros(to - from))
                       else Splice(old(dst[..]), lo, old(src[from..from + n]))
    ensures dst != src ==> src[..] == Splice(old(src[..]), from, Zeros(to - from))
  {
    Copy(dst, lo, hi, src, from, to);
    Wipe(src, from, to);
  }

  /** Stores bytes into the slice that starts at `lo`. */
  method Store(a: array<Byte>, lo: nat, bytes: Bytes)
    requires lo + |bytes| <= a.Length
    modifies a
    ensures a[..] == Splice(old(a[..]), lo, bytes)
  {
    for i := 0 to |bytes|
      invariant forall j :: 0 <= j < a.Length ==> a[j] == if lo <= j < lo + i then bytes[j - lo] else old(a[j])
    {
      a[lo + i] := bytes[i];
    }
  }

  /** `Scramble`: stores `n` bytes of a random source one by one. */
  method StoreEach(a: array<Byte>, lo: nat, n: nat, bytes: nat -> Byte)
    requires lo + n <= a.Length
    modifies a
    ensures a[..] == Splice(old(a[..]), lo, Drawn(n, bytes))
  {
    for i := 0 to n
      invariant forall j :: 0 <= j < a.Length ==> a[j] == if lo <= j < lo + i then bytes(j - lo) else old(a[j])
    {
      a[lo + i] := bytes(i);
    }
  }

  /** Masks the slice that starts at `lo` in place. */
  method XorInto(a: array<Byte>, lo: nat, mask: Bytes)
    requires lo + |mask| <= a.Length
    modifies a
    ensures forall j :: 0 <= j < a.Length && !(lo <= j < lo + |mask|) ==> a[j] == old(a[j])
    ensures a[lo..lo + |mask|] == Xor(old(a[lo..lo + |mask|]), mask)
  {
    for i := 0 to |mask|
      invariant forall j :: 0 <= j < a.Length && !(lo <= j < lo + i) ==> a[j] == old(a[j])
      invariant forall j :: lo <= j < lo + i ==> a[j] == old(a[j]) ^ mask[j - lo]
    {
      a[lo + i] := a[lo + i] ^ mask[i];
    }
  }

  /** Stores the masked bytes of one array into another. */
  method XorFrom(dst: array<Byte>, lo: nat, mask: Bytes, src: array<Byte>, from: nat)
    requires dst != src && lo + |mask| <= dst.Length && from + |mask| <= src.Length
    modifies dst
    ensures dst[..] == Splice(old(dst[..]), lo, Xor(mask, src[from..from + |mask|]))
  {
    for i := 0 to |mask|
      invariant forall j :: 0 <= j < dst.Length ==>
                  dst[j] == if lo <= j < lo + i then mask[j - lo] ^ src[from + (j - lo)] else old(dst[j])
    {
      dst[lo + i] := mask[i] ^ src[from + i];
    }
  }

  lemma OrZero(v: Byte, x: Byte, y: Byte)
    ensures (v | (x ^ y)) == 0 <==> v == 0 && x == y
  {
  }

  /** The accumulating comparison: it decides equality although it never stops early. */
  method Equal(x: array<Byte>, xlo: nat, xhi: nat, y: array<Byte>, ylo: nat, yhi: nat) returns (r: bool)
    requires xlo <= xhi <= x.Length && ylo <= yhi <= y.Length
    ensures r <==> x[xlo..xhi] == y[ylo..yhi]
  {
    if xhi - xlo != yhi - ylo {
      assert |x[xlo..xhi]| != |y[ylo..yhi]|;
      return false;
    }
    var v: Byte := 0;
    for i := 0 to xhi - xlo
      invariant v == 0 <==> x[xlo..xlo + i] == y[ylo..ylo + i]
    {
      OrZero(v, x[xlo + i], y[ylo + i]);
      v := v | (x[xlo + i] ^ y[ylo + i]);
      assert x[xlo..xlo + i + 1] == x[xlo..xlo + i] + [x[xlo + i]];
      assert y[ylo..ylo + i + 1] == y[ylo..ylo + i] + [y[ylo + i]];
    }
    r := v == 0;
  }
}
