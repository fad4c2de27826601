/** The session key and its enclaves as values, and what holds over whole runs of a session. */
module SessionSpec {
  import opened Bytes
  import opened Crypto

  /** The two partitions of a coffer. */
  datatype Parts = Parts(left: Block, right: Block)

  /** The partitions of the session key, or none before its first use and after a purge. */
  type Key = Option<Parts>

  datatype Enclave = Enclave(ciphertext: Bytes)

  function Value(cr: Primitives, p: Parts): Block {
    Xor(cr.hash(p.right), p.left)
  }

  /** `Init`: the scrambled partitions, with the left one masked by the hash of the right one. */
  function Split(cr: Primitives, scrambled: Parts): Parts {
    Parts(Xor(scrambled.left, cr.hash(scrambled.right)), scrambled.right)
  }

  /** `Rekey`: both partitions overwritten under a random mask. */
  function Resplit(cr: Primitives, p: Parts, mask: Block): Parts {
    var right := Xor(p.right, mask);
    Parts(Xor(p.left, Xor(cr.hash(p.right), cr.hash(right))), right)
  }

  /** The value of a new coffer is the first scrambled left partition, for every hash function. */
  lemma SplitValue(cr: Primitives, scrambled: Parts)
    ensures Value(cr, Split(cr, scrambled)) == scrambled.left && Split(cr, scrambled).right == scrambled.right
  {
    XorCancels(scrambled.left, cr.hash(scrambled.right));
  }

  lemma ResplitValue(cr: Primitives, p: Parts, mask: Block)
    ensures Value(cr, Resplit(cr, p, mask)) == Value(cr, p)
  {
    XorResplit(p.left, cr.hash(p.right), cr.hash(Xor(p.right, mask)));
  }

  /**
   * A rekey is no idle step: it XORs the mask into the right partition, so any mask but zero changes it, and another
   * rekey with the same mask would undo it. The left partition is then the one with which the value stays.
   */
  lemma ResplitChanges(cr: Primitives, p: Parts, mask: Block)
    ensures var q := Resplit(cr, p, mask);
            && q.right == Xor(p.right, mask) && Xor(q.right, mask) == p.right
            && (q.right == p.right <==> mask == Zeros(32))
            && q.left == Xor(cr.hash(q.right), Value(cr, p))
            && Resplit(cr, q, mask) == p
  {
    var q := Resplit(cr, p, mask);
    XorCancels(p.right, mask);
    XorFixed(p.right, mask);
    ResplitValue(cr, p, mask);
    XorTwice(cr.hash(q.right), q.left);
    ResplitValue(cr, q, mask);
    XorTwice(cr.hash(p.right), Resplit(cr, q, mask).left);
    XorTwice(cr.hash(p.right), p.left);
  }

  lemma XorTwice(a: Bytes, b: Bytes)
    requires |a| == |b|
    ensures Xor(a, Xor(a, b)) == b
  {
    forall i | 0 <= i < |a|
      ensures Xor(a, Xor(a, b))[i] == b[i]
    {
      XorByteTwice(a[i], b[i]);
    }
  }

  lemma XorByteTwice(a: Byte, b: Byte)
    ensures a ^ (a ^ b) == b
  {
  }

  function RekeyAll(cr: Primitives, p: Parts, masks: seq<Block>): Parts
    decreases |masks|
  {
    if masks == [] then p else RekeyAll(cr, Resplit(cr, p, masks[0]), masks[1..])
  }

  /** Any number of rekeys, with any masks and any hash, leaves the value of the coffer unchanged. */
  lemma {:induction false} RekeyKeepsValue(cr: Primitives, scrambled: Parts, masks: seq<Block>)
    ensures Value(cr, RekeyAll(cr, Split(cr, scrambled), masks)) == scrambled.left
  {
    SplitValue(cr, scrambled);
    RekeyAllKeepsValue(cr, Split(cr, scrambled), masks);
  }

  lemma {:induction false} RekeyAllKeepsValue(cr: Primitives, p: Parts, masks: seq<Block>)
    ensures Value(cr, RekeyAll(cr, p, masks)) == Value(cr, p)
    decreases |masks|
  {
    if masks != [] {
      ResplitValue(cr, p, masks[0]);
      RekeyAllKeepsValue(cr, Resplit(cr, p, masks[0]), masks[1..]);
    }
  }

  // ---------------------------------------------------------------- sealing and opening

  /** `getOrCreateKey`: the live key, or a new one from the scrambled partitions. */
  function Ensure(cr: Primitives, key: Key, scrambled: Parts): Parts {
    if key.Some? then key.value else Split(cr, scrambled)
  }

  /** The enclave made from a non-empty plaintext. */
  function SealWith(cr: Primitives, key: Parts, nonce: Nonce, plaintext: Bytes): Enclave {
    Enclave(nonce + cr.seal(Value(cr, key), nonce, plaintext))
  }

  function Size(e: Enclave): int {
    |e.ciphertext| - OVERHEAD
  }

  /** What opening yields: the buffer of the exact plaintext size is allocated before the key is looked at. */
  function OpenWith(cr: Primitives, key: Parts, e: Enclave): Result<Bytes> {
    if Size(e) < 1 then Err(NullBuffer)
    else Decrypt(cr, e.ciphertext, Value(cr, key), Size(e))
  }

  /** An enclave made by sealing has at least 41 bytes, opens to its plaintext and fills its buffer exactly. */
  lemma OpenSealed(cr: Primitives, key: Parts, nonce: Nonce, p: Bytes)
    requires Lawful(cr) && p != []
    ensures var e := SealWith(cr, key, nonce, p);
            Size(e) == |p| && |e.ciphertext| == |p| + OVERHEAD >= 41 && OpenWith(cr, key, e) == Ok(p)
  {
    DecryptEncrypt(cr, p, Value(cr, key), nonce, |p|);
  }

  /**
   * The nonce stands in front of the box, which opens under the key and this nonce; so enclaves made with different
   * nonces differ, whatever they hold.
   */
  lemma SealedShape(cr: Primitives, key: Parts, nonce: Nonce, p: Bytes, other: Nonce, q: Bytes)
    requires Lawful(cr)
    ensures var c := SealWith(cr, key, nonce, p).ciphertext;
            |c| >= 24 && c[..24] == nonce && cr.open(Value(cr, key), nonce, c[24..]) == Some(p)
    ensures nonce != other ==> SealWith(cr, key, nonce, p) != SealWith(cr, key, other, q)
  {
    var c, d := SealWith(cr, key, nonce, p).ciphertext, SealWith(cr, key, other, q).ciphertext;
    assert c[..24] == nonce && c[24..] == cr.seal(Value(cr, key), nonce, p) && d[..24] == other;
  }

  /** What opens was sealed: with the session key, some nonce and this very plaintext. */
  lemma OpensOnlySealed(cr: Primitives, key: Parts, e: Enclave, p: Bytes)
    requires Lawful(cr)
    ensures OpenWith(cr, key, e) == Ok(p) <==> p != [] && exists nonce: Nonce :: e == SealWith(cr, key, nonce, p)
  {
    if OpenWith(cr, key, e) == Ok(p) {
      var c := e.ciphertext;
      assert c == c[..24] + c[24..];
      assert e == SealWith(cr, key, c[..24], p);
    }
    if p != [] {
      forall nonce: Nonce | e == SealWith(cr, key, nonce, p)
        ensures OpenWith(cr, key, e) == Ok(p)
      {
        OpenSealed(cr, key, nonce, p);
      }
    }
  }

  lemma SealedSize(cr: Primitives, key: Parts, nonce: Nonce, p: Bytes)
    requires Lawful(cr) && p != []
    ensures Size(SealWith(cr, key, nonce, p)) == |p|
  {
    OpenSealed(cr, key, nonce, p);
  }

  /** Opening an enclave of positive size can fail in one way only, the one that the wrapper forwards. */
  lemma OpenErrors(cr: Primitives, key: Parts, e: Enclave)
    requires Size(e) >= 1
    ensures OpenWith(cr, key, e).Err? ==> OpenWith(cr, key, e) == Err(DecryptionFailed)
  {
  }

  lemma OpenUnderOtherKey(cr: Primitives, key: Parts, nonce: Nonce, p: Bytes, other: Parts)
    requires Lawful(cr) && p != [] && Separates(cr, Value(cr, key), Value(cr, other))
    ensures OpenWith(cr, other, SealWith(cr, key, nonce, p)) == Err(DecryptionFailed)
  {
    DecryptUnderOtherKey(cr, p, Value(cr, key), nonce, Value(cr, other), |p|);
  }

  // ---------------------------------------------------------------- runs

  /** The partitions of a key that were wiped and could not be destroyed. */
  const WIPED := Parts(Zeros(32), Zeros(32))

  /**
   * The key, whether its partitions have resisted a purge and left the list, the user's buffers (none once
   * destroyed) and the enclaves made so far.
   */
  datatype World = World(key: Key, stuck: bool, buffers: seq<Option<Bytes>>, enclaves: seq<Enclave>)

  datatype Op =
    | NewBuffer(content: Bytes)
    | WriteBuffer(b: nat, content: Bytes)
    | DestroyBuffer(b: nat)
    | NewEnclave(plaintext: Bytes, nonce: Nonce, scrambled: Parts)
    | SealBuffer(b: nat, nonce: Nonce, scrambled: Parts)
    | OpenEnclave(e: nat, scrambled: Parts)
    | Rekey(mask: Block)
    // Also `Panic`, which purges first. System calls may fail: both partitions may resist destruction, and the
    // user's buffers may survive in any shape.
    | Purge(resists: bool, survivors: nat -> Option<Bytes>)

  predicate LiveBuffer(w: World, b: nat) {
    b < |w.buffers| && w.buffers[b].Some?
  }

  /** The plaintext that the operation turns into an enclave, if it does. */
  function Sealed(w: World, op: Op): Option<Bytes> {
    match op
    case NewEnclave(p, _, _) => if p == [] then None else Some(p)
    case SealBuffer(b, _, _) => if LiveBuffer(w, b) && w.buffers[b].value != [] then w.buffers[b] else None
    case _ => None
  }

  function Opened(cr: Primitives, w: World, e: nat, scrambled: Parts): Result<Bytes>
    requires e < |w.enclaves|
  {
    OpenWith(cr, Ensure(cr, w.key, scrambled), w.enclaves[e])
  }

  function AddEnclave(cr: Primitives, w: World, p: Bytes, nonce: Nonce, scrambled: Parts): World {
    var key := Ensure(cr, w.key, scrambled);
    w.(key := Some(key), enclaves := w.enclaves + [SealWith(cr, key, nonce, p)])
  }

  function Step(cr: Primitives, w: World, op: Op): World {
    match op
    case NewBuffer(content) =>
      if content == [] then w else w.(buffers := w.buffers + [Some(content)])
    case WriteBuffer(b, content) =>
      if LiveBuffer(w, b) && |content| == |w.buffers[b].value| then w.(buffers := w.buffers[b := Some(content)]) else w
    case DestroyBuffer(b) =>
      if LiveBuffer(w, b) then w.(buffers := w.buffers[b := None]) else w
    case NewEnclave(_, nonce, scrambled) =>
      if Sealed(w, op).Some? then AddEnclave(cr, w, Sealed(w, op).value, nonce, scrambled) else w
    case SealBuffer(b, nonce, scrambled) =>
      if Sealed(w, op).Some?
      then AddEnclave(cr, w, Sealed(w, op).value, nonce, scrambled).(buffers := w.buffers[b := None]) else w
    case OpenEnclave(e, scrambled) =>
      if e >= |w.enclaves| then w
      else
        var keyed := w.(key := Some(Ensure(cr, w.key, scrambled)));
        var r := Opened(cr, w, e, scrambled);
        if r.Ok? then keyed.(buffers := w.buffers + [Some(r.value)]) else keyed
    case Rekey(mask) =>
      if w.key.Some? then w.(key := Some(Resplit(cr, w.key.value, mask))) else w
    case Purge(resists, survivors) =>
      // a key that has left the list before is not met again
      var met := w.key.Some? && !w.stuck;
      World(if !met then w.key else if resists then Some(WIPED) else None, w.stuck || (met && resists),
            seq(|w.buffers|, i requires 0 <= i => survivors(i)), w.enclaves)
  }

  function Run(cr: Primitives, w: World, ops: seq<Op>): World
    decreases |ops|
  {
    if ops == [] then w else Run(cr, Step(cr, w, ops[0]), ops[1..])
  }

  /** What each operation does to the buffers, the enclaves and the key; all that is not named stays. */
  lemma StepEffects(cr: Primitives, w: World, op: Op)
    ensures var w' := Step(cr, w, op);
            match op
            case NewBuffer(content) =>
              w' == w.(buffers := if content == [] then w.buffers else w.buffers + [Some(content)])
            case WriteBuffer(b, content) =>
              && w' == w.(buffers := w'.buffers) && |w'.buffers| == |w.buffers|
              && (forall i :: 0 <= i < |w.buffers| && i != b ==> w'.buffers[i] == w.buffers[i])
              && (LiveBuffer(w, b) && |content| == |w.buffers[b].value| ==> w'.buffers[b] == Some(content))
            case DestroyBuffer(b) =>
              && w' == w.(buffers := w'.buffers) && |w'.buffers| == |w.buffers| && !LiveBuffer(w', b)
              && forall i :: 0 <= i < |w.buffers| && i != b ==> w'.buffers[i] == w.buffers[i]
            case NewEnclave(p, nonce, scrambled) =>
              && w'.buffers == w.buffers && |w'.enclaves| == |w.enclaves| + (if p == [] then 0 else 1)
              && (p != [] ==> nonce <= w'.enclaves[|w.enclaves|].ciphertext)
            case SealBuffer(b, nonce, scrambled) =>
              && |w'.buffers| == |w.buffers| && (Sealed(w, op).Some? ==> !LiveBuffer(w', b))
              && |w'.enclaves| == |w.enclaves| + (if Sealed(w, op).Some? then 1 else 0)
              && (Sealed(w, op).Some? ==> nonce <= w'.enclaves[|w.enclaves|].ciphertext)
            case OpenEnclave(e, scrambled) =>
              && w'.enclaves == w.enclaves
              && (e < |w.enclaves| ==>
                    var r := Opened(cr, w, e, scrambled);
                    w'.buffers == if r.Ok? then w.buffers + [Some(r.value)] else w.buffers)
            case Rekey(mask) =>
              && w'.buffers == w.buffers && w'.enclaves == w.enclaves && (w'.key.Some? <==> w.key.Some?)
              && (w.key.Some? ==> w'.key.value.right == Xor(w.key.value.right, mask))
            case Purge(resists, survivors) =>
              && w'.enclaves == w.enclaves && |w'.buffers| == |w.buffers|
              && (forall i :: 0 <= i < |w.buffers| ==> w'.buffers[i] == survivors(i))
              && (w.key.Some? && !w.stuck ==> w'.key == (if resists then Some(WIPED) else None))
  {
  }

  predicate HasPurge(ops: seq<Op>) {
    exists i :: 0 <= i < |ops| && ops[i].Purge?
  }

  /** Whatever key the operation may create, or leave wiped, is not confused with `k`. */
  ghost predicate Distinguishes(cr: Primitives, k: Block, op: Op) {
    && (op.NewEnclave? || op.SealBuffer? || op.OpenEnclave? ==> Separates(cr, k, op.scrambled.left))
    && (op.Purge? && op.resists ==> Separates(cr, k, Value(cr, WIPED)))
  }

  /** The session still has the key with value `k`, or has lost it and has none or a separated one. */
  ghost predicate Tracks(cr: Primitives, w: World, k: Block, purged: bool) {
    if purged then w.key.Some? ==> Separates(cr, k, Value(cr, w.key.value))
    else w.key.Some? && Value(cr, w.key.value) == k
  }

  lemma StepTracks(cr: Primitives, w: World, op: Op, k: Block, lost: bool)
    requires Tracks(cr, w, k, lost)
    requires lost || (op.Purge? && !w.stuck) ==> Distinguishes(cr, k, op)
    ensures Tracks(cr, Step(cr, w, op), k, lost || (op.Purge? && !w.stuck))
    ensures w.enclaves <= Step(cr, w, op).enclaves
    ensures Step(cr, w, op).stuck == (w.stuck || (op.Purge? && op.resists && w.key.Some?))
  {
    match op
    case NewEnclave(_, _, f) => SplitValue(cr, f);
    case SealBuffer(_, _, f) => SplitValue(cr, f);
    case OpenEnclave(_, f) => SplitValue(cr, f);
    case Rekey(mask) => if w.key.Some? { ResplitValue(cr, w.key.value, mask); }
    case _ =>
  }

  lemma HasPurgeSplits(ops: seq<Op>)
    requires ops != []
    ensures HasPurge(ops) <==> ops[0].Purge? || HasPurge(ops[1..])
  {
    var rest := ops[1..];
    if HasPurge(rest) {
      var i :| 0 <= i < |rest| && rest[i].Purge?;
      assert ops[i + 1].Purge?;
    }
    if HasPurge(ops) && !ops[0].Purge? {
      var i :| 0 <= i < |ops| && ops[i].Purge?;
      assert rest[i - 1].Purge?;
    }
  }

  lemma {:induction false} RunTracks(cr: Primitives, w: World, ops: seq<Op>, k: Block, lost: bool)
    requires Tracks(cr, w, k, lost)
    requires lost || (HasPurge(ops) && !w.stuck) ==> forall op :: op in ops ==> Distinguishes(cr, k, op)
    ensures Tracks(cr, Run(cr, w, ops), k, lost || (HasPurge(ops) && !w.stuck))
    ensures w.enclaves <= Run(cr, w, ops).enclaves
    decreases |ops|
  {
    hide Step, Tracks, Distinguishes, HasPurge;
    if ops == [] {
      NoPurgeInNothing();
    } else {
      assert ops[0] in ops;
      HasPurgeSplits(ops);
      StepTracks(cr, w, ops[0], k, lost);
      RunTracks(cr, Step(cr, w, ops[0]), ops[1..], k, lost || (ops[0].Purge? && !w.stuck));
    }
  }

  lemma NoPurgeInNothing()
    ensures !HasPurge([])
  {
  }

  /**
   * A purge that fails to destroy both partitions leaves them wiped and off the list: from then on, through all
   * rekeys and all later purges, the session key is the hash of 32 zeroes.
   */
  lemma {:induction false} WipedKeyStays(cr: Primitives, w: World, ops: seq<Op>)
    requires w.stuck && w.key.Some? && Value(cr, w.key.value) == Value(cr, WIPED)
    ensures var later := Run(cr, w, ops);
            later.stuck && later.key.Some? && Value(cr, later.key.value) == cr.hash(Zeros(32))
    decreases |ops|
  {
    if ops == [] {
      XorZero(cr.hash(Zeros(32)));
    } else {
      if ops[0].Rekey? {
        ResplitValue(cr, w.key.value, ops[0].mask);
      }
      WipedKeyStays(cr, Step(cr, w, ops[0]), ops[1..]);
    }
  }

  /**
   * The law of enclaves. Seal anything in any session, then run anything: the enclave opens to exactly the sealed
   * bytes if and only if the session has not been purged, no matter how often it was rekeyed. The one exception is a
   * session whose key has resisted an earlier purge: its enclaves open for ever.
   */
  lemma OpensExactlyUntilPurge(cr: Primitives, w: World, seal: Op, ops: seq<Op>, scrambled: Parts)
    requires Lawful(cr) && Sealed(w, seal).Some?
    requires var k := Value(cr, Step(cr, w, seal).key.value);
             HasPurge(ops) && !w.stuck ==>
               Separates(cr, k, scrambled.left) && forall op :: op in ops ==> Distinguishes(cr, k, op)
    ensures var later := Run(cr, Step(cr, w, seal), ops);
            var e := |w.enclaves|;
            && e < |later.enclaves|
            && Opened(cr, later, e, scrambled) ==
                 if HasPurge(ops) && !w.stuck then Err(DecryptionFailed) else Ok(Sealed(w, seal).value)
  {
    var made := Step(cr, w, seal);
    var p, nonce := Sealed(w, seal).value, seal.nonce;
    var key := Ensure(cr, w.key, seal.scrambled);
    var e := |w.enclaves|;
    assert made.key == Some(key) && made.enclaves[e] == SealWith(cr, key, nonce, p) && made.stuck == w.stuck;
    RunTracks(cr, made, ops, Value(cr, key), false);
    var later := Run(cr, made, ops);
    assert later.enclaves[e] == SealWith(cr, key, nonce, p);
    var opening := Ensure(cr, later.key, scrambled);
    if HasPurge(ops) && !w.stuck {
      SplitValue(cr, scrambled);
      OpenUnderOtherKey(cr, key, nonce, p, opening);
    } else {
      OpenSealed(cr, key, nonce, p);
      assert Value(cr, opening) == Value(cr, key);
    }
  }
}
