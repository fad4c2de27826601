/** Streams as values: chunking, reading with push-back, and refinement of a plain queue of byte strings. */
module StreamSpec {
  import opened Auxiliary
  import opened Bytes
  import opened Crypto
  import opened SessionSpec

  datatype ReadError = EOF | Broken(error: Error)

  /** What one call of an `io.Reader` yields. */
  datatype Answer = Answer(bytes: Bytes, err: Option<ReadError>)

  /** Random bytes for one operation: the nonces it may draw, and a key in case it has to make one. */
  datatype Random = Random(nonces: nat -> Nonce, scrambled: Parts)

  /** The session key, the queued enclaves and the number of nonces drawn so far. */
  datatype Stream = Stream(key: Key, queue: seq<Enclave>, drawn: nat)

  // ---------------------------------------------------------------- writing

  /** The input cut into pieces of `c` bytes, the last one shorter if need be. */
  function Chunks(data: Bytes, c: nat): seq<Bytes>
    requires c >= 1
    decreases |data|
  {
    if |data| == 0 then [] else if |data| <= c then [data] else [data[..c]] + Chunks(data[c..], c)
  }

  function Flat(chunks: seq<Bytes>): Bytes {
    if chunks == [] then [] else chunks[0] + Flat(chunks[1..])
  }

  lemma CeilingSteps(n: nat, c: nat)
    requires c >= 1
    ensures n == 0 ==> (n + c - 1) / c == 0
    ensures 1 <= n <= c ==> (n + c - 1) / c == 1
    ensures n > c ==> (n + c - 1) / c == 1 + (n - c + c - 1) / c
  {
    if n == 0 {
      DivModUnique(c - 1, c, 0, c - 1);
    } else {
      var q, r := (n - 1) / c, (n - 1) % c;
      assert (q + 1) * c == q * c + c;
      DivModUnique(n + c - 1, c, q + 1, r);
      if n <= c {
        DivModUnique(n - 1, c, 0, n - 1);
      }
    }
  }

  lemma FlatCons(p: Bytes, chunks: seq<Bytes>)
    ensures Flat([]) == []
    ensures Flat([p] + chunks) == p + Flat(chunks)
  {
    assert ([p] + chunks)[1..] == chunks;
  }

  lemma {:induction false} ChunkCount(data: Bytes, c: nat)
    requires c >= 1
    ensures |Chunks(data, c)| == (|data| + c - 1) / c
    decreases |data|
  {
    CeilingSteps(|data|, c);
    if |data| > c {
      ChunkCount(data[c..], c);
    }
  }

  /** The chunks partition the input in order; each has between 1 and `c` bytes; there are ceil(len / c) of them. */
  lemma {:induction false} ChunksPartition(data: Bytes, c: nat)
    requires c >= 1
    ensures Flat(Chunks(data, c)) == data
    ensures forall p :: p in Chunks(data, c) ==> 1 <= |p| <= c
    ensures |Chunks(data, c)| == (|data| + c - 1) / c
    decreases |data|
  {
    hide Flat;
    ChunkCount(data, c);
    if |data| <= c {
      FlatCons(data, []);
      assert [data] + [] == [data] && data + [] == data;
    } else {
      ChunksPartition(data[c..], c);
      FlatCons(data[..c], Chunks(data[c..], c));
    }
  }

  function SealAll(cr: Primitives, key: Parts, nonces: nat -> Nonce, from: nat, chunks: seq<Bytes>): seq<Enclave> {
    seq(|chunks|, i requires 0 <= i < |chunks| => SealWith(cr, key, nonces(from + i), chunks[i]))
  }

  function Write(cr: Primitives, rng: Random, s: Stream, data: Bytes, c: nat): Stream
    requires c >= 1
  {
    if data == [] then s
    else
      var key, chunks := Ensure(cr, s.key, rng.scrambled), Chunks(data, c);
      Stream(Some(key), s.queue + SealAll(cr, key, rng.nonces, s.drawn, chunks), s.drawn + |chunks|)
  }

  // ---------------------------------------------------------------- reading

  /** The next chunk; a chunk that cannot be opened is gone from the queue. */
  function Next(cr: Primitives, rng: Random, s: Stream): (Stream, Answer) {
    if s.queue == [] then (s, Answer([], Some(EOF)))
    else
      var key := Ensure(cr, s.key, rng.scrambled);
      var rest := Stream(Some(key), s.queue[1..], s.drawn);
      match OpenWith(cr, key, s.queue[0])
      case Ok(p) => (rest, Answer(p, None))
      case Err(error) => (rest, Answer([], Some(Broken(error))))
  }

  /** At most `n` bytes of the next chunk; what does not fit is sealed again and put back in front. */
  function Read(cr: Primitives, rng: Random, s: Stream, n: nat): (Stream, Answer) {
    var (rest, a) := Next(cr, rng, s);
    if a.err.Some? || |a.bytes| <= n then (rest, a)
    else
      var left := SealWith(cr, rest.key.value, rng.nonces(s.drawn), a.bytes[n..]);
      (Stream(rest.key, [left] + rest.queue, s.drawn + 1), Answer(a.bytes[..n], None))
  }

  /** Each enclave that is written begins with a nonce of its own: the next ones, in order. */
  lemma WriteDraws(cr: Primitives, rng: Random, s: Stream, data: Bytes, c: nat)
    requires c >= 1
    ensures var s' := Write(cr, rng, s, data, c);
            && s.queue <= s'.queue && s'.drawn - s.drawn == |s'.queue| - |s.queue| == |Chunks(data, c)|
            && forall i :: |s.queue| <= i < |s'.queue| ==>
                 rng.nonces(s.drawn + (i - |s.queue|)) <= s'.queue[i].ciphertext
  {
  }

  /** A read draws one nonce, for what it puts back, or none. */
  lemma ReadDraws(cr: Primitives, rng: Random, s: Stream, n: nat)
    ensures var (s', a) := Read(cr, rng, s, n);
            if s.queue != [] && |s'.queue| == |s.queue|
            then s'.drawn == s.drawn + 1 && rng.nonces(s.drawn) <= s'.queue[0].ciphertext && s'.queue[1..] == s.queue[1..]
            else s'.drawn == s.drawn && s'.queue == if s.queue == [] then [] else s.queue[1..]
  {
  }

  function Total(queue: seq<Enclave>): int {
    if queue == [] then 0 else Size(queue[0]) + Total(queue[1..])
  }

  // ---------------------------------------------------------------- the plain queue

  /** A queued chunk: readable, or not any more because its key is gone. Its bytes count either way. */
  datatype Chunk = Live(bytes: Bytes) | Lost(bytes: Bytes)

  type Fifo = seq<Chunk>

  function FifoRead(v: Fifo, n: nat): (Fifo, Answer) {
    if v == [] then (v, Answer([], Some(EOF)))
    else
      match v[0]
      case Lost(_) => (v[1..], Answer([], Some(Broken(DecryptionFailed))))
      case Live(p) =>
        if |p| <= n then (v[1..], Answer(p, None)) else ([Live(p[n..])] + v[1..], Answer(p[..n], None))
  }

  /** The enclave holds `p`, sealed under the key value `k`. */
  ghost predicate SealedBy(cr: Primitives, e: Enclave, k: Block, p: Bytes) {
    exists nonce: Nonce :: e == Enclave(nonce + cr.seal(k, nonce, p))
  }

  /** The queue `v` is what the stream holds: live chunks under the live key, lost ones under old keys. */
  ghost predicate Holds(cr: Primitives, s: Stream, v: Fifo, lost: set<Block>) {
    && |s.queue| == |v|
    && (forall i :: 0 <= i < |v| ==> HoldsAt(cr, s.key, s.queue[i], v[i], lost))
    && (s.key.Some? ==> forall k :: k in lost ==> Separates(cr, k, Value(cr, s.key.value)))
  }

  ghost predicate HoldsAt(cr: Primitives, key: Key, e: Enclave, chunk: Chunk, lost: set<Block>) {
    match chunk
    case Live(p) => p != [] && key.Some? && SealedBy(cr, e, Value(cr, key.value), p)
    case Lost(p) => p != [] && exists k :: k in lost && SealedBy(cr, e, k, p)
  }

  /** A key that the operation makes is not confused with a lost one. */
  ghost predicate FreshKey(cr: Primitives, s: Stream, rng: Random, lost: set<Block>) {
    s.key.None? ==> forall k :: k in lost ==> Separates(cr, k, rng.scrambled.left)
  }

  lemma OpenHeld(cr: Primitives, key: Parts, e: Enclave, p: Bytes)
    requires Lawful(cr) && p != [] && SealedBy(cr, e, Value(cr, key), p)
    ensures Size(e) == |p| && OpenWith(cr, key, e) == Ok(p)
  {
    var nonce: Nonce :| e == Enclave(nonce + cr.seal(Value(cr, key), nonce, p));
    OpenSealed(cr, key, nonce, p);
  }

  lemma OpenLost(cr: Primitives, key: Parts, e: Enclave, p: Bytes, lost: set<Block>)
    requires Lawful(cr) && HoldsAt(cr, Some(key), e, Lost(p), lost)
    requires forall k :: k in lost ==> Separates(cr, k, Value(cr, key))
    ensures OpenWith(cr, key, e) == Err(DecryptionFailed)
  {
    var k :| k in lost && SealedBy(cr, e, k, p);
    var nonce: Nonce :| e == Enclave(nonce + cr.seal(k, nonce, p));
    DecryptUnderOtherKey(cr, p, k, nonce, Value(cr, key), |p|);
  }

  /** An enclave has the size of its chunk, whether it still opens or not. */
  lemma SizeHeld(cr: Primitives, key: Key, e: Enclave, chunk: Chunk, lost: set<Block>)
    requires Lawful(cr) && HoldsAt(cr, key, e, chunk, lost)
    ensures Size(e) == |chunk.bytes|
  {
  }

  /** Creating the key on demand keeps the stream in step with the plain queue. */
  lemma EnsureHolds(cr: Primitives, rng: Random, s: Stream, v: Fifo, lost: set<Block>)
    requires Holds(cr, s, v, lost) && FreshKey(cr, s, rng, lost)
    ensures Holds(cr, s.(key := Some(Ensure(cr, s.key, rng.scrambled))), v, lost)
  {
    var key := Ensure(cr, s.key, rng.scrambled);
    if s.key.None? {
      SplitValue(cr, rng.scrambled);
    }
    forall i | 0 <= i < |v|
      ensures HoldsAt(cr, Some(key), s.queue[i], v[i], lost)
    {
      assert HoldsAt(cr, s.key, s.queue[i], v[i], lost);
    }
  }

  /** One read of the encrypted stream is one read of the plain queue. */
  lemma ReadRefines(cr: Primitives, rng: Random, s: Stream, v: Fifo, lost: set<Block>, n: nat)
    requires Lawful(cr) && Holds(cr, s, v, lost) && FreshKey(cr, s, rng, lost)
    ensures var ((s', a), (v', b)) := (Read(cr, rng, s, n), FifoRead(v, n));
            a == b && Holds(cr, s', v', lost) && FreshKey(cr, s', rng, lost)
  {
    if v != [] {
      EnsureHolds(cr, rng, s, v, lost);
      var key := Ensure(cr, s.key, rng.scrambled);
      assert HoldsAt(cr, Some(key), s.queue[0], v[0], lost);
      var (s', a) := Read(cr, rng, s, n);
      var (v', b) := FifoRead(v, n);
      if v[0].Live? {
        OpenHeld(cr, key, s.queue[0], v[0].bytes);
        if n < |v[0].bytes| {
          var p := v[0].bytes[n..];
          assert s'.queue[0] == Enclave(rng.nonces(s.drawn) + cr.seal(Value(cr, key), rng.nonces(s.drawn), p));
          assert SealedBy(cr, s'.queue[0], Value(cr, key), p);
        }
      } else {
        OpenLost(cr, key, s.queue[0], v[0].bytes, lost);
      }
      forall i | 0 <= i < |v'|
        ensures HoldsAt(cr, s'.key, s'.queue[i], v'[i], lost)
      {
        if |v'| == |v| && i > 0 {
          assert s'.queue[i] == s.queue[i] && v'[i] == v[i];
        } else if |v'| < |v| {
          assert s'.queue[i] == s.queue[i + 1] && v'[i] == v[i + 1];
        }
      }
    }
  }
}
