/** The stream object: a queue of enclaves that is written, read with push-back and measured in place. */
module Streams {
  import opened Auxiliary
  import opened Bytes
  import opened Buffers
  import opened Core
  import opened Crypto
  import opened Pools
  import opened Registry
  import opened SessionSpec
  import Spec = StreamSpec

  function Values(q: seq<Option<Enclave>>): (es: seq<Enclave>)
    requires forall i :: 0 <= i < |q| ==> q[i].Some?
    ensures |es| == |q| && forall i :: 0 <= i < |q| ==> es[i] == q[i].value
  {
    seq(|q|, i requires 0 <= i < |q| && q[i].Some? => q[i].value)
  }

  /** Buffers that stay listed after taking a chunk: the chunk, or what a failed `Open` leaves behind. */
  function Added(err: Option<Spec.ReadError>): nat {
    match err
    case None => 1
    case Some(EOF) => 0
    case Some(Broken(_)) => 2
  }

  /** Buffers that a read leaves behind: those of a failed `Open`. */
  function Leaked(err: Option<Spec.ReadError>): nat {
    if err.Some? && err.value.Broken? then 2 else 0
  }

  class Stream {
    const session: Session
    const chunk: nat
    // A nil enclave in the queue would read as the end of the stream.
    var queue: seq<Option<Enclave>>
    // The nonces drawn so far, which is also the index of the next one.
    var drawn: nat

    ghost predicate Queued()
      reads this
    {
      chunk >= 1 && forall i :: 0 <= i < |queue| ==> queue[i].Some? && SessionSpec.Size(queue[i].value) >= 1
    }

    ghost predicate Valid()
      reads this, session, session.key, session.key.repr, session.pool, session.pool.list, session.pool.list.backing
      reads session.pool.all, set b | b in session.pool.all :: b.memory
    {
      session.Valid() && Queued() && Lawful(session.cr) && this !in session.key.repr
    }

    ghost function Enclaves(): seq<Enclave>
      requires Queued()
      reads this
    {
      Values(queue)
    }

    /** The stream and the session key as a value. */
    ghost function State(): Spec.Stream
      requires Queued()
      reads this, session, session.key, session.key.repr
    {
      Spec.Stream(session.key.Held(), Enclaves(), drawn)
    }

    constructor (session: Session, chunk: nat)
      requires session.Valid() && Lawful(session.cr) && chunk >= 1
      ensures Valid() && this.session == session && this.chunk == chunk && queue == [] && drawn == 0
    {
      this.session, this.chunk, queue, drawn := session, chunk, [], 0;
    }

    /** The number of stored bytes. */
    method Size() returns (n: int)
      requires Queued()
      ensures n == Spec.Total(Enclaves())
    {
      n := 0;
      ghost var es := Enclaves();
      for i := 0 to |queue|
        invariant n + Spec.Total(es[i..]) == Spec.Total(es)
      {
        assert es[i..][1..] == es[i + 1..];
        n := n + SessionSpec.Size(queue[i].value);
      }
    }

    /** `join(NewEnclave(data[lo:hi]))` for a slice that is not empty: what is queued is never nil. */
    method JoinSlice(data: array<Byte>, lo: nat, hi: nat, rng: Spec.Random)
      requires Valid() && session.Outside(data) && lo < hi <= data.Length
      modifies this, session, session.pool, session.pool.list, session.pool.list.backing, data
      ensures Valid() && session.Outside(data)
      ensures session.key.Held() == Some(Ensure(session.cr, old(session.key.Held()), rng.scrambled))
      ensures drawn == old(drawn) + 1
      ensures Enclaves() ==
              old(Enclaves()) + [SealWith(session.cr, session.key.Held().value, rng.nonces(old(drawn)), old(data[lo..hi]))]
      ensures data[..] == Splice(old(data[..]), lo, Zeros(hi - lo))
      ensures session.pool.Extends()
    {
      hide Session.Valid, Coffer.Held, Ensure, Lawful, SealWith;
      var r := session.NewEnclave(data, lo, hi, rng.nonces(drawn), rng.scrambled);
      SealedSize(session.cr, session.key.Held().value, rng.nonces(drawn), old(data[lo..hi]));
      queue := queue + [if r.Ok? then Some(r.value) else None];
      drawn := drawn + 1;
    }

    /** One round of the loop in `Write`, from index `i` on: a full chunk, or the tail of the data. */
    method JoinChunk(data: array<Byte>, i: nat, rng: Spec.Random)
      requires Valid() && session.Outside(data) && i < data.Length && i % chunk == 0
      modifies this, session, session.pool, session.pool.list, session.pool.list.backing, data
      ensures Valid() && session.Outside(data)
      ensures session.key.Held() == Some(Ensure(session.cr, old(session.key.Held()), rng.scrambled))
      ensures drawn == old(drawn) + 1
      ensures Enclaves() ==
              old(Enclaves()) + [SealWith(session.cr, session.key.Held().value, rng.nonces(old(drawn)),
                                          old(data[i..Min(i + chunk, data.Length)]))]
      ensures data[..] == Splice(old(data[..]), i, Zeros(Min(i + chunk, data.Length) - i))
      ensures session.pool.Extends()
    {
      hide Session.Valid, Coffer.Held, Ensure, Lawful, SealWith, Splice;
      if i + chunk > data.Length {
        TailStartsAtIndex(data.Length, i, chunk);
        JoinSlice(data, data.Length - data.Length % chunk, data.Length, rng);
      } else {
        JoinSlice(data, i, i + chunk, rng);
      }
    }

    /** The loop of `Write`. */
    method WriteChunks(data: array<Byte>, rng: Spec.Random) returns (n: nat)
      requires Valid() && session.Outside(data)
      modifies this, session, session.pool, session.pool.list, session.pool.list.backing, data
      ensures Valid() && n == data.Length && data[..] == Zeros(data.Length)
      ensures State() == Spec.Write(session.cr, rng, old(State()), old(data[..]), chunk)
    {
      hide Session.Valid, Coffer.Held, Lawful, SealWith, Spec.Chunks, Spec.SealAll, Splice;
      ghost var input, es, from, held := data[..], Enclaves(), drawn, session.key.Held();
      ghost var key := Ensure(session.cr, held, rng.scrambled);
      ghost var done: seq<Bytes> := [];
      NoChunks(session.cr, key, rng.nonces, from, chunk);
      SomeChunks(input, chunk);
      n := data.Length;
      var i, c := 0, chunk;
      while i < n
        invariant Valid() && session.Outside(data) && session.pool.Extends()
        invariant i % c == 0 && (i <= n || done != [])
        invariant done + Spec.Chunks(input[Min(i, n)..], c) == Spec.Chunks(input, c)
        invariant Enclaves() == es + Spec.SealAll(session.cr, key, rng.nonces, from, done) && drawn == from + |done|
        invariant session.key.Held() == if done == [] then held else Some(key)
        invariant forall j :: 0 <= j < n ==> data[j] == if j < i then 0 else input[j]
      {
        ghost var end := Min(i + c, n);
        ChunksStep(input, i, c);
        NextIndex(i, c);
        assert data[i..end] == input[i..end];
        SealAllSnoc(session.cr, key, rng.nonces, from, done, input[i..end]);
        JoinChunk(data, i, rng);
        done := done + [input[i..end]];
        i := i + c;
      }
      assert input[n..] == [] && done == Spec.Chunks(input, c);
      assert es + [] == es;
    }

    /**
     * Seals the data chunk by chunk at the end of the queue and wipes it; each chunk begins with a nonce of its own.
     */
    method Write(data: array<Byte>, rng: Spec.Random) returns (n: nat)
      requires Valid() && session.Outside(data)
      modifies this, session, session.pool, session.pool.list, session.pool.list.backing, data
      ensures Valid() && n == data.Length && data[..] == Zeros(data.Length)
      ensures State() == Spec.Write(session.cr, rng, old(State()), old(data[..]), chunk)
      ensures old(Enclaves()) <= Enclaves() && drawn - old(drawn) == |queue| - |old(queue)|
      ensures forall i :: |old(queue)| <= i < |queue| ==>
                rng.nonces(old(drawn) + (i - |old(queue)|)) <= Enclaves()[i].ciphertext
    {
      hide Session.Valid, Coffer.Held, Lawful, Spec.Write;
      Spec.WriteDraws(session.cr, rng, State(), data[..], chunk);
      n := WriteChunks(data, rng);
    }

    /** The front of the queue, or nil when it is empty. */
    method Pop() returns (e: Option<Enclave>)
      requires Queued()
      modifies this`queue
      ensures Queued()
      ensures if old(queue) == [] then e == None && queue == [] else e == old(queue)[0] && queue == old(queue)[1..]
    {
      if queue == [] {
        return None;
      }
      e := queue[0];
      queue := queue[1..];
    }

    /** The next chunk in a frozen buffer. A chunk that does not open is dropped. */
    method Next(rng: Spec.Random) returns (b: Buffer?, err: Option<Spec.ReadError>)
      requires Valid()
      modifies this, session, session.pool, session.pool.list, session.pool.list.backing
      ensures Valid() && session.pool.Extends()
      ensures (err.None? <==> b != null) && drawn == old(drawn)
      ensures (State(), Spec.Answer(if b == null then [] else b.Bytes(), err)) == Spec.Next(session.cr, rng, old(State()))
      ensures session.key == old(session.key) || fresh(session.key.repr)
      ensures b != null ==> fresh(b) && session.User(b) && b.alive && !b.mutable && b.Healthy()
      ensures b != null ==>
                && session.key.Held().Some?
                && session.pool.list.contents == old(session.pool.list.contents) + [b] + session.KeyBuffers()
      ensures session.Listed(session.KeysMade() + Added(err)) && (old(session.key.Held()).Some? ==> session.key.Held().Some?)
    {
      hide Session.Valid, Coffer.Held, Lawful, Ensure, OpenWith, Buffer.Healthy, Buffer.Bytes;
      ghost var es := Enclaves();
      var e := Pop();
      if e.None? {
        session.NothingAdded();
        return null, Some(Spec.EOF);
      }
      assert Enclaves() == es[1..] && e.value == es[0];
      OpenErrors(session.cr, Ensure(session.cr, session.key.Held(), rng.scrambled), e.value);
      var r := session.OpenFrozen(e.value, rng.scrambled);
      if r.Err? {
        return null, Some(Spec.Broken(r.error));
      }
      b, err := r.value, None;
    }

    /** Seals what did not fit and puts it back in front. */
    method PushBack(bytes: Bytes, rng: Spec.Random)
      requires Valid() && session.key.Held().Some? && bytes != []
      modifies this, session, session.pool, session.pool.list, session.pool.list.backing
      ensures Valid() && session.pool.Extends() && session.key == old(session.key)
      ensures session.key.Held() == old(session.key.Held()) && drawn == old(drawn) + 1
      ensures Enclaves() == [SealWith(session.cr, session.key.Held().value, rng.nonces(old(drawn)), bytes)] + old(Enclaves())
      ensures rng.nonces(old(drawn)) <= Enclaves()[0].ciphertext
      ensures session.pool.list.contents == old(session.pool.list.contents)
    {
      hide Session.Valid, Coffer.Held, Lawful, SealWith;
      var e := session.SealBytes(bytes, rng.nonces(drawn), rng.scrambled);
      SealedSize(session.cr, session.key.Held().value, rng.nonces(drawn), bytes);
      queue := [Some(e)] + queue;
      drawn := drawn + 1;
    }

    /** Hands out up to `n` bytes of an opened chunk, puts the others back in front, and destroys the buffer. */
    method HandOut(b: Buffer, n: nat, rng: Spec.Random) returns (bytes: Bytes)
      requires Valid() && session.key.Held().Some? && session.User(b)
      modifies this, session, session.pool, session.pool.list, session.pool.list.backing, b, b.memory
      ensures Valid() && session.pool.Extends() && session.key == old(session.key)
      ensures session.key.Held() == old(session.key.Held()) && !b.alive && b.memory == null
      ensures session.pool.list.contents == RemoveFirst(old(session.pool.list.contents), b)
      ensures var chunk := old(b.Bytes());
              if |chunk| <= n then bytes == chunk && queue == old(queue) && drawn == old(drawn)
              else
                && bytes == chunk[..n] && drawn == old(drawn) + 1
                && Enclaves() ==
                   [SealWith(session.cr, session.key.Held().value, rng.nonces(old(drawn)), chunk[n..])] + old(Enclaves())
    {
      hide Session.Valid, Coffer.Held, Lawful, SealWith, RemoveFirst, Buffer.Healthy, Buffer.Bytes;
      var chunk := b.Bytes();
      if n < |chunk| {
        PushBack(chunk[n..], rng);
      }
      bytes := chunk[..Min(n, |chunk|)];
      session.Destroy(b);
    }

    /**
     * Up to `n` bytes of the next chunk; what does not fit goes back to the front. A successful read leaves no
     * buffer behind, and one that meets a stale chunk leaves the two of the failed `Open`.
     */
    method Read(n: nat, rng: Spec.Random) returns (a: Spec.Answer)
      requires Valid()
      modifies this, session, session.pool, session.pool.list, session.pool.list.backing
      ensures Valid() && session.pool.Extends()
      ensures (State(), a) == Spec.Read(session.cr, rng, old(State()), n)
      ensures session.key == old(session.key) || fresh(session.key.repr)
      ensures session.Listed(session.KeysMade() + Leaked(a.err))
      ensures old(session.key.Held()).Some? ==> session.key.Held().Some?
    {
      hide Session.Valid, Coffer.Held, Lawful, SealWith, RemoveFirst, Buffer.Healthy, Buffer.Bytes, Spec.Next;
      var b, err := Next(rng);
      if err.Some? {
        return Spec.Answer([], err);
      }
      ghost var all := session.pool.list.contents;
      var bytes := HandOut(b, n, rng);
      session.Unlisted(session.KeysMade() + 1, all, b);
      a := Spec.Answer(bytes, None);
    }

    /** `Read` into a slice of the caller's memory, of which it changes only the bytes it returns. */
    method ReadInto(buf: array<Byte>, lo: nat, hi: nat, rng: Spec.Random) returns (n: nat, err: Option<Spec.ReadError>)
      requires Valid() && session.Outside(buf) && lo <= hi <= buf.Length
      modifies this, session, session.pool, session.pool.list, session.pool.list.backing, buf
      ensures Valid() && session.Outside(buf) && n <= hi - lo
      ensures (State(), Spec.Answer(buf[lo..lo + n], err)) == Spec.Read(session.cr, rng, old(State()), hi - lo)
      ensures forall j :: 0 <= j < buf.Length && !(lo <= j < lo + n) ==> buf[j] == old(buf[j])
    {
      hide Coffer.Held, Coffer.Consistent, Pool.Valid, Lawful, Buffer.Healthy, Buffer.Bytes;
      ReadFits(session.cr, rng, State(), hi - lo);

      var a := Read(hi - lo, rng);
      n, err := |a.bytes|, a.err;
      Crypto.Store(buf, lo, a.bytes);
      assert buf[lo..lo + n] == a.bytes;
    }
  }

  lemma ReadFits(cr: Primitives, rng: Spec.Random, s: Spec.Stream, n: nat)
    ensures var a := Spec.Read(cr, rng, s, n).1; |a.bytes| <= n && (a.err.Some? ==> a.bytes == [])
  {
  }

  /** A chunk more in front of the rest of the input. */
  lemma ChunksStep(data: Bytes, i: nat, c: nat)
    requires c >= 1 && i < |data|
    ensures var end := Min(i + c, |data|);
            Spec.Chunks(data[i..], c) == [data[i..end]] + Spec.Chunks(data[end..], c)
  {
    var end := Min(i + c, |data|);
    assert data[i..][..end - i] == data[i..end];
    if end < |data| {
      assert data[i..][c..] == data[end..];
    } else {
      assert data[i..] == data[i..end];
    }
  }

  lemma SealAllSnoc(cr: Primitives, key: Parts, nonces: nat -> Nonce, from: nat, chunks: seq<Bytes>, p: Bytes)
    ensures Spec.SealAll(cr, key, nonces, from, chunks + [p]) ==
            Spec.SealAll(cr, key, nonces, from, chunks) + [SealWith(cr, key, nonces(from + |chunks|), p)]
  {
  }

  lemma NoChunks(cr: Primitives, key: Parts, nonces: nat -> Nonce, from: nat, c: nat)
    requires c >= 1
    ensures Spec.Chunks([], c) == [] && Spec.SealAll(cr, key, nonces, from, []) == []
  {
  }

  lemma SomeChunks(data: Bytes, c: nat)
    requires c >= 1
    ensures Spec.Chunks(data, c) == [] <==> data == []
  {
  }

  /** In the last, partial round the remainder of the length is what is left from the loop index on. */
  lemma TailStartsAtIndex(len: nat, i: nat, c: nat)
    requires c >= 1 && i % c == 0 && i < len < i + c
    ensures len - len % c == i
    ensures (i + c) % c == 0
  {
    var q := i / c;
    assert i == q * c;
    DivModUnique(len, c, q, len - i);
    NextIndex(i, c);
  }

  lemma NextIndex(i: nat, c: nat)
    requires c >= 1 && i % c == 0
    ensures (i + c) % c == 0
  {
    var q := i / c;
    assert i + c == (q + 1) * c + 0 by { assert (q + 1) * c == q * c + c; }
    DivModUnique(i + c, c, q + 1, 0);
  }
}
