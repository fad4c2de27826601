/** The reader loops of the public package, working on guarded buffers that grow a page at a time. */
module Readers {
  import opened Auxiliary
  import opened Bytes
  import opened Buffers
  import opened Core
  import opened Crypto
  import opened Pools
  import opened ReaderSpec
  import opened Registry
  import opened Streams
  import Runs = StreamRuns
  import Spec = StreamSpec

  // ---------------------------------------------------------------- what is left in the list

  /** The buffers of a key that was made on the way. */
  function Made(had: bool, has: bool): nat {
    if !had && has then 3 else 0
  }

  /** The buffers that the last answer of a reader has left behind, if it is a stream. */
  function LeakedBy(stream: bool, err: Option<Spec.ReadError>): nat {
    if stream then Leaked(err) else 0
  }

  /** The list has grown behind `before`: by the buffers of a key made on the way, and by `extra` others. */
  ghost predicate Ledger(before: seq<Buffer>, had: bool, now: seq<Buffer>, has: bool, extra: nat) {
    before <= now && |now| == |before| + Made(had, has) + extra && (had ==> has)
  }

  lemma LedgerAdds(before: seq<Buffer>, had: bool, mid: seq<Buffer>, has': bool, e: nat, now: seq<Buffer>, has: bool, f: nat)
    requires Ledger(before, had, mid, has', e) && Ledger(mid, has', now, has, f)
    ensures Ledger(before, had, now, has, e + f)
  {
  }

  lemma StaysListed(mid: seq<Buffer>, has': bool, now: seq<Buffer>, has: bool, e: nat, b: Buffer)
    requires Ledger(mid, has', now, has, e) && b in mid
    ensures b in now
  {
  }

  /** A buffer that is new since `before` is taken off the list again, and another one may join at its end. */
  lemma LedgerReplaces(before: seq<Buffer>, had: bool, now: seq<Buffer>, has: bool, e: nat, b: Buffer, d: Buffer)
    requires Ledger(before, had, now, has, e + 1) && b in now && b !in before
    ensures Ledger(before, had, RemoveFirst(now, b), has, e)
    ensures Ledger(before, had, RemoveFirst(now, b) + [d], has, e + 1)
    ensures d !in now ==> d !in before
  {
    var more := now[|before|..];
    assert now == before + more;
    RemoveBehind(before, more, b);
    RemoveFirstSize(more, b);
  }

  /** An `io.Reader`: a stream of this library, or a foreign reader that follows a script. */
  class Reader {
    const session: Session
    const stream: Stream?
    const rng: Spec.Random
    var steps: seq<nat -> Spec.Answer>

    ghost predicate Valid()
      reads this, stream, session, session.key, session.key.repr, session.pool, session.pool.list
      reads session.pool.list.backing, session.pool.all, set b | b in session.pool.all :: b.memory
    {
      && session.Valid() && session.pool.page >= 1 && this !in session.key.repr
      && (stream != null ==> stream.session == session && stream.Valid())
      && Sane(Source())
    }

    ghost function Source(): Source
      reads this, stream, session, session.key, session.key.repr
    {
      if stream != null && stream.session == session && stream.Queued()
      then Encrypted(session.cr, rng, stream.State())
      else Script(steps)
    }

    /** The list of the session. */
    ghost function Listing(): seq<Buffer>
      reads this, session, session.pool, session.pool.list
    {
      session.pool.list.contents
    }

    ghost predicate HasKey()
      reads this, session, session.key, session.key.repr
    {
      session.key.Held().Some?
    }

    lemma IsReady()
      requires Valid()
      ensures Sane(Source()) && session.pool.page >= 1
    {
    }

    constructor FromScript(session: Session, rng: Spec.Random, steps: seq<nat -> Spec.Answer>)
      requires session.Valid() && Sane(Script(steps))
      ensures Valid() && this.session == session && stream == null && Source() == Script(steps)
    {
      this.session, this.stream, this.rng, this.steps := session, null, rng, steps;
    }

    constructor FromStream(s: Stream, rng: Spec.Random)
      requires s.Valid()
      ensures Valid() && this.session == s.session && stream == s && this.rng == rng
      ensures Source() == Encrypted(s.session.cr, rng, s.State())
    {
      this.session, this.stream, this.rng, this.steps := s.session, s, rng, [];
    }

    /** One call with room for `n` bytes. */
    method Pull(n: nat) returns (a: Spec.Answer)
      requires Valid() && n >= 1
      modifies this, stream, session, session.pool, session.pool.list, session.pool.list.backing
      ensures Valid() && session.pool.Extends() && (session.key == old(session.key) || fresh(session.key.repr))
      ensures (Source(), a) == ReaderSpec.Pull(old(Source()), n)
      ensures Ledger(old(Listing()), old(HasKey()), Listing(), HasKey(), LeakedBy(stream != null, a.err))
      ensures stream != null && a.err.Some? ==> a.bytes == []
    {
      hide Session.Valid, Coffer.Held, Lawful, Spec.Read;
      if stream != null {
        ReadFits(session.cr, rng, stream.State(), n);
        a := stream.Read(n, rng);
      } else if steps == [] {
        a := Spec.Answer([], Some(Spec.EOF));
      } else {
        a := steps[0](n);
        steps := steps[1..];
      }
    }
  }

  /** What a page-wise growing buffer has room for, after `n` more bytes. */
  lemma RoomSteps(read: nat, n: nat, page: nat)
    requires page >= 1 && n <= Room(read, page)
    ensures n < Room(read, page) ==> Room(read + n, page) == Room(read, page) - n
    ensures n == Room(read, page) ==> Room(read + n, page) == page
  {
    var q, r := read / page, read % page;
    assert read == q * page + r && (q + 1) * page == q * page + page;
    if n < Room(read, page) {
      DivModUnique(read + n, page, q, r + n);
    } else {
      assert (q + 1 + 1) * page == (q + 1) * page + page;
      DivModUnique(read + n, page, q + 1, 0);
    }
  }

  lemma EmptyRoom(page: nat)
    requires page >= 1
    ensures Room(0, page) == page
  {
    assert 0 / page == 0;
  }

  /** A writable buffer of the session that a loop is filling. */
  ghost predicate Working(s: Session, b: Buffer)
    reads s, s.key, s.pool, s.pool.list, b, b.memory
  {
    && s.User(b) && b.Healthy() && b.alive && b.mutable && b.data.len >= 1
    && b.memory != null && b.memory as object != s.pool.list.backing
  }

  /** Buffers may have been made but none is forgotten, and the list may have moved to a new array. */
  twostate predicate Same(r: Reader)
    reads r, r.session.pool, r.session.pool.list
  {
    && old(r.session.pool.all) <= r.session.pool.all
    && (r.session.pool.list.backing == old(r.session.pool.list.backing) || fresh(r.session.pool.list.backing))
  }

  method NewWorking(r: Reader, size: nat) returns (b: Buffer)
    requires r.Valid() && size >= 1
    modifies r.session.pool, r.session.pool.list, r.session.pool.list.backing
    ensures r.Valid() && Same(r) && r.Source() == old(r.Source())
    ensures r.Listing() == old(r.Listing()) + [b] && b !in old(r.Listing()) && r.HasKey() == old(r.HasKey())
    ensures Working(r.session, b) && fresh(b) && fresh(b.memory) && b.data.len == size && b.Bytes() == Zeros(size)
  {
    hide Pool.Valid, Coffer.Held, Coffer.Consistent, Buffer.Healthy, Buffer.Bytes, Buffer.State, Lawful, Sane;
    b := r.session.pool.Allocate(size);
  }

  /** A read into `n` bytes of the working buffer. */
  method Fetch(r: Reader, b: Buffer, at: nat, n: nat) returns (a: Spec.Answer)
    requires r.Valid() && Working(r.session, b) && 1 <= n && at + n <= b.data.len
    modifies r, r.stream, r.session, r.session.pool, r.session.pool.list, r.session.pool.list.backing, b.memory
    ensures r.Valid() && Same(r) && Working(r.session, b) && b.memory == old(b.memory) && b.data == old(b.data)
    ensures (r.Source(), a) == ReaderSpec.Pull(old(r.Source()), n)
    ensures |a.bytes| <= n && b.Bytes() == Splice(old(b.Bytes()), at, a.bytes)
    ensures Ledger(old(r.Listing()), old(r.HasKey()), r.Listing(), r.HasKey(), LeakedBy(r.stream != null, a.err))
    ensures r.stream != null && a.err.Some? ==> a.bytes == []
  {
    hide Pool.Valid, Coffer.Held, Coffer.Consistent, Buffer.Healthy, Buffer.Bytes, Buffer.State;
    hide Lawful, Sane, ReaderSpec.Pull;
    PullProgress(r.Source(), n);
    a := r.Pull(n);
    r.session.pool.Put(b, at, a.bytes);
  }

  /** The working buffer is destroyed, and the reader notices nothing. */
  method Discard(r: Reader, b: Buffer)
    requires r.Valid() && r.session.User(b)
    modifies r.session.pool.list, r.session.pool.list.backing, b, b.memory
    ensures r.Valid() && Same(r) && r.Source() == old(r.Source())
    ensures r.Listing() == RemoveFirst(old(r.Listing()), b) && r.HasKey() == old(r.HasKey())
  {
    hide Pool.Valid, Coffer.Held, Coffer.Consistent, Buffer.Healthy, Buffer.Bytes, Buffer.State, Lawful, Sane;
    r.session.pool.Destroy(b);
  }

  /** The bytes move to a buffer that is `extra` bytes longer. */
  method Grow(r: Reader, b: Buffer, extra: nat) returns (d: Buffer)
    requires r.Valid() && Working(r.session, b) && b in r.Listing()
    modifies r.session.pool, r.session.pool.list, r.session.pool.list.backing, b, b.memory
    ensures r.Valid() && Same(r) && r.Source() == old(r.Source())
    ensures r.Listing() == RemoveFirst(old(r.Listing()), b) + [d] && d !in old(r.Listing())
    ensures r.HasKey() == old(r.HasKey())
    ensures Working(r.session, d) && fresh(d) && fresh(d.memory) && d.data.len == old(b.data.len) + extra
    ensures d.Bytes() == old(b.Bytes()) + Zeros(extra)
  {
    hide Pool.Valid, Coffer.Held, Coffer.Consistent, Buffer.Healthy, Buffer.Bytes, Buffer.State;
    hide Lawful, Sane, Stream.Queued;
    hide RemoveFirst;
    var bytes := b.Bytes();
    d := NewWorking(r, b.data.len + extra);
    RemoveFirstPrefix(old(r.Listing()), [d], b);
    r.session.pool.Put(d, 0, bytes);
    Discard(r, b);
    assert Splice(Zeros(|bytes| + extra), 0, bytes) == bytes + Zeros(extra);
  }

  method FrozenCopy(r: Reader, bytes: Bytes) returns (d: Buffer)
    requires r.Valid() && bytes != []
    modifies r.session.pool, r.session.pool.list, r.session.pool.list.backing
    ensures r.Valid() && Same(r) && r.Source() == old(r.Source())
    ensures r.Listing() == old(r.Listing()) + [d] && r.HasKey() == old(r.HasKey())
    ensures fresh(d) && r.session.User(d) && d.Bytes() == bytes && d.alive && !d.mutable
    ensures d.memory != null && fresh(d.memory) && d.memory as object != r.session.pool.list.backing
  {
    hide Pool.Valid, Coffer.Held, Coffer.Consistent, Buffer.Healthy, Buffer.Bytes, Buffer.State;
    hide Lawful, Sane, Stream.Queued;
    d := NewWorking(r, |bytes|);
    r.session.pool.Fill(d, bytes);
    r.session.Freeze(d);
  }

  method DiscardForNull(r: Reader, b: Buffer) returns (d: Buffer)
    requires r.Valid() && r.session.User(b)
    modifies r.session.pool.list, r.session.pool.list.backing, b, b.memory
    ensures r.Valid() && r.Source() == old(r.Source())
    ensures r.Listing() == RemoveFirst(old(r.Listing()), b) && r.HasKey() == old(r.HasKey())
    ensures d.Bytes() == [] && !d.alive && !d.mutable
  {
    hide *;
    Discard(r, b);
    d := new Buffer.Null();
  }

  /** The first `n` bytes in a frozen buffer of that size, or the null buffer when there are none. */
  method Finish(r: Reader, b: Buffer, n: nat) returns (d: Buffer)
    requires r.Valid() && Working(r.session, b) && n <= b.data.len && b in r.Listing()
    modifies r.session.pool, r.session.pool.list, r.session.pool.list.backing, b, b.memory
    ensures r.Valid() && r.Source() == old(r.Source()) && r.HasKey() == old(r.HasKey())
    ensures r.Listing() == if n == 0 then RemoveFirst(old(r.Listing()), b) else RemoveFirst(old(r.Listing()), b) + [d]
    ensures d.Bytes() == old(b.Bytes())[..n] && (d.alive <==> n > 0) && !d.mutable
  {
    hide Reader.Valid, Reader.Source, Reader.HasKey, Buffer.Healthy, Buffer.Bytes, Buffer.State, RemoveFirst;
    if n == 0 {
      d := DiscardForNull(r, b);
    } else {
      d := FrozenCopy(r, b.Bytes()[..n]);
      RemoveFirstPrefix(old(r.Listing()), [d], b);
      Discard(r, b);
    }
  }

  // ---------------------------------------------------------------- the same, with the list accounted for

  /** The loop is filling `b`; the list has grown since `before` by it, by a key made on the way, and by `extra`. */
  ghost predicate Filling(r: Reader, b: Buffer, before: seq<Buffer>, had: bool, extra: nat)
    reads r, r.stream, r.session, r.session.key, r.session.key.repr, r.session.pool, r.session.pool.list
    reads r.session.pool.list.backing, r.session.pool.all, (set b | b in r.session.pool.all :: b.memory), b, b.memory
  {
    && r.Valid() && Working(r.session, b)
    && b in r.Listing() && b !in before && Ledger(before, had, r.Listing(), r.HasKey(), 1 + extra)
  }

  lemma FillingIsReady(r: Reader, b: Buffer, before: seq<Buffer>, had: bool)
    requires Filling(r, b, before, had, 0)
    ensures Sane(r.Source()) && r.session.pool.page >= 1
  {
  }

  method Begin(r: Reader, size: nat) returns (b: Buffer)
    requires r.Valid() && size >= 1
    modifies r.session.pool, r.session.pool.list, r.session.pool.list.backing
    ensures Filling(r, b, old(r.Listing()), old(r.HasKey()), 0) && Same(r) && r.Source() == old(r.Source())
    ensures fresh(b) && fresh(b.memory) && b.data.len == |b.Bytes()| == size
  {
    hide Reader.Valid, Reader.Source, Reader.Listing, Reader.HasKey, Working, Buffer.Bytes;
    b := NewWorking(r, size);
  }

  method Refill(r: Reader, b: Buffer, at: nat, n: nat, ghost before: seq<Buffer>, ghost had: bool)
    returns (a: Spec.Answer)
    requires Filling(r, b, before, had, 0) && 1 <= n && at + n <= b.data.len == |b.Bytes()|
    modifies r, r.stream, r.session, r.session.pool, r.session.pool.list, r.session.pool.list.backing, b.memory
    ensures Filling(r, b, before, had, LeakedBy(r.stream != null, a.err)) && Same(r)
    ensures b.memory == old(b.memory) && b.data == old(b.data)
    ensures (r.Source(), a) == ReaderSpec.Pull(old(r.Source()), n)
    ensures |a.bytes| <= n && |b.Bytes()| == b.data.len
    ensures b.Bytes()[..at + |a.bytes|] == old(b.Bytes())[..at] + a.bytes
    ensures a.bytes != [] || a.err.None? ==> LeakedBy(r.stream != null, a.err) == 0
  {
    hide Reader.Valid, Reader.Source, Reader.Listing, Reader.HasKey, Working, Buffer.Bytes, ReaderSpec.Pull, Ledger, Splice;
    ghost var mid, has := r.Listing(), r.HasKey();
    a := Fetch(r, b, at, n);
    ghost var leak := LeakedBy(r.stream != null, a.err);
    LedgerAdds(before, had, mid, has, 1, r.Listing(), r.HasKey(), leak);
    StaysListed(mid, has, r.Listing(), r.HasKey(), leak, b);
    SpliceStart(old(b.Bytes()), at, a.bytes);
  }

  method Enlarge(r: Reader, b: Buffer, extra: nat, ghost before: seq<Buffer>, ghost had: bool) returns (d: Buffer)
    requires Filling(r, b, before, had, 0)
    modifies r.session.pool, r.session.pool.list, r.session.pool.list.backing, b, b.memory
    ensures Filling(r, d, before, had, 0) && Same(r) && r.Source() == old(r.Source())
    ensures fresh(d) && fresh(d.memory) && d.data.len == old(b.data.len) + extra
    ensures d.Bytes() == old(b.Bytes()) + Zeros(extra)
  {
    hide Reader.Valid, Reader.Source, Reader.Listing, Reader.HasKey, Working, Buffer.Bytes, Ledger, RemoveFirst;
    ghost var mid := r.Listing();
    d := Grow(r, b, extra);
    LedgerReplaces(before, had, mid, r.HasKey(), 0, b, d);
  }

  method End(r: Reader, b: Buffer, n: nat, ghost before: seq<Buffer>, ghost had: bool, ghost extra: nat)
    returns (d: Buffer)
    requires Filling(r, b, before, had, extra) && n <= b.data.len == |b.Bytes()|
    modifies r.session.pool, r.session.pool.list, r.session.pool.list.backing, b, b.memory
    ensures r.Valid() && r.Source() == old(r.Source())
    ensures d.Bytes() == old(b.Bytes())[..n] && (d.alive <==> n > 0) && !d.mutable
    ensures Ledger(before, had, r.Listing(), r.HasKey(), extra + if n > 0 then 1 else 0)
    ensures n > 0 ==> r.Listing() != [] && r.Listing()[|r.Listing()| - 1] == d
  {
    hide Reader.Valid, Reader.Source, Reader.Listing, Reader.HasKey, Working, Buffer.Bytes, Ledger, RemoveFirst;
    ghost var mid := r.Listing();
    d := Finish(r, b, n);
    LedgerReplaces(before, had, mid, r.HasKey(), extra, b, d);
  }

  /** What the loop will have returned in the end, seen from a round in which `got` is already in. */
  ghost predicate EntireSoFar(start: Source, page: nat, src: Source, read: nat, got: Bytes) {
    && page >= 1 && Sane(start) && Sane(src)
    && var o := ReadEntire(src, read, page);
       ReadEntire(start, 0, page) == o.(bytes := got + o.bytes)
  }

  lemma EntireStarts(start: Source, page: nat)
    requires page >= 1 && Sane(start)
    ensures EntireSoFar(start, page, start, 0, [])
  {
    var o := ReadEntire(start, 0, page);
    assert [] + o.bytes == o.bytes;
  }

  /** One more answer moves the loop on or ends it. */
  lemma EntireAdvances(start: Source, page: nat, src: Source, read: nat, got: Bytes)
    requires EntireSoFar(start, page, src, read, got)
    ensures Room(read, page) >= 1
    ensures var (src', a) := ReaderSpec.Pull(src, Room(read, page));
            if a.err.None? then
              Weight(src') < Weight(src) && EntireSoFar(start, page, src', read + |a.bytes|, got + a.bytes)
            else
              ReadEntire(start, 0, page) == Outcome(src', got + a.bytes, if a.err == Some(Spec.EOF) then None else a.err)
  {
    hide ReaderSpec.Pull, Weight, Sane;
    RoomIsPositive(read, page);
    PullProgress(src, Room(read, page));
    var (src', a) := ReaderSpec.Pull(src, Room(read, page));
    if a.err.None? {
      var o := ReadEntire(src', read + |a.bytes|, page);
      assert got + (a.bytes + o.bytes) == (got + a.bytes) + o.bytes;
    }
  }

  /** The loop, which ends with the first `read` bytes of a buffer filled. */
  method FillEntirely(r: Reader, first: Buffer, ghost before: seq<Buffer>, ghost had: bool)
    returns (b: Buffer, read: nat, err: Option<Spec.ReadError>)
    requires Filling(r, first, before, had, 0) && r.session.pool.page == first.data.len == |first.Bytes()|
    modifies r, r.stream, r.session, r.session.pool, r.session.pool.list, r.session.pool.list.backing, first, first.memory
    ensures Filling(r, b, before, had, LeakedBy(r.stream != null, err)) && Same(r)
    ensures (b == first && b.memory == old(first.memory)) || (fresh(b) && fresh(b.memory))
    ensures read <= b.data.len == |b.Bytes()|
    ensures Outcome(r.Source(), b.Bytes()[..read], err) == ReadEntire(old(r.Source()), 0, r.session.pool.page)
  {
    hide Reader.Valid, Reader.Source, Reader.Listing, Reader.HasKey, Filling, EntireSoFar, Buffer.Bytes, Ledger;
    hide Room, ReadEntire, ReaderSpec.Pull, Sane, Weight;
    FillingIsReady(r, first, before, had);
    ghost var start := r.Source();
    var page := r.session.pool.page;
    EntireStarts(start, page);
    EmptyRoom(page);
    b, read := first, 0;
    assert b.Bytes()[..0] == [];
    while true
      invariant Filling(r, b, before, had, 0) && Same(r)
      invariant (b == first && b.memory == old(first.memory)) || (fresh(b) && fresh(b.memory))
      invariant read <= |b.Bytes()| == b.data.len == read + Room(read, page)
      invariant EntireSoFar(start, page, r.Source(), read, b.Bytes()[..read])
      decreases Weight(r.Source())
    {
      ghost var got := b.Bytes()[..read];
      EntireAdvances(start, page, r.Source(), read, got);
      var a := Refill(r, b, read, b.data.len - read, before, had);
      RoomSteps(read, |a.bytes|, page);
      read := read + |a.bytes|;
      if a.err.Some? {
        err := if a.err == Some(Spec.EOF) then None else a.err;
        return;
      }
      if read == b.data.len {
        b := Enlarge(r, b, page, before, had);
        assert b.Bytes()[..read] == got + a.bytes;
      }
    }
  }

  /**
   * Reads to the end, which is also `Stream.Flush`. Each call offers the whole free part of the buffer, never
   * an empty one; a full buffer grows by a page. The list gains the result, unless it is empty, and beside it only
   * the buffers of a key made on the way and of a chunk that did not open.
   */
  method NewBufferFromEntireReader(r: Reader) returns (d: Buffer, err: Option<Spec.ReadError>)
    requires r.Valid()
    modifies r, r.stream, r.session, r.session.pool, r.session.pool.list, r.session.pool.list.backing
    ensures r.Valid() && (d.alive <==> d.Bytes() != []) && !d.mutable
    ensures Outcome(r.Source(), d.Bytes(), err) == ReadEntire(old(r.Source()), 0, r.session.pool.page)
    ensures Ledger(old(r.Listing()), old(r.HasKey()), r.Listing(), r.HasKey(),
                   LeakedBy(r.stream != null, err) + if d.alive then 1 else 0)
    ensures d.alive ==> r.Listing() != [] && r.Listing()[|r.Listing()| - 1] == d
  {
    hide Reader.Valid, Reader.Source, Reader.Listing, Reader.HasKey, Filling, Buffer.Bytes, Ledger, ReadEntire, Sane;
    r.IsReady();
    ghost var before, had := r.Listing(), r.HasKey();
    var b := Begin(r, r.session.pool.page);
    var read;
    b, read, err := FillEntirely(r, b, before, had);
    d := End(r, b, read, before, had, LeakedBy(r.stream != null, err));
  }

  ghost predicate UntilSoFar(start: Source, delim: Byte, src: Source, got: Bytes) {
    && Sane(start) && Sane(src)
    && var o := ReadUntil(src, delim);
       ReadUntil(start, delim) == o.(bytes := got + o.bytes)
  }

  lemma UntilStarts(start: Source, delim: Byte)
    requires Sane(start)
    ensures UntilSoFar(start, delim, start, [])
  {
    var o := ReadUntil(start, delim);
    assert [] + o.bytes == o.bytes;
  }

  lemma UntilAdvances(start: Source, delim: Byte, src: Source, got: Bytes)
    requires UntilSoFar(start, delim, src, got)
    ensures var (src', a) := ReaderSpec.Pull(src, 1);
            if |a.bytes| != 1 then
              if a.err.None? then a.bytes == [] && Weight(src') < Weight(src) && UntilSoFar(start, delim, src', got)
              else ReadUntil(start, delim) == Outcome(src', got, a.err)
            else if a.bytes[0] == delim then ReadUntil(start, delim) == Outcome(src', got, None)
            else Weight(src') < Weight(src) && UntilSoFar(start, delim, src', got + a.bytes)
  {
    hide ReaderSpec.Pull, Weight, Sane;
    PullProgress(src, 1);
    var (src', a) := ReaderSpec.Pull(src, 1);
    assert got + [] == got;
    if |a.bytes| == 1 && a.bytes[0] != delim {
      var o := ReadUntil(src', delim);
      assert got + (a.bytes + o.bytes) == (got + a.bytes) + o.bytes;
    }
  }

  /** One byte more at `i`, in a larger buffer if this one is full. */
  method NextByte(r: Reader, b: Buffer, i: nat, page: nat, ghost before: seq<Buffer>, ghost had: bool)
    returns (d: Buffer, a: Spec.Answer)
    requires Filling(r, b, before, had, 0) && i <= b.data.len == |b.Bytes()| && page >= 1
    modifies r, r.stream, r.session, r.session.pool, r.session.pool.list, r.session.pool.list.backing, b, b.memory
    ensures Filling(r, d, before, had, LeakedBy(r.stream != null, a.err)) && Same(r)
    ensures (d == b && d.memory == old(b.memory)) || (fresh(d) && fresh(d.memory))
    ensures (r.Source(), a) == ReaderSpec.Pull(old(r.Source()), 1)
    ensures i < d.data.len == |d.Bytes()| && |a.bytes| <= 1
    ensures d.Bytes()[..i + |a.bytes|] == old(b.Bytes())[..i] + a.bytes
    ensures a.bytes != [] || a.err.None? ==> LeakedBy(r.stream != null, a.err) == 0
  {
    hide Reader.Valid, Reader.Source, Reader.Listing, Reader.HasKey, Filling, Buffer.Bytes, Ledger, ReaderSpec.Pull;
    d := b;
    if i == b.data.len {
      d := Enlarge(r, b, page, before, had);
    }
    a := Refill(r, d, i, 1, before, had);
  }

  /** The loop, which ends with the first `i` bytes of a buffer filled. */
  method FillUntil(r: Reader, delim: Byte, first: Buffer, ghost before: seq<Buffer>, ghost had: bool)
    returns (b: Buffer, i: nat, err: Option<Spec.ReadError>)
    requires Filling(r, first, before, had, 0) && first.data.len == |first.Bytes()|
    modifies r, r.stream, r.session, r.session.pool, r.session.pool.list, r.session.pool.list.backing, first, first.memory
    ensures Filling(r, b, before, had, LeakedBy(r.stream != null, err)) && Same(r)
    ensures (b == first && b.memory == old(first.memory)) || (fresh(b) && fresh(b.memory))
    ensures i <= b.data.len == |b.Bytes()|
    ensures Outcome(r.Source(), b.Bytes()[..i], err) == ReadUntil(old(r.Source()), delim)
  {
    hide Reader.Valid, Reader.Source, Reader.Listing, Reader.HasKey, Filling, UntilSoFar, Buffer.Bytes, Ledger;
    hide ReadUntil, ReaderSpec.Pull, Sane, Weight;
    FillingIsReady(r, first, before, had);
    ghost var start := r.Source();
    UntilStarts(start, delim);
    b, i := first, 0;
    assert b.Bytes()[..0] == [];
    while true
      invariant Filling(r, b, before, had, 0) && Same(r)
      invariant (b == first && b.memory == old(first.memory)) || (fresh(b) && fresh(b.memory))
      invariant i <= |b.Bytes()| == b.data.len
      invariant UntilSoFar(start, delim, r.Source(), b.Bytes()[..i])
      decreases Weight(r.Source())
    {
      ghost var got := b.Bytes()[..i];
      UntilAdvances(start, delim, r.Source(), got);
      var a;
      b, a := NextByte(r, b, i, r.session.pool.page, before, had);
      if |a.bytes| != 1 {
        assert a.bytes == [] && got + [] == got;
        if a.err.None? {
          continue;
        }
        err := a.err;
        return;
      }
      if b.Bytes()[i] == delim {
        assert b.Bytes()[..i] == got;
        err := None;
        return;
      }
      i := i + 1;
    }
  }

  /**
   * Reads byte by byte up to a delimiter; a full buffer grows by a page before the next byte. The effect on the
   * list is that of the other loop.
   */
  method NewBufferFromReaderUntil(r: Reader, delim: Byte) returns (d: Buffer, err: Option<Spec.ReadError>)
    requires r.Valid()
    modifies r, r.stream, r.session, r.session.pool, r.session.pool.list, r.session.pool.list.backing
    ensures r.Valid() && (d.alive <==> d.Bytes() != []) && !d.mutable
    ensures Outcome(r.Source(), d.Bytes(), err) == ReadUntil(old(r.Source()), delim)
    ensures Ledger(old(r.Listing()), old(r.HasKey()), r.Listing(), r.HasKey(),
                   LeakedBy(r.stream != null, err) + if d.alive then 1 else 0)
    ensures d.alive ==> r.Listing() != [] && r.Listing()[|r.Listing()| - 1] == d
  {
    hide Reader.Valid, Reader.Source, Reader.Listing, Reader.HasKey, Filling, Buffer.Bytes, Ledger, ReadUntil, Sane;
    r.IsReady();
    ghost var before, had := r.Listing(), r.HasKey();
    var b := Begin(r, r.session.pool.page);
    var i;
    b, i, err := FillUntil(r, delim, b, before, had);
    d := End(r, b, i, before, had, LeakedBy(r.stream != null, err));
  }

  /** `Flush`: the entire-reader loop over the stream itself. */
  method Flush(s: Stream, rng: Spec.Random) returns (d: Buffer, err: Option<Spec.ReadError>)
    requires s.Valid()
    modifies s, s.session, s.session.pool, s.session.pool.list, s.session.pool.list.backing
    ensures s.Valid() && s.session.pool.page >= 1
    ensures (Runs.State(s.State(), false), Spec.Answer(d.Bytes(), err)) ==
            Runs.Step(s.session.cr, Runs.Config(s.session.pool.page, s.chunk), Runs.State(old(s.State()), false),
                      Runs.Event(Runs.OpFlush, rng))
    ensures Ledger(old(s.session.pool.list.contents), old(s.session.key.Held().Some?), s.session.pool.list.contents,
                   s.session.key.Held().Some?, Leaked(err) + if d.alive then 1 else 0)
  {
    hide Pool.Valid, Session.Valid, Coffer.Held, Buffer.Bytes, Lawful, ReadEntire;
    var r := new Reader.FromStream(s, rng);
    s.session.PageIsPositive();
    d, err := NewBufferFromEntireReader(r);
  }
}
