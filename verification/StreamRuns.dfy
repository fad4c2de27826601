/** What holds over whole runs of a stream: it is a byte queue whose contents a purge makes unreadable. */
module StreamRuns {
  import opened Bytes
  import opened Crypto
  import opened ReaderSpec
  import opened SessionSpec
  import opened StreamSpec

  // ---------------------------------------------------------------- the loops on the plain queue

  /** The readable bytes in front of the first lost chunk. */
  function Lead(v: Fifo): Bytes {
    if v == [] || v[0].Lost? then [] else v[0].bytes + Lead(v[1..])
  }

  /** The queue from the first lost chunk on. */
  function Tail(v: Fifo): Fifo {
    if v == [] || v[0].Lost? then v else Tail(v[1..])
  }

  predicate Readable(v: Fifo) {
    forall i :: 0 <= i < |v| ==> v[i].Live?
  }

  /** Each read takes its bytes from the front of the readable ones. */
  lemma ReadTakesLead(v: Fifo, n: nat)
    ensures var (v', a) := FifoRead(v, n);
            if v == [] || v[0].Lost?
            then
              && a.bytes == [] && a.err == Some(if v == [] then EOF else Broken(DecryptionFailed))
              && v' == if v == [] then v else v[1..]
            else
              && a.err == None && |a.bytes| == Min(n, |v[0].bytes|)
              && Lead(v) == a.bytes + Lead(v') && Tail(v') == Tail(v)
  {
    hide Lead, Tail;
    if v != [] && v[0].Live? {
      var x, w := v[0].bytes, v[1..];
      assert v == [Live(x)] + w;
      LeadCons(x, w);
      if n < |x| {
        LeadCons(x[n..], w);
        Rejoin(x, n, Lead(w));
      }
    }
  }

  lemma Rejoin(x: Bytes, n: nat, y: Bytes)
    requires n <= |x|
    ensures x[..n] + (x[n..] + y) == x + y
  {
  }

  lemma LeadCons(x: Bytes, v: Fifo)
    ensures Lead([Live(x)] + v) == x + Lead(v) && Tail([Live(x)] + v) == Tail(v)
  {
    assert ([Live(x)] + v)[1..] == v;
  }

  /**
   * Reading everything returns the readable bytes in front of the first lost chunk, reports that chunk, drops
   * only it, and keeps all later ones; without a lost chunk it empties the queue with a nil error.
   */
  lemma {:induction false} EntireOfPlain(v: Fifo, read: nat, page: nat)
    requires page >= 1
    ensures ReadEntire(Plain(v), read, page) ==
            if Tail(v) == [] then Outcome(Plain([]), Lead(v), None)
            else Outcome(Plain(Tail(v)[1..]), Lead(v), Some(Broken(DecryptionFailed)))
    decreases FifoWeight(v)
  {
    hide Room;
    RoomIsPositive(read, page);
    var n := Room(read, page);
    PullProgress(Plain(v), n);
    ReadTakesLead(v, n);
    var (v', a) := FifoRead(v, n);
    if a.err.None? {
      EntireOfPlain(v', read + |a.bytes|, page);
    }
  }

  /** The outcome `o` takes the readable bytes of `v` up to the first delimiter, or all of them and their error. */
  ghost predicate TakesUntil(v: Fifo, delim: Byte, o: Outcome) {
    && o.src.Plain? && delim !in o.bytes
    && if delim in Lead(v)
       then o.err == None && Lead(v) == o.bytes + [delim] + Lead(o.src.v) && Tail(o.src.v) == Tail(v)
       else o == if Tail(v) == [] then Outcome(Plain([]), Lead(v), Some(EOF))
                 else Outcome(Plain(Tail(v)[1..]), Lead(v), Some(Broken(DecryptionFailed)))
  }

  lemma TakesUntilCons(v: Fifo, x: Byte, v': Fifo, delim: Byte, o: Outcome)
    requires Lead(v) == [x] + Lead(v') && Tail(v) == Tail(v') && x != delim && TakesUntil(v', delim, o)
    ensures TakesUntil(v, delim, o.(bytes := [x] + o.bytes))
  {
    hide Lead, Tail;
    if delim in Lead(v') {
      assert [x] + (o.bytes + [delim] + Lead(o.src.v)) == [x] + o.bytes + [delim] + Lead(o.src.v);
    }
  }

  lemma TakesUntilSame(v: Fifo, v': Fifo, delim: Byte, o: Outcome)
    requires Lead(v) == Lead(v') && Tail(v) == Tail(v') && TakesUntil(v', delim, o)
    ensures TakesUntil(v, delim, o)
  {
  }

  /**
   * Reading until a delimiter returns the readable bytes before its first occurrence and leaves exactly the bytes
   * behind it; when it does not occur, it returns all readable bytes and the error that ended them.
   */
  lemma {:induction false} UntilOfPlain(v: Fifo, delim: Byte)
    ensures TakesUntil(v, delim, ReadUntil(Plain(v), delim))
    decreases FifoWeight(v)
  {
    hide TakesUntil;
    PullProgress(Plain(v), 1);
    ReadTakesLead(v, 1);
    var (v', a) := FifoRead(v, 1);
    if a.err.Some? || a.bytes == [delim] {
      UntilEnds(v, delim);
    } else {
      UntilOfPlain(v', delim);
      var o := ReadUntil(Plain(v'), delim);
      if |a.bytes| == 1 {
        assert a.bytes == [a.bytes[0]];
        TakesUntilCons(v, a.bytes[0], v', delim, o);
      } else {
        assert Lead(v) == Lead(v');
        TakesUntilSame(v, v', delim, o);
      }
    }
  }

  lemma UntilEnds(v: Fifo, delim: Byte)
    requires var a := FifoRead(v, 1).1; a.err.Some? || a.bytes == [delim]
    ensures TakesUntil(v, delim, ReadUntil(Plain(v), delim))
  {
    PullProgress(Plain(v), 1);
    ReadTakesLead(v, 1);
  }

  // ---------------------------------------------------------------- the loops on the encrypted stream

  /** A read makes the key if there is something to open. */
  lemma ReadMakesKey(cr: Primitives, rng: Random, s: Stream, n: nat)
    ensures var s' := Read(cr, rng, s, n).0; s'.key.Some? <==> s.key.Some? || s.queue != []
    ensures var s' := Next(cr, rng, s).0; s'.key.Some? <==> s.key.Some? || s.queue != []
  {
  }

  /** The loop cannot tell the encrypted stream from the plain queue. */
  lemma {:induction false} EntireRefines(
      cr: Primitives, rng: Random, s: Stream, v: Fifo, lost: set<Block>, read: nat, page: nat)
    requires Lawful(cr) && Holds(cr, s, v, lost) && FreshKey(cr, s, rng, lost) && page >= 1
    ensures var (o, q) := (ReadEntire(Encrypted(cr, rng, s), read, page), ReadEntire(Plain(v), read, page));
            && o.bytes == q.bytes && o.err == q.err && q.src.Plain?
            && o.src.Encrypted? && o.src == Encrypted(cr, rng, o.src.s) && Holds(cr, o.src.s, q.src.v, lost)
            && (o.src.s.key.Some? <==> s.key.Some? || s.queue != [])
    decreases QueueWeight(s.queue)
  {
    hide Room, Holds, FreshKey, Read, FifoRead, Lawful;
    RoomIsPositive(read, page);
    var n := Room(read, page);
    PullProgress(Encrypted(cr, rng, s), n);
    PullProgress(Plain(v), n);
    ReadRefines(cr, rng, s, v, lost, n);
    ReadMakesKey(cr, rng, s, n);
    var (s', a) := Read(cr, rng, s, n);
    if a.err.None? {
      EntireRefines(cr, rng, s', FifoRead(v, n).0, lost, read + |a.bytes|, page);
    }
  }

  lemma {:induction false} UntilRefines(cr: Primitives, rng: Random, s: Stream, v: Fifo, lost: set<Block>, delim: Byte)
    requires Lawful(cr) && Holds(cr, s, v, lost) && FreshKey(cr, s, rng, lost)
    ensures var (o, q) := (ReadUntil(Encrypted(cr, rng, s), delim), ReadUntil(Plain(v), delim));
            && o.bytes == q.bytes && o.err == q.err && q.src.Plain?
            && o.src.Encrypted? && o.src == Encrypted(cr, rng, o.src.s) && Holds(cr, o.src.s, q.src.v, lost)
            && (o.src.s.key.Some? <==> s.key.Some? || s.queue != [])
    decreases QueueWeight(s.queue)
  {
    hide Holds, FreshKey, Read, FifoRead, Lawful;
    PullProgress(Encrypted(cr, rng, s), 1);
    PullProgress(Plain(v), 1);
    ReadRefines(cr, rng, s, v, lost, 1);
    ReadMakesKey(cr, rng, s, 1);
    var (s', a) := Read(cr, rng, s, 1);
    if |a.bytes| == 1 || a.err.None? {
      UntilRefines(cr, rng, s', FifoRead(v, 1).0, lost, delim);
    }
  }

  /**
   * `Flush`, whatever the page size and however the chunks are split on the way: the readable bytes in front of
   * the first chunk from a purged epoch, its error, and all later chunks still queued.
   */
  lemma FlushLaw(cr: Primitives, rng: Random, s: Stream, v: Fifo, lost: set<Block>, page: nat)
    requires Lawful(cr) && Holds(cr, s, v, lost) && FreshKey(cr, s, rng, lost) && page >= 1
    ensures var o := ReadEntire(Encrypted(cr, rng, s), 0, page);
            && o.src.Encrypted? && o.bytes == Lead(v)
            && if Tail(v) == [] then o.err == None && o.src.s.queue == []
               else o.err == Some(Broken(DecryptionFailed)) && Holds(cr, o.src.s, Tail(v)[1..], lost)
  {
    EntireRefines(cr, rng, s, v, lost, 0, page);
    EntireOfPlain(v, 0, page);
  }

  /**
   * Reading a stream until a delimiter: the bytes before the first one are returned and exactly the bytes behind
   * it stay queued; if the readable chunks hold none, they are returned with the error that ended them.
   */
  lemma UntilLaw(cr: Primitives, rng: Random, s: Stream, v: Fifo, lost: set<Block>, delim: Byte)
    requires Lawful(cr) && Holds(cr, s, v, lost) && FreshKey(cr, s, rng, lost)
    ensures var o := ReadUntil(Encrypted(cr, rng, s), delim);
            && o.src.Encrypted? && delim !in o.bytes
            && (o.err == None <==> delim in Lead(v))
            && exists v' :: Holds(cr, o.src.s, v', lost) &&
                 if o.err == None then Lead(v) == o.bytes + [delim] + Lead(v') && Tail(v') == Tail(v)
                 else o.bytes == Lead(v) && v' == if Tail(v) == [] then [] else Tail(v)[1..]
  {
    hide Holds, FreshKey, Lawful, Lead, Tail;
    UntilRefines(cr, rng, s, v, lost, delim);
    UntilOfPlain(v, delim);
    var v' := ReadUntil(Plain(v), delim).src.v;
    assert Holds(cr, ReadUntil(Encrypted(cr, rng, s), delim).src.s, v', lost);
  }

  // ---------------------------------------------------------------- runs

  datatype Op =
    | OpWrite(data: Bytes)
    | OpRead(n: nat)
    | OpNext
    | OpFlush
    | OpUntil(delim: Byte)
    | OpRekey(mask: Block)
    | OpPurge(resists: bool)  // whether both partitions of the key resist their destruction

  /** An operation with the random bytes it draws. */
  datatype Event = Event(op: Op, rng: Random)

  /** The page size and the chunk size; the library uses chunks of four pages. */
  datatype Config = Config(page: nat, chunk: nat) {
    predicate Valid() { page >= 1 && chunk >= 1 }
  }

  const NOTHING := Answer([], None)

  /** The stream, and whether the session key has resisted a purge, after which no purge meets it again. */
  datatype State = State(s: Stream, stuck: bool)

  /** A purge meets the key: it is there, and on the list. */
  predicate Met(w: State) { w.s.key.Some? && !w.stuck }

  function Purged(w: State, resists: bool): State {
    if !Met(w) then w else State(w.s.(key := if resists then Some(WIPED) else None), resists)
  }

  /** The stream and its session; `Flush` and `Until` are the reader loops run over the stream. */
  function Step(cr: Primitives, cfg: Config, w: State, ev: Event): (State, Answer)
    requires Lawful(cr) && cfg.Valid()
  {
    var s := w.s;
    match ev.op
    case OpWrite(data) => (w.(s := Write(cr, ev.rng, s, data, cfg.chunk)), NOTHING)
    case OpRead(n) => var (s', a) := Read(cr, ev.rng, s, n); (w.(s := s'), a)
    case OpNext => var (s', a) := Next(cr, ev.rng, s); (w.(s := s'), a)
    case OpFlush =>
      var o := ReadEntire(Encrypted(cr, ev.rng, s), 0, cfg.page);
      (w.(s := if o.src.Encrypted? then o.src.s else s), Answer(o.bytes, o.err))
    case OpUntil(delim) =>
      var o := ReadUntil(Encrypted(cr, ev.rng, s), delim);
      (w.(s := if o.src.Encrypted? then o.src.s else s), Answer(o.bytes, o.err))
    case OpRekey(mask) =>
      (if s.key.Some? then w.(s := s.(key := Some(Resplit(cr, s.key.value, mask)))) else w, NOTHING)
    case OpPurge(resists) => (Purged(w, resists), NOTHING)
  }

  function Lives(chunks: seq<Bytes>): Fifo {
    seq(|chunks|, i requires 0 <= i < |chunks| => Live(chunks[i]))
  }

  /** Every chunk becomes unreadable. */
  function Lose(v: Fifo): Fifo {
    seq(|v|, i requires 0 <= i < |v| => Lost(v[i].bytes))
  }

  /** The plain queue, whether a key has been made for it, and whether that key has resisted a purge. */
  datatype Queue = Queue(v: Fifo, keyed: bool, stuck: bool)

  /** The chunks after an operation other than a purge: no keys, no pages, no re-encryption. */
  function PlainStep(v: Fifo, chunk: nat, op: Op): (Fifo, Answer)
    requires chunk >= 1
  {
    match op
    case OpWrite(data) => (v + Lives(Chunks(data, chunk)), NOTHING)
    case OpRead(n) => FifoRead(v, n)
    case OpNext => FifoRead(v, if v != [] && v[0].Live? then |v[0].bytes| else 0)
    case OpFlush =>
      if Tail(v) == [] then ([], Answer(Lead(v), None))
      else (Tail(v)[1..], Answer(Lead(v), Some(Broken(DecryptionFailed))))
    case OpUntil(delim) =>
      var o := ReadUntil(Plain(v), delim);
      (if o.src.Plain? then o.src.v else v, Answer(o.bytes, o.err))
    case _ => (v, NOTHING)
  }

  /** Whether the operation needs the key, and so makes one if there is none. */
  predicate Uses(v: Fifo, op: Op) {
    match op
    case OpWrite(data) => data != []
    case OpRekey(_) => false
    case OpPurge(_) => false
    case _ => v != []
  }

  /** The same operations on a queue of byte strings that a purge makes unreadable, unless its key is stuck. */
  function FifoStep(q: Queue, chunk: nat, op: Op): (Queue, Answer)
    requires chunk >= 1
  {
    if op.OpPurge? then
      (if q.stuck then q else Queue(Lose(q.v), q.keyed && op.resists, q.keyed && op.resists), NOTHING)
    else
      var (v, a) := PlainStep(q.v, chunk, op);
      (Queue(v, q.keyed || Uses(q.v, op), q.stuck), a)
  }

  /** The keys that are gone for good after the operation. */
  function LostAfter(cr: Primitives, w: State, lost: set<Block>, op: Op): set<Block> {
    if op.OpPurge? && Met(w) then lost + {Value(cr, w.s.key.value)} else lost
  }

  /** The key that the operation makes, or leaves wiped, is not confused with a lost one. */
  ghost predicate FreshEvent(cr: Primitives, w: State, ev: Event, lost: set<Block>) {
    if ev.op.OpPurge? then
      Met(w) && ev.op.resists ==> forall k :: k in LostAfter(cr, w, lost, ev.op) ==> Separates(cr, k, Value(cr, WIPED))
    else FreshKey(cr, w.s, ev.rng, lost)
  }

  /** The stream holds what is in the queue, under the same circumstances. */
  ghost predicate Matches(cr: Primitives, w: State, q: Queue, lost: set<Block>) {
    Holds(cr, w.s, q.v, lost) && q.keyed == w.s.key.Some? && q.stuck == w.stuck && (w.stuck ==> q.keyed)
  }

  lemma WriteRefines(cr: Primitives, rng: Random, s: Stream, v: Fifo, lost: set<Block>, data: Bytes, c: nat)
    requires Lawful(cr) && Holds(cr, s, v, lost) && FreshKey(cr, s, rng, lost) && c >= 1
    ensures var s' := Write(cr, rng, s, data, c);
            Holds(cr, s', v + Lives(Chunks(data, c)), lost) && (s'.key.Some? <==> s.key.Some? || data != [])
  {
    var chunks := Chunks(data, c);
    if data == [] {
      assert v + Lives(chunks) == v;
    } else {
      EnsureHolds(cr, rng, s, v, lost);
      ChunksPartition(data, c);
      assert forall p :: p in chunks ==> p != [];
      var key := Ensure(cr, s.key, rng.scrambled);
      SealedHolds(cr, rng, s.(key := Some(key)), v, lost, chunks);
    }
  }

  /** Sealing more chunks under the live key appends them to the plain queue. */
  lemma SealedHolds(cr: Primitives, rng: Random, s: Stream, v: Fifo, lost: set<Block>, chunks: seq<Bytes>)
    requires Holds(cr, s, v, lost) && s.key.Some? && forall p :: p in chunks ==> p != []
    ensures Holds(cr, Stream(s.key, s.queue + SealAll(cr, s.key.value, rng.nonces, s.drawn, chunks), s.drawn + |chunks|),
                  v + Lives(chunks), lost)
  {
    hide Chunks, Value, Separates;
    var more := SealAll(cr, s.key.value, rng.nonces, s.drawn, chunks);
    forall j | 0 <= j < |chunks|
      ensures HoldsAt(cr, s.key, more[j], Lives(chunks)[j], lost)
    {
      var nonce := rng.nonces(s.drawn + j);
      assert more[j] == Enclave(nonce + cr.seal(Value(cr, s.key.value), nonce, chunks[j]));
      assert chunks[j] in chunks;
    }
    var queue, v' := s.queue + more, v + Lives(chunks);
    forall i | 0 <= i < |v'|
      ensures HoldsAt(cr, s.key, queue[i], v'[i], lost)
    {
      if i < |v| {
        assert queue[i] == s.queue[i] && v'[i] == v[i];
      } else {
        assert queue[i] == more[i - |v|] && v'[i] == Lives(chunks)[i - |v|];
      }
    }
  }

  lemma NextIsRead(cr: Primitives, rng: Random, s: Stream, v: Fifo, lost: set<Block>)
    requires Lawful(cr) && Holds(cr, s, v, lost) && FreshKey(cr, s, rng, lost)
    ensures var n := if v != [] && v[0].Live? then |v[0].bytes| else 0;
            Next(cr, rng, s) == Read(cr, rng, s, n)
  {
    if v != [] {
      EnsureHolds(cr, rng, s, v, lost);
      var key := Ensure(cr, s.key, rng.scrambled);
      assert HoldsAt(cr, Some(key), s.queue[0], v[0], lost);
      if v[0].Live? {
        OpenHeld(cr, key, s.queue[0], v[0].bytes);
      } else {
        OpenLost(cr, key, s.queue[0], v[0].bytes, lost);
      }
    }
  }

  /** When the key is lost, whatever it becomes, every chunk is. */
  lemma LoseHolds(cr: Primitives, s: Stream, v: Fifo, lost: set<Block>, key: Key)
    requires Holds(cr, s, v, lost)
    requires var lost' := if s.key.Some? then lost + {Value(cr, s.key.value)} else lost;
             key.Some? ==> forall k :: k in lost' ==> Separates(cr, k, Value(cr, key.value))
    ensures var lost' := if s.key.Some? then lost + {Value(cr, s.key.value)} else lost;
            Holds(cr, s.(key := key), Lose(v), lost')
  {
    hide Value, Separates;
    var lost' := if s.key.Some? then lost + {Value(cr, s.key.value)} else lost;
    forall i | 0 <= i < |v|
      ensures HoldsAt(cr, key, s.queue[i], Lost(v[i].bytes), lost')
    {
      assert HoldsAt(cr, s.key, s.queue[i], v[i], lost);
      if v[i].Live? {
        assert Value(cr, s.key.value) in lost' && SealedBy(cr, s.queue[i], Value(cr, s.key.value), v[i].bytes);
      } else {
        var k :| k in lost && SealedBy(cr, s.queue[i], k, v[i].bytes);
        assert k in lost';
      }
    }
  }

  lemma PurgeRefines(cr: Primitives, w: State, q: Queue, lost: set<Block>, ev: Event)
    requires Matches(cr, w, q, lost) && ev.op.OpPurge? && FreshEvent(cr, w, ev, lost)
    ensures Matches(cr, Purged(w, ev.op.resists), FifoStep(q, 1, ev.op).0, LostAfter(cr, w, lost, ev.op))
  {
    hide Value, Separates, Holds;
    if !w.stuck {
      LoseHolds(cr, w.s, q.v, lost, if w.s.key.Some? && ev.op.resists then Some(WIPED) else None);
      assert w.s.key.None? ==> w.s.(key := None) == w.s;
    }
  }

  lemma RekeyRefines(cr: Primitives, s: Stream, v: Fifo, lost: set<Block>, mask: Block)
    requires Holds(cr, s, v, lost) && s.key.Some?
    ensures Holds(cr, s.(key := Some(Resplit(cr, s.key.value, mask))), v, lost)
  {
    ResplitValue(cr, s.key.value, mask);
    forall i | 0 <= i < |v|
      ensures HoldsAt(cr, Some(Resplit(cr, s.key.value, mask)), s.queue[i], v[i], lost)
    {
      assert HoldsAt(cr, s.key, s.queue[i], v[i], lost);
    }
  }

  lemma SameLength(cr: Primitives, s: Stream, v: Fifo, lost: set<Block>)
    requires Holds(cr, s, v, lost)
    ensures |s.queue| == |v|
  {
  }

  lemma StepRefines(cr: Primitives, cfg: Config, w: State, q: Queue, lost: set<Block>, ev: Event)
    requires Lawful(cr) && cfg.Valid() && Matches(cr, w, q, lost) && FreshEvent(cr, w, ev, lost)
    ensures var ((w', a), (q', b)) := (Step(cr, cfg, w, ev), FifoStep(q, cfg.chunk, ev.op));
            a == b && Matches(cr, w', q', LostAfter(cr, w, lost, ev.op))
  {
    hide Holds, FreshKey, Lawful, Write, FifoRead, Read, ReadEntire, ReadUntil, Next, Resplit, Value, Lose;
    var s, v := w.s, q.v;
    SameLength(cr, s, v, lost);
    match ev.op
    case OpWrite(data) => WriteRefines(cr, ev.rng, s, v, lost, data, cfg.chunk);
    case OpRead(n) =>
      ReadRefines(cr, ev.rng, s, v, lost, n);
      ReadMakesKey(cr, ev.rng, s, n);
    case OpNext =>
      var n := if v != [] && v[0].Live? then |v[0].bytes| else 0;
      NextIsRead(cr, ev.rng, s, v, lost);
      ReadRefines(cr, ev.rng, s, v, lost, n);
      ReadMakesKey(cr, ev.rng, s, n);
    case OpFlush =>
      EntireRefines(cr, ev.rng, s, v, lost, 0, cfg.page);
      EntireOfPlain(v, 0, cfg.page);
    case OpUntil(delim) => UntilRefines(cr, ev.rng, s, v, lost, delim);
    case OpRekey(mask) => if s.key.Some? { RekeyRefines(cr, s, v, lost, mask); }
    case OpPurge(_) => PurgeRefines(cr, w, q, lost, ev);
  }

  /** The answers of a run, in order. */
  function Answers(cr: Primitives, cfg: Config, w: State, run: seq<Event>): (answers: seq<Answer>)
    requires Lawful(cr) && cfg.Valid()
    ensures |answers| == |run|
    decreases |run|
  {
    if run == [] then []
    else
      var (w', a) := Step(cr, cfg, w, run[0]);
      [a] + Answers(cr, cfg, w', run[1..])
  }

  function FifoAnswers(q: Queue, chunk: nat, run: seq<Event>): (answers: seq<Answer>)
    requires chunk >= 1
    ensures |answers| == |run|
    decreases |run|
  {
    if run == [] then []
    else
      var (q', a) := FifoStep(q, chunk, run[0].op);
      [a] + FifoAnswers(q', chunk, run[1..])
  }

  /** The stream after a run. */
  function Final(cr: Primitives, cfg: Config, w: State, run: seq<Event>): State
    requires Lawful(cr) && cfg.Valid()
    decreases |run|
  {
    if run == [] then w else Final(cr, cfg, Step(cr, cfg, w, run[0]).0, run[1..])
  }

  function FifoFinal(q: Queue, chunk: nat, run: seq<Event>): Queue
    requires chunk >= 1
    decreases |run|
  {
    if run == [] then q else FifoFinal(FifoStep(q, chunk, run[0].op).0, chunk, run[1..])
  }

  /** Each key that the run makes, or leaves wiped, is separated from every key it lost before. */
  ghost predicate FreshKeys(cr: Primitives, cfg: Config, w: State, lost: set<Block>, run: seq<Event>)
    requires Lawful(cr) && cfg.Valid()
    decreases |run|
  {
    run != [] ==>
      && FreshEvent(cr, w, run[0], lost)
      && FreshKeys(cr, cfg, Step(cr, cfg, w, run[0]).0, LostAfter(cr, w, lost, run[0].op), run[1..])
  }

  /**
   * The stream refines the plain queue: over any run of writes, reads, flushes, rekeys and purges, resisted ones
   * included, and for any random bytes, page size and chunk size, it gives the same answers as a queue of byte
   * strings that a purge makes unreadable.
   */
  lemma {:induction false} StreamRefinesFifo(
      cr: Primitives, cfg: Config, w: State, q: Queue, lost: set<Block>, run: seq<Event>)
    requires Lawful(cr) && cfg.Valid() && Matches(cr, w, q, lost) && FreshKeys(cr, cfg, w, lost, run)
    ensures Answers(cr, cfg, w, run) == FifoAnswers(q, cfg.chunk, run)
    ensures exists lost' :: Matches(cr, Final(cr, cfg, w, run), FifoFinal(q, cfg.chunk, run), lost')
    decreases |run|
  {
    hide Matches, FreshEvent, Lawful, Step, FifoStep;
    if run == [] {
      assert Matches(cr, Final(cr, cfg, w, run), FifoFinal(q, cfg.chunk, run), lost);
    } else {
      StepRefines(cr, cfg, w, q, lost, run[0]);
      var w', q' := Step(cr, cfg, w, run[0]).0, FifoStep(q, cfg.chunk, run[0].op).0;
      StreamRefinesFifo(cr, cfg, w', q', LostAfter(cr, w, lost, run[0].op), run[1..]);
      var lost' :| Matches(cr, Final(cr, cfg, w', run[1..]), FifoFinal(q', cfg.chunk, run[1..]), lost');
      assert Matches(cr, Final(cr, cfg, w, run), FifoFinal(q, cfg.chunk, run), lost');
    }
  }
}
