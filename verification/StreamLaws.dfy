/** What runs of a stream conserve: the bytes in their order, and the size. */
module StreamLaws {
  import opened Bytes
  import opened Crypto
  import opened ReaderSpec
  import opened SessionSpec
  import opened StreamSpec
  import opened StreamRuns

  type Op = StreamRuns.Op

  // ---------------------------------------------------------------- conservation over every run

  /** All bytes of the queue, readable or not. */
  function All(v: Fifo): Bytes {
    if v == [] then [] else v[0].bytes + All(v[1..])
  }

  /** The readable bytes, wherever they are. */
  function LiveBytes(v: Fifo): Bytes {
    if v == [] then [] else (if v[0].Live? then v[0].bytes else []) + LiveBytes(v[1..])
  }

  /** The bytes that an operation takes out of the stream: those it returns, and the delimiter that it swallows. */
  function Taken(op: Op, a: Answer): Bytes {
    a.bytes + if op.OpUntil? && a.err.None? then [op.delim] else []
  }

  /** The bytes of the lost chunk that an operation reports and drops. */
  function Dropped(v: Fifo, a: Answer): Bytes {
    if a.err == Some(Broken(DecryptionFailed)) && Tail(v) != [] then Tail(v)[0].bytes else []
  }

  function AllTaken(run: seq<Event>, answers: seq<Answer>): Bytes
    requires |run| == |answers|
  {
    if run == [] then [] else Taken(run[0].op, answers[0]) + AllTaken(run[1..], answers[1..])
  }

  /** All that has left the queue, taken or dropped, in order. */
  function Removed(q: Queue, chunk: nat, run: seq<Event>): Bytes
    requires chunk >= 1
    decreases |run|
  {
    if run == [] then []
    else
      var (q', a) := FifoStep(q, chunk, run[0].op);
      (Taken(run[0].op, a) + Dropped(q.v, a)) + Removed(q', chunk, run[1..])
  }

  /** How many bytes were dropped unread. */
  function DroppedCount(q: Queue, chunk: nat, run: seq<Event>): nat
    requires chunk >= 1
    decreases |run|
  {
    if run == [] then 0
    else
      var (q', a) := FifoStep(q, chunk, run[0].op);
      |Dropped(q.v, a)| + DroppedCount(q', chunk, run[1..])
  }

  function Written(run: seq<Event>): Bytes {
    if run == [] then [] else (if run[0].op.OpWrite? then run[0].op.data else []) + Written(run[1..])
  }

  lemma AllCons(c: Chunk, v: Fifo)
    ensures All([c] + v) == c.bytes + All(v) && All([]) == []
  {
    assert ([c] + v)[1..] == v;
  }

  /** The queue is its readable beginning and the rest from the first lost chunk on. */
  lemma {:induction false} AllSplits(v: Fifo)
    ensures All(v) == Lead(v) + All(Tail(v)) && (Tail(v) != [] ==> Tail(v)[0].Lost?)
  {
    if v != [] && v[0].Live? {
      AllSplits(v[1..]);
      assert v[0].bytes + (Lead(v[1..]) + All(Tail(v[1..]))) == (v[0].bytes + Lead(v[1..])) + All(Tail(v[1..]));
    }
  }

  lemma {:induction false} AllOfLives(v: Fifo, chunks: seq<Bytes>)
    ensures All(v + Lives(chunks)) == All(v) + Flat(chunks)
    decreases |v| + |chunks|
  {
    hide All, Flat;
    if v != [] {
      AllOfLives(v[1..], chunks);
      AllCons(v[0], v[1..] + Lives(chunks));
      AllCons(v[0], v[1..]);
      assert v == [v[0]] + v[1..] && v + Lives(chunks) == [v[0]] + (v[1..] + Lives(chunks));
    } else if chunks != [] {
      AllOfLives([], chunks[1..]);
      AllCons(Live(chunks[0]), Lives(chunks[1..]));
      FlatCons(chunks[0], chunks[1..]);
      assert chunks == [chunks[0]] + chunks[1..] && Lives(chunks) == [Live(chunks[0])] + Lives(chunks[1..]);
      assert v + Lives(chunks) == Lives(chunks) && [] + Lives(chunks[1..]) == Lives(chunks[1..]);
    } else {
      AllCons(Live([]), []);
      FlatCons([], []);
      assert v + Lives(chunks) == [];
    }
  }

  lemma {:induction false} AllOfLose(v: Fifo)
    ensures All(Lose(v)) == All(v)
  {
    if v != [] {
      AllOfLose(v[1..]);
      assert Lose(v)[1..] == Lose(v[1..]);
    }
  }

  /** Dropping the first lost chunk drops its bytes behind the readable ones. */
  lemma TailConserves(v: Fifo)
    requires Tail(v) != []
    ensures (Lead(v) + Tail(v)[0].bytes) + All(Tail(v)[1..]) == All(v)
  {
    hide Lead, Tail, All;
    AllSplits(v);
    var t := Tail(v);
    AllCons(t[0], t[1..]);
    assert t == [t[0]] + t[1..];
  }

  /** Bytes taken from the readable beginning leave the others in place. */
  lemma LeadConserves(v: Fifo, x: Bytes, v': Fifo)
    requires (Lead(v) == x + Lead(v') && Tail(v) == Tail(v')) || (Tail(v) == [] == v' && x == Lead(v))
    ensures (x + []) + All(v') == All(v) && x + All(v') == All(v)
  {
    AllSplits(v);
    AllSplits(v');
    AllCons(Live([]), []);
    hide Lead, Tail, All;
    assert x + [] == x && Lead(v) + [] == Lead(v);
    assert x + (Lead(v') + All(Tail(v'))) == (x + Lead(v')) + All(Tail(v'));
  }

  /** What leaves the queue, followed by what stays, is what was there, followed by what is written. */
  ghost predicate Conserved(v: Fifo, op: Op, a: Answer, v': Fifo) {
    (Taken(op, a) + Dropped(v, a)) + All(v') == All(v) + (if op.OpWrite? then op.data else [])
  }

  lemma ReadConserves(v: Fifo, n: nat, op: Op)
    requires op.OpRead? || op.OpNext?
    ensures var (v', a) := FifoRead(v, n); Conserved(v, op, a, v')
  {
    hide Lead, All, FifoRead;
    var (v', a) := FifoRead(v, n);
    ReadTakesLead(v, n);
    assert a.bytes + [] == a.bytes && All(v) + [] == All(v);
    if v != [] && v[0].Live? {
      LeadConserves(v, a.bytes, v');
    } else if v != [] {
      AllCons(v[0], v[1..]);
      assert v == [v[0]] + v[1..];
    }
  }

  lemma UntilConserves(v: Fifo, delim: Byte)
    ensures var (v', a) := PlainStep(v, 1, OpUntil(delim)); Conserved(v, OpUntil(delim), a, v')
  {
    hide ReadUntil, Lead, Tail, All;
    var (v', a) := PlainStep(v, 1, OpUntil(delim));
    UntilOfPlain(v, delim);
    assert a.bytes + [] == a.bytes && All(v) + [] == All(v);
    if a.err == None {
      LeadConserves(v, a.bytes + [delim], v');
    } else if Tail(v) == [] {
      LeadConserves(v, Lead(v), []);
    } else {
      TailConserves(v);
    }
  }

  lemma FlushConserves(v: Fifo)
    ensures var (v', a) := PlainStep(v, 1, OpFlush); Conserved(v, OpFlush, a, v')
  {
    hide Lead, Tail, All;
    assert Lead(v) + [] == Lead(v) && All(v) + [] == All(v);
    if Tail(v) == [] {
      LeadConserves(v, Lead(v), []);
    } else {
      TailConserves(v);
    }
  }

  lemma WriteConserves(v: Fifo, chunk: nat, data: Bytes)
    requires chunk >= 1
    ensures Conserved(v, OpWrite(data), NOTHING, v + Lives(Chunks(data, chunk)))
  {
    hide All, Lives, Chunks;
    AllOfLives(v, Chunks(data, chunk));
    ChunksPartition(data, chunk);
  }

  lemma IdleConserves(v: Fifo, op: Op)
    requires op.OpRekey? || op.OpPurge?
    ensures Conserved(v, op, NOTHING, v) && Conserved(v, op, NOTHING, Lose(v))
  {
    hide All, Lose;
    AllOfLose(v);
  }

  lemma StepConserves(q: Queue, chunk: nat, op: Op)
    requires chunk >= 1
    ensures var (q', a) := FifoStep(q, chunk, op); Conserved(q.v, op, a, q'.v)
  {
    hide ReadUntil, FifoRead, Chunks, Lose, Lives, Conserved, Lead, Tail;
    var v := q.v;
    match op
    case OpWrite(data) => WriteConserves(v, chunk, data);
    case OpRead(n) => ReadConserves(v, n, op);
    case OpNext => ReadConserves(v, if v != [] && v[0].Live? then |v[0].bytes| else 0, op);
    case OpFlush => FlushConserves(v);
    case OpUntil(delim) => UntilConserves(v, delim);
    case _ => IdleConserves(v, op);
  }

  lemma {:induction false} FifoConserves(q: Queue, chunk: nat, run: seq<Event>)
    requires chunk >= 1
    ensures Removed(q, chunk, run) + All(FifoFinal(q, chunk, run).v) == All(q.v) + Written(run)
    ensures |Removed(q, chunk, run)| == |AllTaken(run, FifoAnswers(q, chunk, run))| + DroppedCount(q, chunk, run)
    decreases |run|
  {
    hide FifoStep, All, Taken, Dropped;
    if run != [] {
      var (q', a) := FifoStep(q, chunk, run[0].op);
      StepConserves(q, chunk, run[0].op);
      FifoConserves(q', chunk, run[1..]);
      assert FifoAnswers(q, chunk, run)[1..] == FifoAnswers(q', chunk, run[1..]);
      Regroup(Taken(run[0].op, a) + Dropped(q.v, a), Removed(q', chunk, run[1..]), All(FifoFinal(q', chunk, run[1..]).v),
              All(q'.v), All(q.v), if run[0].op.OpWrite? then run[0].op.data else [], Written(run[1..]));
    }
  }

  lemma Regroup(a: Bytes, r: Bytes, f: Bytes, l': Bytes, l: Bytes, now: Bytes, w: Bytes)
    requires r + f == l' + w && a + l' == l + now
    ensures (a + r) + f == l + (now + w)
  {
    assert (a + r) + f == a + (r + f);
    assert a + (l' + w) == (a + l') + w;
    assert (l + now) + w == l + (now + w);
  }

  /** What the queue decrypts to under the session key; chunks that do not open are skipped. */
  function Decoded(cr: Primitives, key: Key, queue: seq<Enclave>): Bytes {
    if queue == [] || key.None? then []
    else
      var r := OpenWith(cr, key.value, queue[0]);
      (if r.Ok? then r.value else []) + Decoded(cr, key, queue[1..])
  }

  /** `Size` counts every queued byte, and the session key opens exactly the readable ones. */
  lemma {:induction false} DecodedIsLive(cr: Primitives, s: Stream, v: Fifo, lost: set<Block>)
    requires Lawful(cr) && Holds(cr, s, v, lost)
    ensures Decoded(cr, s.key, s.queue) == LiveBytes(v) && Total(s.queue) == |All(v)|
    decreases |v|
  {
    if v != [] {
      hide Separates, Value, OpenWith;
      var rest := s.(queue := s.queue[1..]);
      assert HoldsAt(cr, s.key, s.queue[0], v[0], lost);
      SizeHeld(cr, s.key, s.queue[0], v[0], lost);
      if v[0].Live? {
        OpenHeld(cr, s.key.value, s.queue[0], v[0].bytes);
      } else if s.key.Some? {
        OpenLost(cr, s.key.value, s.queue[0], v[0].bytes, lost);
      }
      assert forall i :: 0 <= i < |v[1..]| ==> HoldsAt(cr, s.key, rest.queue[i], v[1..][i], lost);
      DecodedIsLive(cr, rest, v[1..], lost);
    }
  }

  /** A stream that nothing has been written to. */
  function New(key: Key, stuck: bool, drawn: nat): State {
    State(Stream(key, [], drawn), stuck)
  }

  /**
   * Conservation over every run of a new stream, purges and resisted purges included: what has left the stream, taken
   * or dropped unread, followed by what is queued, is what was written, in order. `Size` counts all queued bytes, of
   * stale chunks too, and the session key opens exactly the readable ones.
   */
  lemma StreamConserves(cr: Primitives, cfg: Config, key: Key, stuck: bool, drawn: nat, run: seq<Event>)
    requires Lawful(cr) && cfg.Valid() && (stuck ==> key.Some?) && FreshKeys(cr, cfg, New(key, stuck, drawn), {}, run)
    ensures var w, q := New(key, stuck, drawn), Queue([], key.Some?, stuck);
            var (end, rest) := (Final(cr, cfg, w, run).s, FifoFinal(q, cfg.chunk, run).v);
            && Removed(q, cfg.chunk, run) + All(rest) == Written(run)
            && Decoded(cr, end.key, end.queue) == LiveBytes(rest)
            && Total(end.queue) == |All(rest)|
            && |Written(run)| ==
                 |AllTaken(run, Answers(cr, cfg, w, run))| + DroppedCount(q, cfg.chunk, run) + Total(end.queue)
  {
    hide StreamRuns.Step, FifoStep, FreshKeys, Lawful;
    var w, q := New(key, stuck, drawn), Queue([], key.Some?, stuck);
    assert Matches(cr, w, q, {});
    StreamRefinesFifo(cr, cfg, w, q, {}, run);
    FifoConserves(q, cfg.chunk, run);
    var lost :| Matches(cr, Final(cr, cfg, w, run), FifoFinal(q, cfg.chunk, run), lost);
    DecodedIsLive(cr, Final(cr, cfg, w, run).s, FifoFinal(q, cfg.chunk, run).v, lost);
  }

  // ---------------------------------------------------------------- the size, whatever the keys

  /** The size of the chunk that a failed pull drops. */
  function PullDrops(src: Source, n: nat): int {
    var err := Pull(src, n).1.err;
    if src.Encrypted? && src.s.queue != [] && err.Some? then Size(src.s.queue[0]) else 0
  }

  /** The same for the two loops. */
  function EntireDrops(src: Source, read: nat, page: nat): int
    requires Sane(src) && page >= 1
    decreases Weight(src)
  {
    RoomIsPositive(read, page);
    PullProgress(src, Room(read, page));
    var (src', a) := Pull(src, Room(read, page));
    PullDrops(src, Room(read, page)) + if a.err.Some? then 0 else EntireDrops(src', read + |a.bytes|, page)
  }

  function UntilDrops(src: Source, delim: Byte): int
    requires Sane(src)
    decreases Weight(src)
  {
    PullProgress(src, 1);
    var (src', a) := Pull(src, 1);
    PullDrops(src, 1) + if (a.bytes == [] && a.err.Some?) || a.bytes == [delim] then 0 else UntilDrops(src', delim)
  }

  function SourceTotal(src: Source): int {
    if src.Encrypted? then Total(src.s.queue) else 0
  }

  lemma TotalCons(e: Enclave, queue: seq<Enclave>)
    ensures Total([e] + queue) == Size(e) + Total(queue)
  {
    assert ([e] + queue)[1..] == queue;
  }

  /** One pull takes from the size what it delivers and what it drops. */
  lemma PullTotal(src: Source, n: nat)
    requires Sane(src) && src.Encrypted?
    ensures var (src', a) := Pull(src, n);
            src'.Encrypted? && SourceTotal(src') + |a.bytes| + PullDrops(src, n) == SourceTotal(src)
  {
    var Encrypted(cr, rng, s) := src;
    if s.queue != [] {
      hide Decrypt, Value, Ensure;
      TotalCons(s.queue[0], s.queue[1..]);
      assert s.queue == [s.queue[0]] + s.queue[1..];
      var key := Ensure(cr, s.key, rng.scrambled);
      var r := OpenWith(cr, key, s.queue[0]);
      if r.Ok? {
        OpenedSize(cr, key, s.queue[0]);
        if n < |r.value| {
          var left := SealWith(cr, key, rng.nonces(s.drawn), r.value[n..]);
          SealedSize(cr, key, rng.nonces(s.drawn), r.value[n..]);
          TotalCons(left, s.queue[1..]);
        }
      }
    }
  }

  lemma {:induction false} EntireTotal(src: Source, read: nat, page: nat)
    requires Sane(src) && src.Encrypted? && page >= 1
    ensures var o := ReadEntire(src, read, page);
            o.src.Encrypted? && SourceTotal(o.src) + |o.bytes| + EntireDrops(src, read, page) == SourceTotal(src)
    decreases Weight(src)
  {
    hide Pull, Weight, Sane, Room, PullDrops, SourceTotal;
    RoomIsPositive(read, page);
    PullProgress(src, Room(read, page));
    PullTotal(src, Room(read, page));
    var (src', a) := Pull(src, Room(read, page));
    if a.err.None? {
      EntireTotal(src', read + |a.bytes|, page);
    }
  }

  lemma {:induction false} UntilTotal(src: Source, delim: Byte)
    requires Sane(src) && src.Encrypted?
    ensures var o := ReadUntil(src, delim);
            && o.src.Encrypted?
            && SourceTotal(o.src) + |o.bytes| + (if o.err.None? then 1 else 0) + UntilDrops(src, delim) == SourceTotal(src)
    decreases Weight(src)
  {
    hide Pull, Weight, Sane, PullDrops, SourceTotal;
    PullProgress(src, 1);
    PullTotal(src, 1);
    var (src', a) := Pull(src, 1);
    assert |a.bytes| == 1 || a.bytes == [];
    if a.bytes != [delim] && (a.bytes != [] || a.err.None?) {
      UntilTotal(src', delim);
    }
  }

  /** The sizes of the chunks that an operation drops unread. */
  function EventDrops(cr: Primitives, cfg: Config, w: State, ev: Event): int
    requires Lawful(cr) && cfg.Valid()
  {
    var src := Encrypted(cr, ev.rng, w.s);
    match ev.op
    case OpRead(n) => PullDrops(src, n)
    case OpNext => if w.s.queue != [] && Next(cr, ev.rng, w.s).1.err.Some? then Size(w.s.queue[0]) else 0
    case OpFlush => EntireDrops(src, 0, cfg.page)
    case OpUntil(delim) => UntilDrops(src, delim)
    case _ => 0
  }

  lemma SealAllCons(cr: Primitives, key: Parts, nonces: nat -> Nonce, from: nat, p: Bytes, chunks: seq<Bytes>)
    ensures SealAll(cr, key, nonces, from, [p] + chunks) ==
            [SealWith(cr, key, nonces(from), p)] + SealAll(cr, key, nonces, from + 1, chunks)
  {
    hide SealWith;
  }

  lemma {:induction false} TotalOfSealed(cr: Primitives, key: Parts, nonces: nat -> Nonce, from: nat, chunks: seq<Bytes>)
    requires Lawful(cr) && forall i :: 0 <= i < |chunks| ==> chunks[i] != []
    ensures Total(SealAll(cr, key, nonces, from, chunks)) == |Flat(chunks)|
    decreases |chunks|
  {
    hide Total, Flat, SealWith, SealAll, Lawful, Size;
    if chunks == [] {
      TotalOfNothing();
      FlatCons([], []);
      NoneSealed(cr, key, nonces, from);
    } else {
      var p, rest := chunks[0], chunks[1..];
      assert chunks == [p] + rest;
      TotalOfSealed(cr, key, nonces, from + 1, rest);
      SealAllCons(cr, key, nonces, from, p, rest);
      TotalCons(SealWith(cr, key, nonces(from), p), SealAll(cr, key, nonces, from + 1, rest));
      FlatCons(p, rest);
      SealedSize(cr, key, nonces(from), p);
    }
  }

  lemma NoneSealed(cr: Primitives, key: Parts, nonces: nat -> Nonce, from: nat)
    ensures SealAll(cr, key, nonces, from, []) == []
  {
  }

  lemma {:induction false} TotalAppend(a: seq<Enclave>, b: seq<Enclave>)
    ensures Total(a + b) == Total(a) + Total(b)
  {
    hide Total;
    if a == [] {
      TotalOfNothing();
      assert a + b == b;
    } else {
      TotalAppend(a[1..], b);
      TotalCons(a[0], a[1..] + b);
      TotalCons(a[0], a[1..]);
      assert a == [a[0]] + a[1..] && a + b == [a[0]] + (a[1..] + b);
    }
  }

  lemma TotalOfNothing()
    ensures Total([]) == 0
  {
  }

  /** One operation changes the size by what it writes, takes and drops, whichever keys the chunks were sealed under. */
  lemma StepTotal(cr: Primitives, cfg: Config, w: State, ev: Event)
    requires Lawful(cr) && cfg.Valid()
    ensures var (w', a) := StreamRuns.Step(cr, cfg, w, ev);
            Total(w'.s.queue) + |Taken(ev.op, a)| + EventDrops(cr, cfg, w, ev) ==
            Total(w.s.queue) + if ev.op.OpWrite? then |ev.op.data| else 0
  {
    hide Read, Next, ReadEntire, ReadUntil, EntireDrops, UntilDrops, Lawful, Resplit, Chunks, Total, Flat;
    var s := w.s;
    var src := Encrypted(cr, ev.rng, s);
    match ev.op
    case OpWrite(data) =>
      ChunksPartition(data, cfg.chunk);
      if data != [] {
        var key, chunks := Ensure(cr, s.key, ev.rng.scrambled), Chunks(data, cfg.chunk);
        assert forall i :: 0 <= i < |chunks| ==> chunks[i] in chunks;
        TotalOfSealed(cr, key, ev.rng.nonces, s.drawn, chunks);
        TotalAppend(s.queue, SealAll(cr, key, ev.rng.nonces, s.drawn, chunks));
      }
    case OpRead(n) => PullTotal(src, n);
    case OpNext => NextTotal(cr, ev.rng, s);
    case OpFlush => EntireTotal(src, 0, cfg.page);
    case OpUntil(delim) => UntilTotal(src, delim);
    case _ =>
  }

  lemma NextTotal(cr: Primitives, rng: Random, s: Stream)
    requires Lawful(cr)
    ensures var (s', a) := Next(cr, rng, s);
            Total(s'.queue) + |a.bytes| + (if s.queue != [] && a.err.Some? then Size(s.queue[0]) else 0) == Total(s.queue)
  {
    if s.queue != [] {
      hide Decrypt, Value, Ensure;
      TotalCons(s.queue[0], s.queue[1..]);
      assert s.queue == [s.queue[0]] + s.queue[1..];
      var key := Ensure(cr, s.key, rng.scrambled);
      if OpenWith(cr, key, s.queue[0]).Ok? {
        OpenedSize(cr, key, s.queue[0]);
      }
    }
  }

  function AllDrops(cr: Primitives, cfg: Config, w: State, run: seq<Event>): int
    requires Lawful(cr) && cfg.Valid()
    decreases |run|
  {
    if run == [] then 0
    else EventDrops(cr, cfg, w, run[0]) + AllDrops(cr, cfg, StreamRuns.Step(cr, cfg, w, run[0]).0, run[1..])
  }

  /**
   * `Size` after any run from any stream, purges included and with no assumption about keys: the bytes there were and
   * the bytes written are the bytes taken, the chunks dropped unread, and the size.
   */
  lemma {:induction false} SizeLaw(cr: Primitives, cfg: Config, w: State, run: seq<Event>)
    requires Lawful(cr) && cfg.Valid()
    ensures Total(w.s.queue) + |Written(run)| ==
            |AllTaken(run, Answers(cr, cfg, w, run))| + AllDrops(cr, cfg, w, run) + Total(Final(cr, cfg, w, run).s.queue)
    decreases |run|
  {
    hide StreamRuns.Step, Taken, EventDrops, Total, Lawful;
    if run != [] {
      var (w', a) := StreamRuns.Step(cr, cfg, w, run[0]);
      StepTotal(cr, cfg, w, run[0]);
      SizeLaw(cr, cfg, w', run[1..]);
      assert Answers(cr, cfg, w, run)[1..] == Answers(cr, cfg, w', run[1..]);
    }
  }

  // ---------------------------------------------------------------- what each operation answers

  /** The answers of the plain queue in closed form, which the stream gives as well. */
  lemma PlainAnswers(v: Fifo, chunk: nat, op: Op)
    requires chunk >= 1
    ensures var (v', a) := PlainStep(v, chunk, op);
            match op
            case OpWrite(data) =>
              a == NOTHING && v <= v' && All(v') == All(v) + data && |v'| == |v| + (|data| + chunk - 1) / chunk
            case OpRead(n) =>
              if v == [] then a == Answer([], Some(EOF)) && v' == []
              else if v[0].Lost? then a == Answer([], Some(Broken(DecryptionFailed))) && v' == v[1..]
              else
                && a.err == None && |a.bytes| == Min(n, |v[0].bytes|)
                && Lead(v) == a.bytes + Lead(v') && Tail(v') == Tail(v)
            case OpNext =>
              if v == [] then a == Answer([], Some(EOF)) && v' == []
              else if v[0].Lost? then a == Answer([], Some(Broken(DecryptionFailed))) && v' == v[1..]
              else a == Answer(v[0].bytes, None) && v' == v[1..]
            case OpFlush =>
              && a.bytes == Lead(v)
              && if Tail(v) == [] then a.err == None && v' == []
                 else a.err == Some(Broken(DecryptionFailed)) && v' == Tail(v)[1..]
            case OpUntil(delim) =>
              && delim !in a.bytes && (a.err == None <==> delim in Lead(v))
              && (a.err == None ==> Lead(v) == a.bytes + [delim] + Lead(v') && Tail(v') == Tail(v))
              && (a.err != None ==> a.bytes == Lead(v) && v' == if Tail(v) == [] then [] else Tail(v)[1..])
            case _ => true
  {
    hide Lead, Tail, All, ReadUntil;
    match op
    case OpWrite(data) =>
      AllOfLives(v, Chunks(data, chunk));
      ChunksPartition(data, chunk);
    case OpRead(n) => ReadTakesLead(v, n);
    case OpUntil(delim) => UntilOfPlain(v, delim);
    case _ =>
  }

  /** A rekey splits the key anew and leaves the queue; a purge that meets the key takes it or leaves it wiped. */
  lemma KeyAnswers(cr: Primitives, cfg: Config, w: State, ev: Event)
    requires Lawful(cr) && cfg.Valid() && w.s.key.Some?
    ensures var w' := StreamRuns.Step(cr, cfg, w, ev).0;
            && (ev.op.OpRekey? ==>
                  && w' == w.(s := w.s.(key := w'.s.key)) && w'.s.key.Some?
                  && w'.s.key.value.right == Xor(w.s.key.value.right, ev.op.mask)
                  && Value(cr, w'.s.key.value) == Value(cr, w.s.key.value))
            && (ev.op.OpPurge? ==>
                  && w'.s.queue == w.s.queue
                  && w'.s.key == (if w.stuck then w.s.key else if ev.op.resists then Some(WIPED) else None)
                  && w'.stuck == (w.stuck || ev.op.resists))
  {
    if ev.op.OpRekey? {
      ResplitChanges(cr, w.s.key.value, ev.op.mask);
      ResplitValue(cr, w.s.key.value, ev.op.mask);
    }
  }

  /** After a purge that meets the key the next chunk cannot be read any more, whatever it holds. */
  lemma PurgedIsUnreadable(cr: Primitives, cfg: Config, w: State, q: Queue, lost: set<Block>, purge: Event, next: Event)
    requires Lawful(cr) && cfg.Valid() && Matches(cr, w, q, lost) && Met(w) && w.s.queue != []
    requires purge.op.OpPurge? && next.op.OpNext? && FreshKeys(cr, cfg, w, lost, [purge, next])
    ensures var w' := StreamRuns.Step(cr, cfg, w, purge).0;
            StreamRuns.Step(cr, cfg, w', next).1 == Answer([], Some(Broken(DecryptionFailed)))
  {
    hide Matches, FreshEvent, Lawful, Lead, Tail, All;
    assert [purge, next][1..] == [next];
    StepRefines(cr, cfg, w, q, lost, purge);
    var w', q' := StreamRuns.Step(cr, cfg, w, purge).0, FifoStep(q, cfg.chunk, purge.op).0;
    var lost' := LostAfter(cr, w, lost, purge.op);
    StepRefines(cr, cfg, w', q', lost', next);
    MatchesLength(cr, w, q, lost);
    PlainAnswers(q'.v, cfg.chunk, next.op);
  }

  lemma MatchesLength(cr: Primitives, w: State, q: Queue, lost: set<Block>)
    requires Matches(cr, w, q, lost)
    ensures |w.s.queue| == |q.v| && q.stuck == w.stuck
  {
  }

  // ---------------------------------------------------------------- one key epoch

  /** No purge meets the key. */
  predicate OneEpoch(stuck: bool, run: seq<Event>) {
    stuck || forall i :: 0 <= i < |run| ==> !run[i].op.OpPurge?
  }

  lemma {:induction false} ReadableIsLead(v: Fifo)
    ensures Readable(v) <==> Tail(v) == []
    ensures Readable(v) ==> LiveBytes(v) == All(v)
  {
    if v != [] {
      ReadableIsLead(v[1..]);
      assert Readable(v) <==> v[0].Live? && Readable(v[1..]) by {
        if v[0].Live? && Readable(v[1..]) {
          forall i | 0 <= i < |v| ensures v[i].Live? {
            assert i > 0 ==> v[i] == v[1..][i - 1];
          }
        }
      }
    }
  }

  lemma StepStaysReadable(q: Queue, chunk: nat, op: Op)
    requires chunk >= 1 && Readable(q.v) && (q.stuck || !op.OpPurge?)
    ensures var (q', a) := FifoStep(q, chunk, op);
            Readable(q'.v) && q'.stuck == q.stuck && Dropped(q.v, a) == []
  {
    hide ReadUntil, Chunks, Lead, Tail;
    var v, v' := q.v, FifoStep(q, chunk, op).0.v;
    ReadableIsLead(v);
    ReadableIsLead(v');
    match op
    case OpWrite(data) => WriteStaysReadable(v, Chunks(data, chunk));
    case OpRead(n) => ReadTakesLead(v, n);
    case OpNext => ReadTakesLead(v, if v != [] && v[0].Live? then |v[0].bytes| else 0);
    case OpUntil(delim) =>
      UntilOfPlain(v, delim);
      NoTail();
    case _ => NoTail();
  }

  lemma NoTail()
    ensures Tail([]) == []
  {
  }

  lemma WriteStaysReadable(v: Fifo, chunks: seq<Bytes>)
    requires Readable(v)
    ensures Readable(v + Lives(chunks))
  {
  }

  lemma {:induction false} EpochRemovesTaken(q: Queue, chunk: nat, run: seq<Event>)
    requires chunk >= 1 && Readable(q.v) && OneEpoch(q.stuck, run)
    ensures Readable(FifoFinal(q, chunk, run).v)
    ensures Removed(q, chunk, run) == AllTaken(run, FifoAnswers(q, chunk, run))
    decreases |run|
  {
    hide FifoStep, Readable, Taken, Dropped;
    if run != [] {
      var (q', a) := FifoStep(q, chunk, run[0].op);
      StepStaysReadable(q, chunk, run[0].op);
      EpochRemovesTaken(q', chunk, run[1..]);
      assert FifoAnswers(q, chunk, run)[1..] == FifoAnswers(q', chunk, run[1..]);
      assert Taken(run[0].op, a) + [] == Taken(run[0].op, a);
    }
  }

  lemma {:induction false} NothingLostIsFresh(cr: Primitives, cfg: Config, w: State, run: seq<Event>)
    requires Lawful(cr) && cfg.Valid() && OneEpoch(w.stuck, run)
    ensures FreshKeys(cr, cfg, w, {}, run)
    decreases |run|
  {
    if run != [] {
      NothingLostIsFresh(cr, cfg, StreamRuns.Step(cr, cfg, w, run[0]).0, run[1..]);
    }
  }

  /**
   * A new stream in one key epoch is a byte queue: what was taken out, followed by what the queue still decrypts
   * to, is what was written, in order; and `Size` is the difference. No assumption about keys is needed.
   */
  lemma StreamIsByteQueue(cr: Primitives, cfg: Config, key: Key, stuck: bool, drawn: nat, run: seq<Event>)
    requires Lawful(cr) && cfg.Valid() && (stuck ==> key.Some?) && OneEpoch(stuck, run)
    ensures var w := New(key, stuck, drawn);
            var (out, end) := (AllTaken(run, Answers(cr, cfg, w, run)), Final(cr, cfg, w, run).s);
            && out + Decoded(cr, end.key, end.queue) == Written(run)
            && Total(end.queue) == |Written(run)| - |out|
  {
    hide StreamRuns.Step, FifoStep, FreshKeys, Lawful;
    var w, q := New(key, stuck, drawn), Queue([], key.Some?, stuck);
    NothingLostIsFresh(cr, cfg, w, run);
    StreamConserves(cr, cfg, key, stuck, drawn, run);
    assert Matches(cr, w, q, {});
    StreamRefinesFifo(cr, cfg, w, q, {}, run);
    EpochRemovesTaken(q, cfg.chunk, run);
    ReadableIsLead(FifoFinal(q, cfg.chunk, run).v);
  }
}
