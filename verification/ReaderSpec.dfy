/** The two growing reader loops as functions of what the reader answers, and what they do to a stream. */
module ReaderSpec {
  import opened Auxiliary
  import opened Bytes
  import opened Crypto
  import opened SessionSpec
  import opened StreamSpec

  /**
   * A reader: a foreign one that answers each call as it likes and fails in the end, an encrypted stream,
   * or the plain queue that the stream stands for.
   */
  datatype Source =
    | Script(steps: seq<nat -> Answer>)
    | Encrypted(cr: Primitives, rng: Random, s: Stream)
    | Plain(v: Fifo)

  /** A foreign reader never delivers more than it was offered room for. */
  ghost predicate Sane(src: Source) {
    match src
    case Script(steps) => forall i, n :: 0 <= i < |steps| ==> |steps[i](n).bytes| <= n
    case Encrypted(cr, _, _) => Lawful(cr)
    case Plain(_) => true
  }

  /** One call of `Read` with room for `n` bytes. */
  function Pull(src: Source, n: nat): (Source, Answer) {
    match src
    case Script(steps) =>
      if steps == [] then (src, Answer([], Some(EOF))) else (Script(steps[1..]), steps[0](n))
    case Encrypted(cr, rng, s) =>
      var (s', a) := Read(cr, rng, s, n);
      (Encrypted(cr, rng, s'), a)
    case Plain(v) =>
      var (v', a) := FifoRead(v, n);
      (Plain(v'), a)
  }

  function QueueWeight(queue: seq<Enclave>): nat {
    if queue == [] then 0 else 1 + (if Size(queue[0]) < 0 then 0 else Size(queue[0])) + QueueWeight(queue[1..])
  }

  function FifoWeight(v: Fifo): nat {
    if v == [] then 0 else 1 + (if v[0].Live? then |v[0].bytes| else 0) + FifoWeight(v[1..])
  }

  /** What is left to be pulled: this is why both loops end. */
  function Weight(src: Source): nat {
    match src
    case Script(steps) => |steps|
    case Encrypted(_, _, s) => QueueWeight(s.queue)
    case Plain(v) => FifoWeight(v)
  }

  lemma OpenedSize(cr: Primitives, key: Parts, e: Enclave)
    requires Lawful(cr) && OpenWith(cr, key, e).Ok?
    ensures |OpenWith(cr, key, e).value| == Size(e) >= 1
  {
  }

  /** A call that delivers something, or no error, leaves strictly less to pull. */
  lemma PullProgress(src: Source, n: nat)
    requires Sane(src) && n >= 1
    ensures var (src', a) := Pull(src, n);
            && Sane(src') && |a.bytes| <= n
            && (a.bytes != [] || a.err.None? ==> Weight(src') < Weight(src))
  {
    match src
    case Script(steps) =>
    case Plain(v) =>
      if v != [] && v[0].Live? && n < |v[0].bytes| {
        var v' := FifoRead(v, n).0;
        assert v'[1..] == v[1..];
      }
    case Encrypted(cr, rng, s) =>
      if s.queue != [] {
        var key := Ensure(cr, s.key, rng.scrambled);
        var r := OpenWith(cr, key, s.queue[0]);
        if r.Ok? {
          OpenedSize(cr, key, s.queue[0]);
          if n < |r.value| {
            var s' := Read(cr, rng, s, n).0;
            OpenSealed(cr, key, rng.nonces(s.drawn), r.value[n..]);
            assert s'.queue[1..] == s.queue[1..];
          }
        }
      }
  }

  /** The free part of a working buffer that grows a page at a time and has `read` bytes filled. */
  function Room(read: nat, page: nat): int
    requires page >= 1
  {
    (read / page + 1) * page - read
  }

  lemma RoomIsPositive(read: nat, page: nat)
    requires page >= 1
    ensures 1 <= Room(read, page) <= page && (read + Room(read, page)) % page == 0
  {
    assert read == (read / page) * page + read % page;
    DivModUnique(read + Room(read, page), page, read / page + 1, 0);
    assert (read / page + 1) * page == (read / page) * page + page;
  }

  datatype Outcome = Outcome(src: Source, bytes: Bytes, err: Option<ReadError>)

  /** `NewBufferFromEntireReader` from the moment `read` bytes are in. */
  function ReadEntire(src: Source, read: nat, page: nat): Outcome
    requires Sane(src) && page >= 1
    decreases Weight(src)
  {
    RoomIsPositive(read, page);
    PullProgress(src, Room(read, page));
    var (src', a) := Pull(src, Room(read, page));
    if a.err.Some? then Outcome(src', a.bytes, if a.err == Some(EOF) then None else a.err)
    else
      var o := ReadEntire(src', read + |a.bytes|, page);
      o.(bytes := a.bytes + o.bytes)
  }

  /** `NewBufferFromReaderUntil`: one byte at a time; an error that comes with a byte is ignored. */
  function ReadUntil(src: Source, delim: Byte): Outcome
    requires Sane(src)
    decreases Weight(src)
  {
    PullProgress(src, 1);
    var (src', a) := Pull(src, 1);
    if |a.bytes| != 1 then
      if a.err.None? then ReadUntil(src', delim) else Outcome(src', [], a.err)
    else if a.bytes[0] == delim then Outcome(src', [], None)
    else
      var o := ReadUntil(src', delim);
      o.(bytes := a.bytes + o.bytes)
  }

  // ---------------------------------------------------------------- any reader

  /** The answers that the loop sees, in order. */
  function EntireTrace(src: Source, read: nat, page: nat): seq<Answer>
    requires Sane(src) && page >= 1
    decreases Weight(src)
  {
    RoomIsPositive(read, page);
    PullProgress(src, Room(read, page));
    var (src', a) := Pull(src, Room(read, page));
    if a.err.Some? then [a] else [a] + EntireTrace(src', read + |a.bytes|, page)
  }

  function Delivered(trace: seq<Answer>): Bytes {
    if trace == [] then [] else trace[0].bytes + Delivered(trace[1..])
  }

  /** The outcome is all that was delivered; only the last answer has an error, and EOF counts as none. */
  predicate AllDelivered(o: Outcome, t: seq<Answer>) {
    && t != [] && o.bytes == Delivered(t)
    && (forall i :: 0 <= i < |t| ==> (t[i].err.Some? <==> i == |t| - 1))
    && o.err == if t[|t| - 1].err == Some(EOF) then None else t[|t| - 1].err
  }

  lemma AllDeliveredCons(a: Answer, o: Outcome, t: seq<Answer>)
    requires AllDelivered(o, t) && a.err.None?
    ensures AllDelivered(o.(bytes := a.bytes + o.bytes), [a] + t)
  {
    assert ([a] + t)[1..] == t;
  }

  lemma DeliveredOne(a: Answer)
    ensures Delivered([a]) == a.bytes
  {
    assert Delivered([a]) == a.bytes + Delivered([]);
  }

  /**
   * Whatever the reader does, the result is everything it delivered up to and including its first error,
   * and the error is nil exactly when that first error is EOF.
   */
  lemma {:induction false} EntireIsAllDelivered(src: Source, read: nat, page: nat)
    requires Sane(src) && page >= 1
    ensures AllDelivered(ReadEntire(src, read, page), EntireTrace(src, read, page))
    decreases Weight(src)
  {
    hide Pull, Weight, Sane, Room, Delivered;
    RoomIsPositive(read, page);
    PullProgress(src, Room(read, page));
    var (src', a) := Pull(src, Room(read, page));
    if a.err.Some? {
      DeliveredOne(a);
    } else {
      var read' := read + |a.bytes|;
      EntireIsAllDelivered(src', read', page);
      AllDeliveredCons(a, ReadEntire(src', read', page), EntireTrace(src', read', page));
    }
  }

  /** The answers to one-byte reads up to the delimiter or the error that ends the loop. */
  function UntilTrace(src: Source, delim: Byte): seq<Answer>
    requires Sane(src)
    decreases Weight(src)
  {
    PullProgress(src, 1);
    var (src', a) := Pull(src, 1);
    if (a.bytes == [] && a.err.Some?) || a.bytes == [delim] then [a] else [a] + UntilTrace(src', delim)
  }

  /**
   * The result has no delimiter; with the delimiter, when one was found, it is everything delivered; and the
   * error is nil exactly when one was found.
   */
  predicate UpTo(delim: Byte, o: Outcome, t: seq<Answer>) {
    && t != [] && delim !in o.bytes
    && Delivered(t) == o.bytes + (if o.err.None? then [delim] else [])
    && (o.err.None? <==> t[|t| - 1].bytes == [delim])
    && (o.err.Some? ==> o.err == t[|t| - 1].err)
  }

  lemma UpToCons(delim: Byte, a: Answer, o: Outcome, t: seq<Answer>)
    requires UpTo(delim, o, t) && delim !in a.bytes
    ensures UpTo(delim, o.(bytes := a.bytes + o.bytes), [a] + t)
  {
    assert ([a] + t)[1..] == t;
  }

  lemma {:induction false} UntilStopsAtDelimiter(src: Source, delim: Byte)
    requires Sane(src)
    ensures UpTo(delim, ReadUntil(src, delim), UntilTrace(src, delim))
    decreases Weight(src)
  {
    hide Pull, Weight, Sane, Delivered;
    PullProgress(src, 1);
    var (src', a) := Pull(src, 1);
    assert |a.bytes| == 1 || a.bytes == [];
    if a.bytes == [delim] || (a.bytes == [] && a.err.Some?) {
      DeliveredOne(a);
    } else {
      UntilStopsAtDelimiter(src', delim);
      var o := ReadUntil(src', delim);
      UpToCons(delim, a, o, UntilTrace(src', delim));
      assert o.(bytes := [] + o.bytes) == o;
    }
  }

  // ---------------------------------------------------------------- the documented treatment of errors

  /** What the documentation says: the loop goes on only after answers without an error. */
  predicate FirstErrorEnds(t: seq<Answer>) {
    forall i :: 0 <= i < |t| - 1 ==> t[i].err.None?
  }

  /** No error comes along with a byte other than the delimiter. */
  predicate ErrorsComeAlone(delim: Byte, t: seq<Answer>) {
    forall i :: 0 <= i < |t| && t[i].bytes != [] && t[i].bytes != [delim] ==> t[i].err.None?
  }

  lemma ErrorsConsed(delim: Byte, a: Answer, t: seq<Answer>)
    requires t != []
    ensures FirstErrorEnds([a] + t) <==> a.err.None? && FirstErrorEnds(t)
    ensures ErrorsComeAlone(delim, [a] + t) <==>
            (a.bytes != [] && a.bytes != [delim] ==> a.err.None?) && ErrorsComeAlone(delim, t)
  {
    var u := [a] + t;
    assert u[0] == a && forall i :: 1 <= i < |u| ==> u[i] == t[i - 1];
    if FirstErrorEnds(u) {
      forall i | 0 <= i < |t| - 1 ensures t[i].err.None? { assert u[i + 1].err.None?; }
    }
    if ErrorsComeAlone(delim, u) {
      forall i | 0 <= i < |t| && t[i].bytes != [] && t[i].bytes != [delim]
        ensures t[i].err.None?
      {
        assert u[i + 1].err.None?;
      }
    }
  }

  /** For every reader: the loop treats errors as documented if and only if they come alone. */
  lemma {:induction false} UntilReportsFirstErrorIff(src: Source, delim: Byte)
    requires Sane(src)
    ensures var t := UntilTrace(src, delim); FirstErrorEnds(t) <==> ErrorsComeAlone(delim, t)
    decreases Weight(src)
  {
    hide Pull, Weight, Sane, FirstErrorEnds, ErrorsComeAlone;
    PullProgress(src, 1);
    var (src', a) := Pull(src, 1);
    assert |a.bytes| == 1 || a.bytes == [];
    if (a.bytes == [] && a.err.Some?) || a.bytes == [delim] {
      OneAnswerErrors(delim, a);
    } else {
      UntilReportsFirstErrorIff(src', delim);
      UntilStopsAtDelimiter(src', delim);
      ErrorsConsed(delim, a, UntilTrace(src', delim));
    }
  }

  lemma OneAnswerErrors(delim: Byte, a: Answer)
    requires a.bytes == [] || a.bytes == [delim]
    ensures FirstErrorEnds([a]) && ErrorsComeAlone(delim, [a])
  {
  }

  /** A reader that fails along with its only byte: the byte is returned, and its error is replaced by EOF. */
  lemma UntilLosesError(broken: ReadError)
    ensures var src := Script([n => Answer(if n >= 1 then [1] else [], Some(broken))]);
            && Sane(src) && ReadUntil(src, 0) == Outcome(Script([]), [1], Some(EOF))
            && !FirstErrorEnds(UntilTrace(src, 0))
  {
    var src := Script([n => Answer(if n >= 1 then [1] else [], Some(broken))]);
    var a := Answer([1], Some(broken));
    assert src.steps[1..] == [];
    assert Pull(src, 1) == (Script([]), a);
    assert Pull(Script([]), 1) == (Script([]), Answer([], Some(EOF)));
    assert ReadUntil(Script([]), 0) == Outcome(Script([]), [], Some(EOF));
    assert UntilTrace(src, 0) == [a, Answer([], Some(EOF))];
    assert UntilTrace(src, 0)[0].err.Some?;
  }
}
