/**
 * Which locks the operations take, in which order, and exactly when their interleavings can wait in a circle.
 * Read locks count as exclusive here, which only adds waiting.
 */
module LockOrder {
  import opened Bytes

  datatype Lock = StreamLock(stream: nat) | KeyMutex | CofferLock(coffer: nat) | BufferLock(buffer: nat) | ListLock

  /** The order in which locks are nested. A buffer that is ever sealed is held while the key is asked for. */
  function Rank(sealed: set<nat>, l: Lock): nat {
    match l
    case StreamLock(_) => 0
    case BufferLock(b) => if b in sealed then 1 else 4
    case KeyMutex => 2
    case CofferLock(_) => 3
    case ListLock => 4
  }

  datatype Instr = Acquire(l: Lock) | Release(l: Lock)

  type Program = seq<Instr>

  // ---------------------------------------------------------------- the programs

  /** A critical section with nothing nested in it. */
  function Brief(l: Lock): Program {
    [Acquire(l), Release(l)]
  }

  function Within(l: Lock, body: Program): Program {
    [Acquire(l)] + body + [Release(l)]
  }

  /** One brief section per buffer: the checks of a coffer, or the destructions of a purge. */
  function Each(buffers: seq<nat>): Program {
    if buffers == [] then [] else Brief(BufferLock(buffers[0])) + Each(buffers[1..])
  }

  /** `NewBuffer`: the list is locked to add the buffer. */
  function NewBuffers(n: nat): Program {
    if n == 0 then [] else Brief(ListLock) + NewBuffers(n - 1)
  }

  /** `Buffer.Destroy`: first the buffer, then the list. */
  function DestroyEach(buffers: seq<nat>): Program {
    if buffers == [] then [] else Brief(BufferLock(buffers[0])) + Brief(ListLock) + DestroyEach(buffers[1..])
  }

  /**
   * What `getOrCreateKey().View()` and the destruction of the view meet: the coffer found, the partitions checked,
   * the buffers made for a new coffer, the coffer viewed, its partitions, the buffers made and the views destroyed.
   */
  datatype KeyUse =
    KeyUse(c: nat, checks: seq<nat>, made: nat, c': nat, checks': seq<nat>, viewed: nat, views: seq<nat>)

  /** What a purge meets: the coffer, its partitions, whether it is alive, and the snapshot. */
  datatype PurgeUse = PurgeUse(c: nat, checks: seq<nat>, live: bool, buffers: seq<nat>)

  /** What a seal meets: the buffer, the key, and whether it got as far as destroying the buffer. */
  datatype SealUse = SealUse(b: nat, key: KeyUse, done: bool)

  /**
   * The operations. What they find out while running is a parameter, so that every choice is covered: the coffers
   * and buffers they meet, those made and destroyed, and the branches they take.
   */
  datatype Op =
    | View(c: nat, checks: seq<nat>, made: nat)
    | Rekey(c: nat, checks: seq<nat>)
    | Init(c: nat, checks: seq<nat>)
    | DestroyCoffer(c: nat, parts: seq<nat>, nils: nat)
    | Touch(b: nat)  // Freeze, Melt, Scramble, CopyAt, MoveAt, Wipe and the queries
    | DestroyBuffer(b: nat)
    | Purge(purge: PurgeUse)
    | Exit(c: nat, parts: seq<nat>, nils: nat, buffers: seq<nat>)
    | NewEnclave(use: KeyUse)
    | Open(use: KeyUse)
    | Seal(seal: SealUse)
    | StreamSize(stream: nat)
    // A key that a purge destroys before it is viewed makes the stream operations panic, which is a purge as well.
    | StreamWrite(stream: nat, uses: seq<KeyUse>, panic: Option<PurgeUse>)
    | StreamNext(stream: nat, use: KeyUse, got: seq<nat>, panic: Option<PurgeUse>)
    | StreamRead(stream: nat, use: KeyUse, got: seq<nat>, rest: Option<SealUse>, panic: Option<PurgeUse>)

  function KeyProgram(u: KeyUse): Program {
    Within(KeyMutex,
           Within(CofferLock(u.c), Each(u.checks))
           + NewBuffers(u.made) + if u.made == 0 then [] else Within(CofferLock(u.c'), Each(u.checks')))
  }

  function EnclaveProgram(u: KeyUse): Program {
    KeyProgram(u) + Within(CofferLock(u.c'), Each(u.checks') + NewBuffers(u.viewed)) + DestroyEach(u.views)
  }

  function EnclavePrograms(uses: seq<KeyUse>): Program {
    if uses == [] then [] else EnclaveProgram(uses[0]) + EnclavePrograms(uses[1..])
  }

  function OpenProgram(u: KeyUse): Program {
    NewBuffers(1) + EnclaveProgram(u)
  }

  /** `Seal`: the checks, then the key is asked for under the lock of the buffer, then the buffer is destroyed. */
  function SealProgram(u: SealUse): Program {
    Each([u.b, u.b]) + Within(BufferLock(u.b), EnclaveProgram(u.key)) + if u.done then DestroyEach([u.b]) else []
  }

  /** The push-back of a read: a new buffer, filled and sealed. */
  function PushBackProgram(rest: Option<SealUse>): Program {
    match rest
    case None => []
    case Some(u) => NewBuffers(1) + Each([u.b, u.b]) + SealProgram(u)
  }

  function SweepProgram(buffers: seq<nat>): Program {
    Brief(ListLock) + Each(buffers)
  }

  function PurgeProgram(u: PurgeUse): Program {
    Within(KeyMutex,
           Within(CofferLock(u.c), Each(u.checks))
           + if u.live then Within(CofferLock(u.c), SweepProgram(u.buffers)) else SweepProgram(u.buffers))
  }

  function PanicProgram(panic: Option<PurgeUse>): Program {
    if panic.Some? then PurgeProgram(panic.value) else []
  }

  /** `Coffer.Destroy`: a nil partition is looked up in the list all the same. */
  function DestroyProgram(c: nat, parts: seq<nat>, nils: nat): Program {
    Within(CofferLock(c), DestroyEach(parts) + NewBuffers(nils))
  }

  function ProgramOf(op: Op): Program {
    match op
    case View(c, checks, made) => Within(CofferLock(c), Each(checks) + NewBuffers(made))
    case Rekey(c, checks) => Within(CofferLock(c), Each(checks))
    case Init(c, checks) => Within(CofferLock(c), Each(checks))
    case DestroyCoffer(c, parts, nils) => DestroyProgram(c, parts, nils)
    case Touch(b) => Brief(BufferLock(b))
    case DestroyBuffer(b) => DestroyEach([b])
    case Purge(u) => PurgeProgram(u)
    case Exit(c, parts, nils, buffers) =>
      Brief(KeyMutex) + DestroyProgram(c, parts, nils) + (Brief(ListLock) + DestroyEach(buffers))
    case NewEnclave(u) => EnclaveProgram(u)
    case Open(u) => OpenProgram(u)
    case Seal(u) => SealProgram(u)
    case StreamSize(st) => Brief(StreamLock(st))
    case StreamWrite(st, uses, panic) => Within(StreamLock(st), EnclavePrograms(uses) + PanicProgram(panic))
    case StreamNext(st, u, got, panic) =>
      Within(StreamLock(st), OpenProgram(u) + Each(got) + PanicProgram(panic))
    case StreamRead(st, u, got, rest, panic) =>
      Within(StreamLock(st),
             OpenProgram(u) + Each(got) + (PushBackProgram(rest) + (PanicProgram(panic) + DestroyEach(got))))
  }

  // ---------------------------------------------------------------- which operations run

  predicate Avoids(sealed: set<nat>, buffers: seq<nat>) {
    forall i :: 0 <= i < |buffers| ==> buffers[i] !in sealed
  }

  /** Partitions and views of keys are the library's own and are never sealed. */
  predicate UseAvoids(sealed: set<nat>, u: KeyUse) {
    Avoids(sealed, u.checks) && Avoids(sealed, u.checks') && Avoids(sealed, u.views)
  }

  predicate SealAllowed(u: SealUse, sealed: set<nat>) {
    u.b in sealed && UseAvoids(sealed, u.key)
  }

  predicate PurgeAllowed(u: PurgeUse, sealed: set<nat>, swept: set<nat>) {
    Avoids(sealed, u.checks) && forall i :: 0 <= i < |u.buffers| ==> u.buffers[i] in swept
  }

  predicate PanicAllowed(panic: Option<PurgeUse>, sealed: set<nat>, swept: set<nat>) {
    panic.Some? ==> PurgeAllowed(panic.value, sealed, swept)
  }

  /** Only buffers in `sealed` are ever sealed, and only buffers in `swept` are ever in the snapshot of a purge. */
  predicate Allowed(op: Op, sealed: set<nat>, swept: set<nat>) {
    match op
    case View(_, checks, _) => Avoids(sealed, checks)
    case Rekey(_, checks) => Avoids(sealed, checks)
    case Init(_, checks) => Avoids(sealed, checks)
    case DestroyCoffer(_, parts, _) => Avoids(sealed, parts)
    case Purge(u) => PurgeAllowed(u, sealed, swept)
    case Exit(_, parts, _, _) => Avoids(sealed, parts)
    case NewEnclave(u) => UseAvoids(sealed, u)
    case Open(u) => UseAvoids(sealed, u)
    case Seal(u) => SealAllowed(u, sealed)
    case StreamWrite(_, uses, panic) =>
      PanicAllowed(panic, sealed, swept) && forall i :: 0 <= i < |uses| ==> UseAvoids(sealed, uses[i])
    case StreamNext(_, u, _, panic) => PanicAllowed(panic, sealed, swept) && UseAvoids(sealed, u)
    case StreamRead(_, u, _, rest, panic) =>
      && PanicAllowed(panic, sealed, swept) && UseAvoids(sealed, u)
      && (rest.Some? ==> SealAllowed(rest.value, sealed))
    case _ => true
  }

  // ---------------------------------------------------------------- the discipline

  predicate Below(sealed: set<nat>, held: set<Lock>, r: nat) {
    forall h :: h in held ==> Rank(sealed, h) < r
  }

  /** The locks held after a program, or none if it breaks the order: upward only, release what is held. */
  function After(sealed: set<nat>, p: Program, held: set<Lock>): Option<set<Lock>>
    decreases |p|
  {
    if p == [] then Some(held)
    else
      match p[0]
      case Acquire(l) => if Below(sealed, held, Rank(sealed, l)) then After(sealed, p[1..], held + {l}) else None
      case Release(l) => if l in held then After(sealed, p[1..], held - {l}) else None
  }

  lemma {:induction false} AfterAppend(sealed: set<nat>, p: Program, q: Program, held: set<Lock>)
    ensures After(sealed, p + q, held) ==
            match After(sealed, p, held) case None => None case Some(h) => After(sealed, q, h)
    decreases |p|
  {
    hide Below, Rank;
    if p == [] {
      assert p + q == q;
    } else {
      assert (p + q)[1..] == p[1..] + q;
      match p[0]
      case Acquire(l) => AfterAppend(sealed, p[1..], q, held + {l});
      case Release(l) => AfterAppend(sealed, p[1..], q, held - {l});
    }
  }

  /** A program that may start with these locks held and ends with the same ones. */
  predicate Balanced(sealed: set<nat>, p: Program, held: set<Lock>) {
    After(sealed, p, held) == Some(held)
  }

  lemma BalancedAppend(sealed: set<nat>, p: Program, q: Program, held: set<Lock>)
    requires Balanced(sealed, p, held) && Balanced(sealed, q, held)
    ensures Balanced(sealed, p + q, held)
  {
    AfterAppend(sealed, p, q, held);
  }

  lemma BalancedBrief(sealed: set<nat>, l: Lock, held: set<Lock>)
    requires Below(sealed, held, Rank(sealed, l))
    ensures Balanced(sealed, Brief(l), held)
  {
    hide Rank, Below;
    var rest := [Release(l)];
    assert Brief(l)[1..] == rest && rest[1..] == [];
    assert held + {l} - {l} == held by { NotHeld(sealed, l, held); }
    assert After(sealed, rest, held + {l}) == Some(held);
  }

  lemma NotHeld(sealed: set<nat>, l: Lock, held: set<Lock>)
    requires Below(sealed, held, Rank(sealed, l))
    ensures l !in held
  {
  }

  lemma BalancedWithin(sealed: set<nat>, l: Lock, body: Program, held: set<Lock>)
    requires Below(sealed, held, Rank(sealed, l)) && Balanced(sealed, body, held + {l})
    ensures Balanced(sealed, Within(l, body), held)
  {
    hide Rank, Below;
    var p := body + [Release(l)];
    AfterAppend(sealed, body, [Release(l)], held + {l});
    NotHeld(sealed, l, held);
    assert [Release(l)][1..] == [] && held + {l} - {l} == held;
    assert Within(l, body) == [Acquire(l)] + p && Within(l, body)[1..] == p;
  }

  /** All of these buffers may be locked on top of what is held. */
  predicate Above(sealed: set<nat>, buffers: seq<nat>, held: set<Lock>) {
    forall i :: 0 <= i < |buffers| ==> Below(sealed, held, Rank(sealed, BufferLock(buffers[i])))
  }

  lemma AvoidsAbove(sealed: set<nat>, buffers: seq<nat>, held: set<Lock>)
    requires Avoids(sealed, buffers) && Below(sealed, held, 4)
    ensures Above(sealed, buffers, held)
  {
  }

  lemma {:induction false} BalancedEach(sealed: set<nat>, buffers: seq<nat>, held: set<Lock>)
    requires Above(sealed, buffers, held)
    ensures Balanced(sealed, Each(buffers), held)
  {
    hide Below, Rank;
    if buffers != [] {
      BalancedBrief(sealed, BufferLock(buffers[0]), held);
      BalancedEach(sealed, buffers[1..], held);
      BalancedAppend(sealed, Brief(BufferLock(buffers[0])), Each(buffers[1..]), held);
    }
  }

  lemma {:induction false} BalancedNewBuffers(sealed: set<nat>, n: nat, held: set<Lock>)
    requires Below(sealed, held, 4)
    ensures Balanced(sealed, NewBuffers(n), held)
  {
    if n > 0 {
      BalancedBrief(sealed, ListLock, held);
      BalancedNewBuffers(sealed, n - 1, held);
      BalancedAppend(sealed, Brief(ListLock), NewBuffers(n - 1), held);
    }
  }

  lemma {:induction false} BalancedDestroyEach(sealed: set<nat>, buffers: seq<nat>, held: set<Lock>)
    requires Above(sealed, buffers, held) && Below(sealed, held, 4)
    ensures Balanced(sealed, DestroyEach(buffers), held)
  {
    hide Below;
    if buffers != [] {
      var b := Brief(BufferLock(buffers[0]));
      BalancedBrief(sealed, BufferLock(buffers[0]), held);
      BalancedBrief(sealed, ListLock, held);
      BalancedAppend(sealed, b, Brief(ListLock), held);
      BalancedDestroyEach(sealed, buffers[1..], held);
      BalancedAppend(sealed, b + Brief(ListLock), DestroyEach(buffers[1..]), held);
    }
  }

  lemma BalancedCoffer(sealed: set<nat>, c: nat, checks: seq<nat>, made: nat, held: set<Lock>)
    requires Below(sealed, held, 3) && Avoids(sealed, checks)
    ensures Balanced(sealed, Within(CofferLock(c), Each(checks)), held)
    ensures Balanced(sealed, Within(CofferLock(c), Each(checks) + NewBuffers(made)), held)
    ensures Balanced(sealed, DestroyProgram(c, checks, made), held)
  {
    var inner := held + {CofferLock(c)};
    AvoidsAbove(sealed, checks, inner);
    hide Balanced, Each, NewBuffers, DestroyEach, Within;
    BalancedEach(sealed, checks, inner);
    BalancedNewBuffers(sealed, made, inner);
    BalancedDestroyEach(sealed, checks, inner);
    BalancedAppend(sealed, Each(checks), NewBuffers(made), inner);
    BalancedAppend(sealed, DestroyEach(checks), NewBuffers(made), inner);
    BalancedWithin(sealed, CofferLock(c), Each(checks), held);
    BalancedWithin(sealed, CofferLock(c), Each(checks) + NewBuffers(made), held);
    BalancedWithin(sealed, CofferLock(c), DestroyEach(checks) + NewBuffers(made), held);
  }

  lemma BalancedKey(sealed: set<nat>, u: KeyUse, held: set<Lock>)
    requires Below(sealed, held, 2) && UseAvoids(sealed, u)
    ensures Balanced(sealed, KeyProgram(u), held)
  {
    hide Each, NewBuffers, Within;
    var inner := held + {KeyMutex};
    BalancedCoffer(sealed, u.c, u.checks, 0, inner);
    BalancedNewBuffers(sealed, u.made, inner);
    BalancedCoffer(sealed, u.c', u.checks', 0, inner);
    var test, added := Within(CofferLock(u.c), Each(u.checks)), NewBuffers(u.made);
    var rest := if u.made == 0 then [] else Within(CofferLock(u.c'), Each(u.checks'));
    BalancedAppend(sealed, test, added, inner);
    BalancedAppend(sealed, test + added, rest, inner);
    BalancedWithin(sealed, KeyMutex, test + added + rest, held);
  }

  lemma BalancedEnclave(sealed: set<nat>, u: KeyUse, held: set<Lock>)
    requires Below(sealed, held, 2) && UseAvoids(sealed, u)
    ensures Balanced(sealed, EnclaveProgram(u), held)
  {
    hide Each, NewBuffers, Within, KeyProgram, Balanced;
    var view := Within(CofferLock(u.c'), Each(u.checks') + NewBuffers(u.viewed));
    BalancedKey(sealed, u, held);
    BalancedCoffer(sealed, u.c', u.checks', u.viewed, held);
    AvoidsAbove(sealed, u.views, held);
    BalancedDestroyEach(sealed, u.views, held);
    BalancedAppend(sealed, KeyProgram(u), view, held);
    BalancedAppend(sealed, KeyProgram(u) + view, DestroyEach(u.views), held);
  }

  lemma {:induction false} BalancedEnclaves(sealed: set<nat>, uses: seq<KeyUse>, held: set<Lock>)
    requires Below(sealed, held, 2) && forall i :: 0 <= i < |uses| ==> UseAvoids(sealed, uses[i])
    ensures Balanced(sealed, EnclavePrograms(uses), held)
  {
    hide EnclaveProgram, UseAvoids;
    if uses != [] {
      BalancedEnclave(sealed, uses[0], held);
      BalancedEnclaves(sealed, uses[1..], held);
      BalancedAppend(sealed, EnclaveProgram(uses[0]), EnclavePrograms(uses[1..]), held);
    }
  }

  lemma BalancedOpen(sealed: set<nat>, u: KeyUse, held: set<Lock>)
    requires Below(sealed, held, 2) && UseAvoids(sealed, u)
    ensures Balanced(sealed, OpenProgram(u), held)
  {
    hide NewBuffers, EnclaveProgram, Balanced;
    BalancedNewBuffers(sealed, 1, held);
    BalancedEnclave(sealed, u, held);
    BalancedAppend(sealed, NewBuffers(1), EnclaveProgram(u), held);
  }

  lemma BalancedSeal(sealed: set<nat>, u: SealUse, held: set<Lock>)
    requires Below(sealed, held, 1) && SealAllowed(u, sealed)
    ensures Balanced(sealed, SealProgram(u), held)
  {
    hide Each, DestroyEach, Within, EnclaveProgram, UseAvoids;
    BalancedEach(sealed, [u.b, u.b], held);
    BalancedEnclave(sealed, u.key, held + {BufferLock(u.b)});
    BalancedWithin(sealed, BufferLock(u.b), EnclaveProgram(u.key), held);
    BalancedDestroyEach(sealed, [u.b], held);
    var last := if u.done then DestroyEach([u.b]) else [];
    BalancedAppend(sealed, Each([u.b, u.b]), Within(BufferLock(u.b), EnclaveProgram(u.key)), held);
    BalancedAppend(sealed, Each([u.b, u.b]) + Within(BufferLock(u.b), EnclaveProgram(u.key)), last, held);
  }

  lemma BalancedPushBack(sealed: set<nat>, rest: Option<SealUse>, held: set<Lock>)
    requires Below(sealed, held, 1) && (rest.Some? ==> SealAllowed(rest.value, sealed))
    ensures Balanced(sealed, PushBackProgram(rest), held)
  {
    hide Each, NewBuffers, SealProgram, UseAvoids;
    if rest.Some? {
      var u := rest.value;
      BalancedNewBuffers(sealed, 1, held);
      BalancedEach(sealed, [u.b, u.b], held);
      BalancedSeal(sealed, u, held);
      BalancedAppend(sealed, NewBuffers(1), Each([u.b, u.b]), held);
      BalancedAppend(sealed, NewBuffers(1) + Each([u.b, u.b]), SealProgram(u), held);
    }
  }

  lemma BalancedSweep(sealed: set<nat>, buffers: seq<nat>, held: set<Lock>)
    requires Avoids(sealed, buffers) && Below(sealed, held, 4)
    ensures Balanced(sealed, SweepProgram(buffers), held)
  {
    hide Each, Brief, Balanced;
    AvoidsAbove(sealed, buffers, held);
    BalancedBrief(sealed, ListLock, held);
    BalancedEach(sealed, buffers, held);
    BalancedAppend(sealed, Brief(ListLock), Each(buffers), held);
  }

  lemma SweptAvoids(u: PurgeUse, sealed: set<nat>, swept: set<nat>)
    requires PurgeAllowed(u, sealed, swept) && sealed !! swept
    ensures Avoids(sealed, u.buffers)
  {
  }

  lemma BalancedPurge(u: PurgeUse, sealed: set<nat>, swept: set<nat>, held: set<Lock>)
    requires PurgeAllowed(u, sealed, swept) && sealed !! swept && Below(sealed, held, 2)
    ensures Balanced(sealed, PurgeProgram(u), held)
  {
    hide Each, SweepProgram, Within;
    SweptAvoids(u, sealed, swept);
    var outer := held + {KeyMutex};
    var sweep, test := SweepProgram(u.buffers), Within(CofferLock(u.c), Each(u.checks));
    BalancedSweep(sealed, u.buffers, outer);
    BalancedSweep(sealed, u.buffers, outer + {CofferLock(u.c)});
    BalancedWithin(sealed, CofferLock(u.c), sweep, outer);
    BalancedCoffer(sealed, u.c, u.checks, 0, outer);
    var rest := if u.live then Within(CofferLock(u.c), sweep) else sweep;
    BalancedAppend(sealed, test, rest, outer);
    BalancedWithin(sealed, KeyMutex, test + rest, held);
  }

  lemma BalancedPanic(panic: Option<PurgeUse>, sealed: set<nat>, swept: set<nat>, held: set<Lock>)
    requires PanicAllowed(panic, sealed, swept) && sealed !! swept && Below(sealed, held, 2)
    ensures Balanced(sealed, PanicProgram(panic), held)
  {
    hide PurgeProgram, PurgeAllowed;
    if panic.Some? {
      BalancedPurge(panic.value, sealed, swept, held);
    }
  }

  lemma BalancedNext(u: KeyUse, got: seq<nat>, sealed: set<nat>, held: set<Lock>)
    requires Below(sealed, held, 1) && UseAvoids(sealed, u)
    ensures Balanced(sealed, OpenProgram(u) + Each(got), held)
  {
    hide Each, OpenProgram, UseAvoids, Balanced;
    BalancedOpen(sealed, u, held);
    BalancedEach(sealed, got, held);
    BalancedAppend(sealed, OpenProgram(u), Each(got), held);
  }

  lemma BalancedStream(op: Op, sealed: set<nat>, swept: set<nat>)
    requires Allowed(op, sealed, swept) && sealed !! swept && (op.StreamWrite? || op.StreamNext? || op.StreamRead?)
    ensures Balanced(sealed, ProgramOf(op), {})
  {
    hide Balanced, Each, DestroyEach, EnclavePrograms, OpenProgram, PushBackProgram, PanicProgram, Within, UseAvoids;
    hide PanicAllowed, SealAllowed;
    var held, panic := {} + {StreamLock(op.stream)}, PanicProgram(op.panic);
    BalancedPanic(op.panic, sealed, swept, held);
    match op
    case StreamWrite(st, uses, _) =>
      BalancedEnclaves(sealed, uses, held);
      BalancedAppend(sealed, EnclavePrograms(uses), panic, held);
      BalancedWithin(sealed, StreamLock(st), EnclavePrograms(uses) + panic, {});
    case StreamNext(st, u, got, _) =>
      BalancedNext(u, got, sealed, held);
      BalancedAppend(sealed, OpenProgram(u) + Each(got), panic, held);
      BalancedWithin(sealed, StreamLock(st), OpenProgram(u) + Each(got) + panic, {});
    case StreamRead(st, u, got, rest, _) =>
      var end := panic + DestroyEach(got);
      BalancedNext(u, got, sealed, held);
      BalancedPushBack(sealed, rest, held);
      BalancedDestroyEach(sealed, got, held);
      BalancedAppend(sealed, panic, DestroyEach(got), held);
      BalancedAppend(sealed, PushBackProgram(rest), end, held);
      BalancedAppend(sealed, OpenProgram(u) + Each(got), PushBackProgram(rest) + end, held);
      BalancedWithin(sealed, StreamLock(st), OpenProgram(u) + Each(got) + (PushBackProgram(rest) + end), {});
  }

  lemma BalancedExit(sealed: set<nat>, c: nat, parts: seq<nat>, nils: nat, buffers: seq<nat>)
    requires Avoids(sealed, parts)
    ensures Balanced(sealed, ProgramOf(Exit(c, parts, nils, buffers)), {})
  {
    hide Brief, DestroyEach, DestroyProgram;
    BalancedBrief(sealed, KeyMutex, {});
    BalancedCoffer(sealed, c, parts, nils, {});
    BalancedBrief(sealed, ListLock, {});
    BalancedDestroyEach(sealed, buffers, {});
    BalancedAppend(sealed, Brief(ListLock), DestroyEach(buffers), {});
    BalancedAppend(sealed, Brief(KeyMutex), DestroyProgram(c, parts, nils), {});
    BalancedAppend(sealed, Brief(KeyMutex) + DestroyProgram(c, parts, nils), Brief(ListLock) + DestroyEach(buffers), {});
  }

  /** If no buffer is both sealed and swept, every operation takes its locks upward and gives all of them back. */
  lemma OperationsAreOrdered(op: Op, sealed: set<nat>, swept: set<nat>)
    requires Allowed(op, sealed, swept) && sealed !! swept
    ensures Balanced(sealed, ProgramOf(op), {})
  {
    hide Balanced, Each, NewBuffers, DestroyEach, Within, Brief, EnclaveProgram, OpenProgram, SealProgram;
    hide PurgeProgram, PurgeAllowed, DestroyProgram;
    match op
    case View(c, checks, made) => BalancedCoffer(sealed, c, checks, made, {});
    case Rekey(c, checks) => BalancedCoffer(sealed, c, checks, 0, {});
    case Init(c, checks) => BalancedCoffer(sealed, c, checks, 0, {});
    case DestroyCoffer(c, parts, nils) => BalancedCoffer(sealed, c, parts, nils, {});
    case Touch(b) => BalancedBrief(sealed, BufferLock(b), {});
    case DestroyBuffer(b) => BalancedDestroyEach(sealed, [b], {});
    case Purge(u) => BalancedPurge(u, sealed, swept, {});
    case Exit(c, parts, nils, buffers) => BalancedExit(sealed, c, parts, nils, buffers);
    case NewEnclave(u) => BalancedEnclave(sealed, u, {});
    case Open(u) => BalancedOpen(sealed, u, {});
    case Seal(u) => BalancedSeal(sealed, u, {});
    case StreamSize(st) => BalancedBrief(sealed, StreamLock(st), {});
    case _ => BalancedStream(op, sealed, swept);
  }

  // ---------------------------------------------------------------- interleavings

  /** What each thread still has to do, and who owns which lock. */
  datatype State = State(threads: seq<Program>, owner: map<Lock, nat>)

  function Held(s: State, t: nat): set<Lock> {
    set l | l in s.owner && s.owner[l] == t
  }

  /** Thread `t` executes its next instruction. */
  predicate Advances(s: State, t: nat, s': State) {
    && t < |s.threads| && s.threads[t] != []
    && s'.threads == s.threads[t := s.threads[t][1..]]
    && match s.threads[t][0]
       case Acquire(l) => l !in s.owner && s'.owner == s.owner[l := t]
       case Release(l) => l in s.owner && s.owner[l] == t && s'.owner == s.owner - {l}
  }

  /** Thread `t`, being idle, begins an operation. */
  predicate Begins(s: State, t: nat, op: Op, s': State) {
    t < |s.threads| && s.threads[t] == [] && s' == s.(threads := s.threads[t := ProgramOf(op)])
  }

  ghost predicate Next(s: State, s': State, sealed: set<nat>, swept: set<nat>) {
    || (exists t :: Advances(s, t, s'))
    || (exists t, op: Op :: Allowed(op, sealed, swept) && Begins(s, t, op, s'))
  }

  /** A run from idle threads, in which only `sealed` buffers are sealed and only `swept` ones are purged. */
  ghost predicate IsRun(run: seq<State>, sealed: set<nat>, swept: set<nat>) {
    && run != []
    && run[0].owner == map[] && (forall t :: 0 <= t < |run[0].threads| ==> run[0].threads[t] == [])
    && forall i :: 0 <= i < |run| - 1 ==> Next(run[i], run[i + 1], sealed, swept)
  }

  ghost predicate Disciplined(sealed: set<nat>, s: State) {
    && (forall l :: l in s.owner ==> s.owner[l] < |s.threads|)
    && forall t :: 0 <= t < |s.threads| ==> After(sealed, s.threads[t], Held(s, t)) == Some({})
  }

  lemma AdvanceKeepsDiscipline(sealed: set<nat>, s: State, t: nat, s': State)
    requires Disciplined(sealed, s) && Advances(s, t, s')
    ensures Disciplined(sealed, s')
  {
    hide Below, Rank;
    forall u | 0 <= u < |s'.threads|
      ensures After(sealed, s'.threads[u], Held(s', u)) == Some({})
    {
      assert After(sealed, s.threads[u], Held(s, u)) == Some({});
      if u != t {
        assert Held(s', u) == Held(s, u);
      } else {
        match s.threads[t][0]
        case Acquire(l) => assert Held(s', t) == Held(s, t) + {l};
        case Release(l) => assert Held(s', t) == Held(s, t) - {l};
      }
    }
  }

  lemma BeginKeepsDiscipline(s: State, t: nat, op: Op, s': State, sealed: set<nat>, swept: set<nat>)
    requires Disciplined(sealed, s) && Begins(s, t, op, s') && Allowed(op, sealed, swept) && sealed !! swept
    ensures Disciplined(sealed, s')
  {
    hide After, ProgramOf, Allowed;
    OperationsAreOrdered(op, sealed, swept);
    forall u | 0 <= u < |s'.threads|
      ensures After(sealed, s'.threads[u], Held(s', u)) == Some({})
    {
      assert After(sealed, s.threads[u], Held(s, u)) == Some({});
      assert Held(s', u) == Held(s, u);
      if u == t {
        NothingHeld(sealed, s, t);
      }
    }
  }

  lemma NothingHeld(sealed: set<nat>, s: State, t: nat)
    requires Disciplined(sealed, s) && t < |s.threads| && s.threads[t] == []
    ensures Held(s, t) == {}
  {
    assert After(sealed, s.threads[t], Held(s, t)) == Some({});
  }

  lemma {:induction false} RunsAreDisciplined(run: seq<State>, i: nat, sealed: set<nat>, swept: set<nat>)
    requires IsRun(run, sealed, swept) && i < |run| && sealed !! swept
    ensures Disciplined(sealed, run[i])
  {
    hide Advances, Begins, Allowed;
    if i == 0 {
      forall t | 0 <= t < |run[0].threads|
        ensures After(sealed, run[0].threads[t], Held(run[0], t)) == Some({})
      {
        assert Held(run[0], t) == {};
      }
    } else {
      RunsAreDisciplined(run, i - 1, sealed, swept);
      var s, s' := run[i - 1], run[i];
      assert Next(s, s', sealed, swept);
      if t :| Advances(s, t, s') {
        AdvanceKeepsDiscipline(sealed, s, t, s');
      } else {
        var t, op: Op :| Allowed(op, sealed, swept) && Begins(s, t, op, s');
        BeginKeepsDiscipline(s, t, op, s', sealed, swept);
      }
    }
  }

  /** Thread `t` cannot go on until `u` releases a lock. */
  predicate WaitsFor(s: State, t: nat, u: nat) {
    && t < |s.threads| && s.threads[t] != [] && s.threads[t][0].Acquire?
    && s.threads[t][0].l in s.owner && s.owner[s.threads[t][0].l] == u
  }

  /** Each thread waits for the next one, and the last for the first. */
  predicate WaitsInCircle(s: State, ts: seq<nat>) {
    && ts != []
    && (forall i :: 0 <= i < |ts| - 1 ==> WaitsFor(s, ts[i], ts[i + 1]))
    && WaitsFor(s, ts[|ts| - 1], ts[0])
  }

  lemma WaitingClimbs(sealed: set<nat>, s: State, t: nat, u: nat)
    requires Disciplined(sealed, s) && WaitsFor(s, t, u)
    ensures u < |s.threads| && s.threads[u] != []
    ensures s.threads[u][0].Acquire? ==> Rank(sealed, s.threads[t][0].l) < Rank(sealed, s.threads[u][0].l)
  {
    hide Rank;
    var l := s.threads[t][0].l;
    assert l in Held(s, u);
    assert After(sealed, s.threads[u], Held(s, u)) == Some({});
  }

  predicate Acquiring(s: State, t: nat) {
    t < |s.threads| && s.threads[t] != [] && s.threads[t][0].Acquire?
  }

  lemma {:induction false} CircleClimbs(sealed: set<nat>, s: State, ts: seq<nat>, i: nat)
    requires Disciplined(sealed, s) && WaitsInCircle(s, ts) && i < |ts|
    ensures Acquiring(s, ts[0]) && Acquiring(s, ts[i])
    ensures Rank(sealed, s.threads[ts[0]][0].l) + i <= Rank(sealed, s.threads[ts[i]][0].l)
  {
    hide Rank, After;
    if i > 0 {
      CircleClimbs(sealed, s, ts, i - 1);
      assert WaitsFor(s, ts[i - 1], ts[i - 1 + 1]);
      WaitingClimbs(sealed, s, ts[i - 1], ts[i]);
    }
    if i < |ts| - 1 {
      assert WaitsFor(s, ts[i], ts[i + 1]);
    }
  }

  /** If no buffer is both sealed and swept, threads never wait in a circle. */
  lemma NoCircularWait(run: seq<State>, i: nat, ts: seq<nat>, sealed: set<nat>, swept: set<nat>)
    requires IsRun(run, sealed, swept) && i < |run| && sealed !! swept
    ensures !WaitsInCircle(run[i], ts)
  {
    hide Rank, After;
    RunsAreDisciplined(run, i, sealed, swept);
    if WaitsInCircle(run[i], ts) {
      CircleClimbs(sealed, run[i], ts, |ts| - 1);
      WaitingClimbs(sealed, run[i], ts[|ts| - 1], ts[0]);
    }
  }

  predicate CanAdvance(s: State, t: nat) {
    && t < |s.threads| && s.threads[t] != []
    && match s.threads[t][0]
       case Acquire(l) => l !in s.owner
       case Release(l) => l in s.owner && s.owner[l] == t
  }

  lemma {:induction false} SomeoneAdvances(sealed: set<nat>, s: State, t: nat) returns (u: nat)
    requires Disciplined(sealed, s) && t < |s.threads| && s.threads[t] != []
    ensures CanAdvance(s, u)
    decreases if s.threads[t][0].Acquire? then 5 - Rank(sealed, s.threads[t][0].l) else 0
  {
    assert After(sealed, s.threads[t], Held(s, t)) == Some({});
    if CanAdvance(s, t) {
      u := t;
    } else {
      var v := s.owner[s.threads[t][0].l];
      WaitingClimbs(sealed, s, t, v);
      u := SomeoneAdvances(sealed, s, v);
    }
  }

  /** Under the same condition, so long as some operation is unfinished some thread can take a step. */
  lemma NeverStuck(run: seq<State>, i: nat, t: nat, sealed: set<nat>, swept: set<nat>)
    requires IsRun(run, sealed, swept) && i < |run| && sealed !! swept
    requires t < |run[i].threads| && run[i].threads[t] != []
    ensures exists u :: CanAdvance(run[i], u)
  {
    RunsAreDisciplined(run, i, sealed, swept);
    var u := SomeoneAdvances(sealed, run[i], t);
  }

  // ---------------------------------------------------------------- a buffer that is both sealed and swept

  const USE := KeyUse(0, [], 0, 0, [], 1, [])

  /** A thread that seals `b`: it checks and melts the buffer, then locks it and asks for the key. */
  function Sealing(b: nat): Program {
    ProgramOf(Seal(SealUse(b, USE, true)))
  }

  /** A purging thread that has `b` in its snapshot. */
  function Purging(b: nat): Program {
    ProgramOf(Purge(PurgeUse(0, [], false, [b])))
  }

  lemma TwoPrograms(b: nat)
    ensures |Sealing(b)| > 6 && |Purging(b)| > 6
    ensures Sealing(b)[..6] ==
            Brief(BufferLock(b)) + Brief(BufferLock(b)) + [Acquire(BufferLock(b)), Acquire(KeyMutex)]
    ensures Purging(b)[..6] ==
            [Acquire(KeyMutex)] + Brief(CofferLock(0)) + Brief(ListLock) + [Acquire(BufferLock(b))]
  {
    var p := Brief(BufferLock(b));
    assert Each([b]) == p + Each([]);
    assert Each([b, b]) == p + Each([b]) && [b, b][1..] == [b];
    var e := EnclaveProgram(USE);
    assert e[0] == Acquire(KeyMutex);
    assert Sealing(b) == Each([b, b]) + ([Acquire(BufferLock(b))] + e + [Release(BufferLock(b))]) + DestroyEach([b]);
    assert Purging(b) == [Acquire(KeyMutex)]
                         + (([Acquire(CofferLock(0))] + Each([]) + [Release(CofferLock(0))]) + (Brief(ListLock) + Each([b])))
                         + [Release(KeyMutex)];
  }

  /** The two threads with these programs left. */
  function Two(p: Program, q: Program, owner: map<Lock, nat>): State {
    State([p, q], owner)
  }

  ghost predicate Reaches(run: seq<State>, s: State, sealed: set<nat>, swept: set<nat>) {
    IsRun(run, sealed, swept) && run[|run| - 1] == s
  }

  lemma Extend(run: seq<State>, s: State, s': State, sealed: set<nat>, swept: set<nat>) returns (longer: seq<State>)
    requires Reaches(run, s, sealed, swept) && Next(s, s', sealed, swept)
    ensures Reaches(longer, s', sealed, swept)
  {
    longer := run + [s'];
    forall i | 0 <= i < |longer| - 1
      ensures Next(longer[i], longer[i + 1], sealed, swept)
    {
      if i < |run| - 1 {
        assert longer[i] == run[i] && longer[i + 1] == run[i + 1];
      }
    }
  }

  lemma SealerTakes(run: seq<State>, p: Program, q: Program, owner: map<Lock, nat>, sealed: set<nat>, swept: set<nat>)
    returns (longer: seq<State>)
    requires p != [] && p[0].Acquire? && p[0].l !in owner && Reaches(run, Two(p, q, owner), sealed, swept)
    ensures Reaches(longer, Two(p[1..], q, owner[p[0].l := 0]), sealed, swept)
  {
    hide IsRun;
    assert Advances(Two(p, q, owner), 0, Two(p[1..], q, owner[p[0].l := 0]));
    longer := Extend(run, Two(p, q, owner), Two(p[1..], q, owner[p[0].l := 0]), sealed, swept);
  }

  lemma SealerPasses(run: seq<State>, p: Program, q: Program, owner: map<Lock, nat>, sealed: set<nat>, swept: set<nat>)
    returns (longer: seq<State>)
    requires |p| >= 2 && p[0].Acquire? && p[1] == Release(p[0].l) && p[0].l !in owner
    requires Reaches(run, Two(p, q, owner), sealed, swept)
    ensures Reaches(longer, Two(p[2..], q, owner), sealed, swept)
  {
    hide IsRun;
    longer := SealerTakes(run, p, q, owner, sealed, swept);
    var mid := Two(p[1..], q, owner[p[0].l := 0]);
    assert p[1..][1..] == p[2..] && owner[p[0].l := 0] - {p[0].l} == owner;
    assert Advances(mid, 0, Two(p[2..], q, owner));
    longer := Extend(longer, mid, Two(p[2..], q, owner), sealed, swept);
  }

  lemma PurgerTakes(run: seq<State>, p: Program, q: Program, owner: map<Lock, nat>, sealed: set<nat>, swept: set<nat>)
    returns (longer: seq<State>)
    requires q != [] && q[0].Acquire? && q[0].l !in owner && Reaches(run, Two(p, q, owner), sealed, swept)
    ensures Reaches(longer, Two(p, q[1..], owner[q[0].l := 1]), sealed, swept)
  {
    hide IsRun;
    assert Advances(Two(p, q, owner), 1, Two(p, q[1..], owner[q[0].l := 1]));
    longer := Extend(run, Two(p, q, owner), Two(p, q[1..], owner[q[0].l := 1]), sealed, swept);
  }

  lemma PurgerPasses(run: seq<State>, p: Program, q: Program, owner: map<Lock, nat>, sealed: set<nat>, swept: set<nat>)
    returns (longer: seq<State>)
    requires |q| >= 2 && q[0].Acquire? && q[1] == Release(q[0].l) && q[0].l !in owner
    requires Reaches(run, Two(p, q, owner), sealed, swept)
    ensures Reaches(longer, Two(p, q[2..], owner), sealed, swept)
  {
    hide IsRun;
    longer := PurgerTakes(run, p, q, owner, sealed, swept);
    var mid := Two(p, q[1..], owner[q[0].l := 1]);
    assert q[1..][1..] == q[2..] && owner[q[0].l := 1] - {q[0].l} == owner;
    assert Advances(mid, 1, Two(p, q[2..], owner));
    longer := Extend(longer, mid, Two(p, q[2..], owner), sealed, swept);
  }

  lemma TwoBegin(b: nat, sealed: set<nat>, swept: set<nat>) returns (run: seq<State>)
    requires b in sealed && b in swept
    ensures Reaches(run, Two(Sealing(b), Purging(b), map[]), sealed, swept)
  {
    hide ProgramOf;
    var idle, half := State([[], []], map[]), State([Sealing(b), []], map[]);
    run := [idle];
    assert Begins(idle, 0, Seal(SealUse(b, USE, true)), half) && Allowed(Seal(SealUse(b, USE, true)), sealed, swept);
    run := Extend(run, idle, half, sealed, swept);
    assert Begins(half, 1, Purge(PurgeUse(0, [], false, [b])), Two(Sealing(b), Purging(b), map[]));
    assert Allowed(Purge(PurgeUse(0, [], false, [b])), sealed, swept);
    run := Extend(run, half, Two(Sealing(b), Purging(b), map[]), sealed, swept);
  }

  /** The rest of a program after its first `k` instructions. */
  lemma Rest(p: Program, k: nat)
    requires |p| > 6 && k < 6
    ensures p[k..] != [] && p[k..][0] == p[..6][k]
    ensures k + 1 < 6 ==> p[k..][1] == p[..6][k + 1]
    ensures k + 2 <= |p| ==> p[k..][1..] == p[k + 1..] && p[k..][2..] == p[k + 2..]
  {
  }

  /** The run ends in a circle: the sealer holds the buffer and wants the key, the purger the reverse. */
  lemma SealCanDeadlock(b: nat, sealed: set<nat>, swept: set<nat>) returns (run: seq<State>)
    requires b in sealed && b in swept
    ensures IsRun(run, sealed, swept) && WaitsInCircle(run[|run| - 1], [0, 1])
  {
    hide IsRun, ProgramOf, Next, Sealing, Purging;
    var p, q, l := Sealing(b), Purging(b), BufferLock(b);
    TwoPrograms(b);
    forall k | 0 <= k < 6
      ensures p[k..] != [] && p[k..][0] == p[..6][k] && p[k..][1..] == p[k + 1..]
      ensures k + 1 < 6 ==> p[k..][1] == p[..6][k + 1] && p[k..][2..] == p[k + 2..]
    {
      Rest(p, k);
    }
    forall k | 0 <= k < 6
      ensures q[k..] != [] && q[k..][0] == q[..6][k] && q[k..][1..] == q[k + 1..]
      ensures k + 1 < 6 ==> q[k..][1] == q[..6][k + 1] && q[k..][2..] == q[k + 2..]
    {
      Rest(q, k);
    }
    run := TwoBegin(b, sealed, swept);
    assert p[0..] == p && q[0..] == q;
    run := SealerPasses(run, p[0..], q, map[], sealed, swept);
    run := SealerPasses(run, p[2..], q, map[], sealed, swept);
    run := SealerTakes(run, p[4..], q, map[], sealed, swept);
    run := PurgerTakes(run, p[5..], q[0..], map[l := 0], sealed, swept);
    var owner := map[l := 0, KeyMutex := 1];
    run := PurgerPasses(run, p[5..], q[1..], owner, sealed, swept);
    run := PurgerPasses(run, p[5..], q[3..], owner, sealed, swept);
    var end := Two(p[5..], q[5..], owner);
    assert WaitsFor(end, 0, 1) && WaitsFor(end, 1, 0);
  }

  ghost predicate Deadlocks(run: seq<State>, ts: seq<nat>, sealed: set<nat>, swept: set<nat>) {
    IsRun(run, sealed, swept) && WaitsInCircle(run[|run| - 1], ts)
  }

  /** A circular wait is reachable if and only if some buffer is both sealed and in the snapshot of a purge. */
  lemma CircularWaitIff(sealed: set<nat>, swept: set<nat>)
    ensures (exists run, ts :: Deadlocks(run, ts, sealed, swept)) <==> exists b :: b in sealed && b in swept
  {
    if b :| b in sealed && b in swept {
      var run := SealCanDeadlock(b, sealed, swept);
      assert Deadlocks(run, [0, 1], sealed, swept);
    } else {
      forall run, ts
        ensures !Deadlocks(run, ts, sealed, swept)
      {
        if IsRun(run, sealed, swept) {
          NoCircularWait(run, |run| - 1, ts, sealed, swept);
        }
      }
    }
  }
}
