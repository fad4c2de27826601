/** Which locks the operations really take, and what they do under them. */
module LockUse {
  import opened Bytes
  import opened LockOrder

  /** The locks that a program touches. */
  function Locks(p: Program): set<Lock> {
    set i | 0 <= i < |p| :: p[i].l
  }

  function BufferLocks(buffers: seq<nat>): set<Lock> {
    set i | 0 <= i < |buffers| :: BufferLock(buffers[i])
  }

  function ListIf(c: bool): set<Lock> {
    if c then {ListLock} else {}
  }

  // ---------------------------------------------------------------- the locks of each operation

  function KeyLocks(u: KeyUse): set<Lock> {
    {KeyMutex, CofferLock(u.c)} + BufferLocks(u.checks)
    + if u.made == 0 then {} else {ListLock, CofferLock(u.c')} + BufferLocks(u.checks')
  }

  function EnclaveLocks(u: KeyUse): set<Lock> {
    KeyLocks(u) + {CofferLock(u.c')} + BufferLocks(u.checks') + BufferLocks(u.views)
    + ListIf(u.viewed > 0 || u.views != [])
  }

  function SealLocks(u: SealUse): set<Lock> {
    {BufferLock(u.b)} + EnclaveLocks(u.key) + ListIf(u.done)
  }

  function PurgeLocks(u: PurgeUse): set<Lock> {
    {KeyMutex, CofferLock(u.c), ListLock} + BufferLocks(u.checks) + BufferLocks(u.buffers)
  }

  function PanicLocks(panic: Option<PurgeUse>): set<Lock> {
    if panic.Some? then PurgeLocks(panic.value) else {}
  }

  function AllEnclaveLocks(uses: seq<KeyUse>): set<Lock> {
    if uses == [] then {} else EnclaveLocks(uses[0]) + AllEnclaveLocks(uses[1..])
  }

  function LocksOf(op: Op): set<Lock> {
    match op
    case View(c, checks, made) => {CofferLock(c)} + BufferLocks(checks) + ListIf(made > 0)
    case Rekey(c, checks) => {CofferLock(c)} + BufferLocks(checks)
    case Init(c, checks) => {CofferLock(c)} + BufferLocks(checks)
    case DestroyCoffer(c, parts, nils) => {CofferLock(c)} + BufferLocks(parts) + ListIf(parts != [] || nils > 0)
    case Touch(b) => {BufferLock(b)}
    case DestroyBuffer(b) => {BufferLock(b), ListLock}
    case Purge(u) => PurgeLocks(u)
    case Exit(c, parts, nils, buffers) =>
      {KeyMutex, CofferLock(c), ListLock} + BufferLocks(parts) + BufferLocks(buffers)
    case NewEnclave(u) => EnclaveLocks(u)
    case Open(u) => {ListLock} + EnclaveLocks(u)
    case Seal(u) => SealLocks(u)
    case StreamSize(st) => {StreamLock(st)}
    case StreamWrite(st, uses, panic) => {StreamLock(st)} + AllEnclaveLocks(uses) + PanicLocks(panic)
    case StreamNext(st, u, got, panic) =>
      {StreamLock(st), ListLock} + EnclaveLocks(u) + BufferLocks(got) + PanicLocks(panic)
    case StreamRead(st, u, got, rest, panic) =>
      {StreamLock(st), ListLock} + EnclaveLocks(u) + BufferLocks(got) + PanicLocks(panic)
      + if rest.Some? then SealLocks(rest.value) else {}
  }

  lemma LocksAppend(p: Program, q: Program)
    ensures Locks(p + q) == Locks(p) + Locks(q)
  {
    forall l
      ensures l in Locks(p + q) <==> l in Locks(p) || l in Locks(q)
    {
      if l in Locks(p) {
        var i :| 0 <= i < |p| && p[i].l == l;
        assert (p + q)[i].l == l;
      }
      if l in Locks(q) {
        var i :| 0 <= i < |q| && q[i].l == l;
        assert (p + q)[|p| + i].l == l;
      }
    }
  }

  lemma LocksBrief(l: Lock)
    ensures Locks(Brief(l)) == {l}
  {
    assert Brief(l)[0].l == l;
  }

  lemma LocksWithin(l: Lock, body: Program)
    ensures Locks(Within(l, body)) == {l} + Locks(body)
  {
    LocksAppend([Acquire(l)], body);
    LocksAppend([Acquire(l)] + body, [Release(l)]);
    assert Locks([Acquire(l)]) == {l} by { assert [Acquire(l)][0].l == l; }
    assert Locks([Release(l)]) == {l} by { assert [Release(l)][0].l == l; }
  }

  lemma BufferLocksCons(b: nat, buffers: seq<nat>)
    ensures BufferLocks([b] + buffers) == {BufferLock(b)} + BufferLocks(buffers) && BufferLocks([]) == {}
  {
    var all := [b] + buffers;
    assert all[0] == b && forall i :: 0 <= i < |buffers| ==> all[i + 1] == buffers[i];
    forall l | l in BufferLocks(buffers)
      ensures l in BufferLocks(all)
    {
      var i :| 0 <= i < |buffers| && BufferLock(buffers[i]) == l;
      assert BufferLock(all[i + 1]) == l;
    }
    assert BufferLock(all[0]) in BufferLocks(all);
  }

  lemma {:induction false} LocksEach(buffers: seq<nat>)
    ensures Locks(Each(buffers)) == BufferLocks(buffers)
    ensures Locks(DestroyEach(buffers)) == BufferLocks(buffers) + ListIf(buffers != [])
  {
    hide Locks, BufferLocks;
    if buffers == [] {
      LocksNone();
      BufferLocksCons(0, []);
    } else {
      var b, rest := buffers[0], buffers[1..];
      LocksEach(rest);
      LocksBrief(BufferLock(b));
      LocksBrief(ListLock);
      LocksAppend(Brief(BufferLock(b)), Each(rest));
      LocksAppend(Brief(BufferLock(b)), Brief(ListLock));
      LocksAppend(Brief(BufferLock(b)) + Brief(ListLock), DestroyEach(rest));
      BufferLocksCons(b, rest);
      assert buffers == [b] + rest;
    }
  }

  lemma LocksNone()
    ensures Locks([]) == {}
  {
  }

  lemma {:induction false} LocksNew(n: nat)
    ensures Locks(NewBuffers(n)) == ListIf(n > 0)
  {
    hide Locks;
    if n == 0 {
      LocksNone();
    } else {
      LocksNew(n - 1);
      LocksBrief(ListLock);
      LocksAppend(Brief(ListLock), NewBuffers(n - 1));
    }
  }

  lemma LocksCoffer(c: nat, checks: seq<nat>, made: nat)
    ensures Locks(Within(CofferLock(c), Each(checks))) == {CofferLock(c)} + BufferLocks(checks)
    ensures Locks(Within(CofferLock(c), Each(checks) + NewBuffers(made))) ==
            {CofferLock(c)} + BufferLocks(checks) + ListIf(made > 0)
    ensures Locks(DestroyProgram(c, checks, made)) ==
            {CofferLock(c)} + BufferLocks(checks) + ListIf(checks != [] || made > 0)
  {
    hide Locks, BufferLocks, Each, NewBuffers, DestroyEach, Within;
    LocksEach(checks);
    LocksNew(made);
    LocksAppend(Each(checks), NewBuffers(made));
    LocksAppend(DestroyEach(checks), NewBuffers(made));
    LocksWithin(CofferLock(c), Each(checks));
    LocksWithin(CofferLock(c), Each(checks) + NewBuffers(made));
    LocksWithin(CofferLock(c), DestroyEach(checks) + NewBuffers(made));
  }

  lemma LocksKey(u: KeyUse)
    ensures Locks(KeyProgram(u)) == KeyLocks(u)
  {
    hide Locks, BufferLocks, Each, NewBuffers, Within;
    LocksCoffer(u.c, u.checks, 0);
    LocksCoffer(u.c', u.checks', 0);
    LocksNew(u.made);
    LocksNone();
    var test, made := Within(CofferLock(u.c), Each(u.checks)), NewBuffers(u.made);
    var rest := if u.made == 0 then [] else Within(CofferLock(u.c'), Each(u.checks'));
    LocksAppend(test, made);
    LocksAppend(test + made, rest);
    LocksWithin(KeyMutex, test + made + rest);
  }

  lemma LocksEnclave(u: KeyUse)
    ensures Locks(EnclaveProgram(u)) == EnclaveLocks(u) && Locks(OpenProgram(u)) == {ListLock} + EnclaveLocks(u)
  {
    hide Locks, BufferLocks, Each, NewBuffers, DestroyEach, Within, KeyProgram, KeyLocks;
    var view := Within(CofferLock(u.c'), Each(u.checks') + NewBuffers(u.viewed));
    LocksKey(u);
    LocksCoffer(u.c', u.checks', u.viewed);
    LocksEach(u.views);
    LocksAppend(KeyProgram(u), view);
    LocksAppend(KeyProgram(u) + view, DestroyEach(u.views));
    LocksNew(1);
    LocksAppend(NewBuffers(1), EnclaveProgram(u));
  }

  lemma {:induction false} LocksEnclaves(uses: seq<KeyUse>)
    ensures Locks(EnclavePrograms(uses)) == AllEnclaveLocks(uses)
  {
    hide Locks, EnclaveProgram, EnclaveLocks;
    if uses == [] {
      LocksNone();
    } else {
      LocksEnclave(uses[0]);
      LocksEnclaves(uses[1..]);
      LocksAppend(EnclaveProgram(uses[0]), EnclavePrograms(uses[1..]));
    }
  }

  lemma LocksSeal(u: SealUse)
    ensures Locks(SealProgram(u)) == SealLocks(u)
  {
    hide Locks, BufferLocks, Each, DestroyEach, Within, EnclaveProgram, EnclaveLocks;
    var inner := Within(BufferLock(u.b), EnclaveProgram(u.key));
    LocksEach([u.b, u.b]);
    LocksEach([u.b]);
    BufferLocksCons(u.b, []);
    BufferLocksCons(u.b, [u.b]);
    assert [u.b] + [] == [u.b] && [u.b] + [u.b] == [u.b, u.b];
    LocksEnclave(u.key);
    LocksWithin(BufferLock(u.b), EnclaveProgram(u.key));
    LocksNone();
    LocksAppend(Each([u.b, u.b]), inner);
    LocksAppend(Each([u.b, u.b]) + inner, if u.done then DestroyEach([u.b]) else []);
  }

  lemma LocksPushBack(rest: Option<SealUse>)
    ensures Locks(PushBackProgram(rest)) == if rest.Some? then {ListLock} + SealLocks(rest.value) else {}
  {
    hide Locks, BufferLocks, Each, NewBuffers, SealProgram, SealLocks;
    if rest.None? {
      LocksNone();
    } else {
      var u := rest.value;
      LocksNew(1);
      LocksEach([u.b, u.b]);
      BufferLocksCons(u.b, []);
      BufferLocksCons(u.b, [u.b]);
      assert [u.b] + [] == [u.b] && [u.b] + [u.b] == [u.b, u.b];
      LocksSeal(u);
      assert BufferLock(u.b) in SealLocks(u) by { SealLocksBuffer(u); }
      LocksAppend(NewBuffers(1), Each([u.b, u.b]));
      LocksAppend(NewBuffers(1) + Each([u.b, u.b]), SealProgram(u));
    }
  }

  lemma SealLocksBuffer(u: SealUse)
    ensures BufferLock(u.b) in SealLocks(u)
  {
  }

  lemma LocksPurge(u: PurgeUse)
    ensures Locks(PurgeProgram(u)) == PurgeLocks(u)
  {
    hide Locks, BufferLocks, Each, Within, Brief;
    var sweep, test := SweepProgram(u.buffers), Within(CofferLock(u.c), Each(u.checks));
    LocksBrief(ListLock);
    LocksEach(u.buffers);
    LocksAppend(Brief(ListLock), Each(u.buffers));
    LocksCoffer(u.c, u.checks, 0);
    LocksWithin(CofferLock(u.c), sweep);
    var rest := if u.live then Within(CofferLock(u.c), sweep) else sweep;
    LocksAppend(test, rest);
    LocksWithin(KeyMutex, test + rest);
  }

  lemma LocksPanic(panic: Option<PurgeUse>)
    ensures Locks(PanicProgram(panic)) == PanicLocks(panic)
  {
    hide Locks, PurgeProgram, PurgeLocks;
    LocksNone();
    if panic.Some? {
      LocksPurge(panic.value);
    }
  }

  /** Every operation takes exactly these locks, none more and none fewer, for all branches. */
  lemma LocksTaken(op: Op)
    ensures Locks(ProgramOf(op)) == LocksOf(op)
  {
    hide Locks, BufferLocks, Each, NewBuffers, DestroyEach, Within, Brief, EnclaveProgram, EnclaveLocks;
    hide SealProgram, SealLocks, PurgeProgram, PurgeLocks, DestroyProgram;
    match op
    case View(c, checks, made) => LocksCoffer(c, checks, made);
    case Rekey(c, checks) => LocksCoffer(c, checks, 0);
    case Init(c, checks) => LocksCoffer(c, checks, 0);
    case DestroyCoffer(c, parts, nils) => LocksCoffer(c, parts, nils);
    case Touch(b) => LocksBrief(BufferLock(b));
    case DestroyBuffer(b) =>
      LocksEach([b]);
      BufferLocksCons(b, []);
      assert [b] + [] == [b];
    case Purge(u) => LocksPurge(u);
    case Exit(c, parts, nils, buffers) =>
      LocksBrief(KeyMutex);
      LocksBrief(ListLock);
      LocksCoffer(c, parts, nils);
      LocksEach(buffers);
      LocksAppend(Brief(ListLock), DestroyEach(buffers));
      LocksAppend(Brief(KeyMutex), DestroyProgram(c, parts, nils));
      LocksAppend(Brief(KeyMutex) + DestroyProgram(c, parts, nils), Brief(ListLock) + DestroyEach(buffers));
    case NewEnclave(u) => LocksEnclave(u);
    case Open(u) => LocksEnclave(u);
    case Seal(u) => LocksSeal(u);
    case StreamSize(st) => LocksBrief(StreamLock(st));
    case _ => LocksStream(op);
  }

  /** What a stream operation does under the lock of its stream. */
  function StreamBody(op: Op): Program
    requires op.StreamWrite? || op.StreamNext? || op.StreamRead?
  {
    match op
    case StreamWrite(_, uses, panic) => EnclavePrograms(uses) + PanicProgram(panic)
    case StreamNext(_, u, got, panic) => OpenProgram(u) + Each(got) + PanicProgram(panic)
    case StreamRead(_, u, got, rest, panic) =>
      OpenProgram(u) + Each(got) + (PushBackProgram(rest) + (PanicProgram(panic) + DestroyEach(got)))
  }

  lemma LocksStream(op: Op)
    requires op.StreamWrite? || op.StreamNext? || op.StreamRead?
    ensures ProgramOf(op) == Within(StreamLock(op.stream), StreamBody(op))
    ensures Locks(ProgramOf(op)) == LocksOf(op) && LocksOf(op) == {StreamLock(op.stream)} + Locks(StreamBody(op))
  {
    hide Locks, BufferLocks, Each, DestroyEach, Within, EnclavePrograms, OpenProgram, PushBackProgram, PanicProgram;
    hide EnclaveLocks, SealLocks, PanicLocks, AllEnclaveLocks;
    LocksPanic(op.panic);
    LocksWithin(StreamLock(op.stream), StreamBody(op));
    var panic := PanicProgram(op.panic);
    match op
    case StreamWrite(st, uses, _) =>
      LocksEnclaves(uses);
      LocksAppend(EnclavePrograms(uses), panic);
    case StreamNext(st, u, got, _) =>
      LocksEnclave(u);
      LocksEach(got);
      LocksAppend(OpenProgram(u), Each(got));
      LocksAppend(OpenProgram(u) + Each(got), panic);
    case StreamRead(st, u, got, rest, _) =>
      LocksEnclave(u);
      LocksEach(got);
      LocksPushBack(rest);
      LocksAppend(OpenProgram(u), Each(got));
      LocksAppend(panic, DestroyEach(got));
      LocksAppend(PushBackProgram(rest), panic + DestroyEach(got));
      LocksAppend(OpenProgram(u) + Each(got), PushBackProgram(rest) + (panic + DestroyEach(got)));
  }

  // ---------------------------------------------------------------- what lies under a lock

  /** The whole program runs under the lock, which is taken first, released last and not touched in between. */
  predicate Wraps(p: Program, l: Lock) {
    && |p| >= 2 && p[0] == Acquire(l) && p[|p| - 1] == Release(l)
    && forall i :: 0 < i < |p| - 1 ==> p[i].l != l
  }

  lemma WithinWraps(l: Lock, body: Program)
    requires l !in Locks(body)
    ensures Wraps(Within(l, body), l)
  {
    var p := Within(l, body);
    forall i | 0 < i < |p| - 1
      ensures p[i].l != l
    {
      assert p[i] == body[i - 1] && body[i - 1].l in Locks(body);
    }
  }

  /**
   * Everything that a view, a rekey, an init or a destruction does lies under the lock of its coffer, everything that
   * a purge does under the key mutex, and everything that a stream operation does under the lock of its stream.
   */
  lemma ProgramsAreGuarded(op: Op)
    ensures match op
            case View(c, _, _) => Wraps(ProgramOf(op), CofferLock(c))
            case Rekey(c, _) => Wraps(ProgramOf(op), CofferLock(c))
            case Init(c, _) => Wraps(ProgramOf(op), CofferLock(c))
            case DestroyCoffer(c, _, _) => Wraps(ProgramOf(op), CofferLock(c))
            case Touch(b) => Wraps(ProgramOf(op), BufferLock(b))
            case Purge(_) => Wraps(ProgramOf(op), KeyMutex)
            case StreamSize(st) => Wraps(ProgramOf(op), StreamLock(st))
            case StreamWrite(st, _, _) => Wraps(ProgramOf(op), StreamLock(st))
            case StreamNext(st, _, _, _) => Wraps(ProgramOf(op), StreamLock(st))
            case StreamRead(st, _, _, _, _) => Wraps(ProgramOf(op), StreamLock(st))
            case _ => true
  {
    hide Locks, Each, NewBuffers, DestroyEach, Within, Wraps, PurgeLocks, StreamBody;
    match op
    case View(c, checks, made) => CofferWraps(c, checks, made);
    case Rekey(c, checks) => CofferWraps(c, checks, 0);
    case Init(c, checks) => CofferWraps(c, checks, 0);
    case DestroyCoffer(c, parts, nils) => CofferWraps(c, parts, nils);
    case Touch(b) => BriefWraps(BufferLock(b));
    case Purge(u) => PurgeWraps(u);
    case StreamSize(st) => BriefWraps(StreamLock(st));
    case StreamWrite(_, _, _) => StreamWraps(op);
    case StreamNext(_, _, _, _) => StreamWraps(op);
    case StreamRead(_, _, _, _, _) => StreamWraps(op);
    case _ =>
  }

  lemma BriefWraps(l: Lock)
    ensures Wraps(Brief(l), l)
  {
  }

  lemma CofferWraps(c: nat, checks: seq<nat>, made: nat)
    ensures Wraps(Within(CofferLock(c), Each(checks)), CofferLock(c))
    ensures Wraps(Within(CofferLock(c), Each(checks) + NewBuffers(made)), CofferLock(c))
    ensures Wraps(DestroyProgram(c, checks, made), CofferLock(c))
  {
    hide Locks, Each, NewBuffers, DestroyEach, Within, Wraps;
    LocksEach(checks);
    LocksNew(made);
    LocksAppend(Each(checks), NewBuffers(made));
    LocksAppend(DestroyEach(checks), NewBuffers(made));
    WithinWraps(CofferLock(c), Each(checks));
    WithinWraps(CofferLock(c), Each(checks) + NewBuffers(made));
    WithinWraps(CofferLock(c), DestroyEach(checks) + NewBuffers(made));
  }

  lemma PurgeWraps(u: PurgeUse)
    ensures Wraps(PurgeProgram(u), KeyMutex)
    ensures u.live ==> Wraps(Within(CofferLock(u.c), SweepProgram(u.buffers)), CofferLock(u.c))
  {
    hide Locks, Each, Within, Brief, Wraps;
    var sweep, test := SweepProgram(u.buffers), Within(CofferLock(u.c), Each(u.checks));
    LocksBrief(ListLock);
    LocksEach(u.buffers);
    LocksAppend(Brief(ListLock), Each(u.buffers));
    LocksCoffer(u.c, u.checks, 0);
    LocksWithin(CofferLock(u.c), sweep);
    var rest := if u.live then Within(CofferLock(u.c), sweep) else sweep;
    LocksAppend(test, rest);
    WithinWraps(KeyMutex, test + rest);
    WithinWraps(CofferLock(u.c), sweep);
  }

  /** No program takes the lock of a stream but that of a stream operation, which takes it once. */
  lemma StreamWraps(op: Op)
    requires op.StreamWrite? || op.StreamNext? || op.StreamRead?
    ensures Wraps(ProgramOf(op), StreamLock(op.stream))
  {
    hide Locks, Wraps, Within, StreamBody, ProgramOf;
    LocksStream(op);
    NoStreamLocks(op);
    WithinWraps(StreamLock(op.stream), StreamBody(op));
  }

  predicate NoStreams(ls: set<Lock>) {
    forall l :: l in ls ==> !l.StreamLock?
  }

  lemma EnclaveHasNoStreams(u: KeyUse)
    ensures NoStreams(EnclaveLocks(u))
  {
  }

  lemma {:induction false} EnclavesHaveNoStreams(uses: seq<KeyUse>)
    ensures NoStreams(AllEnclaveLocks(uses))
  {
    if uses != [] {
      EnclaveHasNoStreams(uses[0]);
      EnclavesHaveNoStreams(uses[1..]);
    }
  }

  lemma NoStreamLocks(op: Op)
    requires op.StreamWrite? || op.StreamNext? || op.StreamRead?
    ensures StreamLock(op.stream) !in Locks(StreamBody(op))
  {
    hide Locks, Each, DestroyEach, EnclavePrograms, OpenProgram, PushBackProgram, PanicProgram;
    hide EnclaveLocks, AllEnclaveLocks;
    LocksPanic(op.panic);
    var panic := PanicProgram(op.panic);
    match op
    case StreamWrite(st, uses, _) =>
      LocksEnclaves(uses);
      EnclavesHaveNoStreams(uses);
      LocksAppend(EnclavePrograms(uses), panic);
    case StreamNext(st, u, got, _) =>
      LocksEnclave(u);
      EnclaveHasNoStreams(u);
      LocksEach(got);
      LocksAppend(OpenProgram(u), Each(got));
      LocksAppend(OpenProgram(u) + Each(got), panic);
    case StreamRead(st, u, got, rest, _) =>
      LocksEnclave(u);
      EnclaveHasNoStreams(u);
      LocksEach(got);
      LocksPushBack(rest);
      if rest.Some? {
        EnclaveHasNoStreams(rest.value.key);
      }
      LocksAppend(OpenProgram(u), Each(got));
      LocksAppend(panic, DestroyEach(got));
      LocksAppend(PushBackProgram(rest), panic + DestroyEach(got));
      LocksAppend(OpenProgram(u) + Each(got), PushBackProgram(rest) + (panic + DestroyEach(got)));
  }
}
