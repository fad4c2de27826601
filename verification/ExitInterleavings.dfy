/**
 * `Exit` beside the other threads. It destroys the key under its lock, but then the buffers of a snapshot under their
 * own locks alone: a key made in between loses its partitions in the middle of a view.
 */
module ExitInterleavings {
  import opened Bytes
  import opened CofferInterleavings

  datatype ExitStage =
    | ExitGet                 // reads the session key under the key mutex
    | ExitLock(c: nat) | ExitLeft(c: nat) | ExitRight(c: nat) | ExitRand(c: nat) | ExitUnlock(c: nat)
    | ExitCopy                // takes the snapshot of the list
    | ExitSweep(upto: nat)    // destroys the buffers of the coffers that there were
    | ExitDone(upto: nat)

  /** The threads, and the one that exits. */
  datatype Process = Process(s: State, exit: ExitStage)

  /** Whose turn it is. */
  datatype Turn = Thread(move: Move) | Exit(choice: Choice)

  function Change(s: State, c: nat, d: Coffer): State
    requires c < |s.coffers|
  {
    s.(coffers := s.coffers[c := d])
  }

  /** A step on the key that is being destroyed; the thread that exits has the number behind all others. */
  function DestroyKeyStep(s: State, stage: ExitStage): Process
    requires stage.ExitLock? || stage.ExitLeft? || stage.ExitRight? || stage.ExitRand? || stage.ExitUnlock?
  {
    if stage.c >= |s.coffers| then Process(s, stage)
    else
      var c, d := stage.c, s.coffers[stage.c];
      match stage
      case ExitLock(_) =>
        if d.lock.Some? then Process(s, stage) else Process(Change(s, c, d.(lock := Some(|s.pcs|))), ExitLeft(c))
      case ExitLeft(_) => Process(Change(s, c, Kill(d, 0)), ExitRight(c))
      case ExitRight(_) => Process(Change(s, c, Kill(d, 1)), ExitRand(c))
      case ExitRand(_) => Process(Change(s, c, Kill(d, 2)), ExitUnlock(c))
      case ExitUnlock(_) => Process(Change(s, c, d.(lock := None)), ExitCopy)
  }

  function ExitStep(s: State, stage: ExitStage, ch: Choice): Process {
    match stage
    case ExitGet => Process(s, if s.mutex.Some? then stage else ExitLock(s.key))
    case ExitCopy => Process(s, ExitSweep(|s.coffers|))
    case ExitSweep(upto) =>
      // no coffer is locked here
      if forall d :: 0 <= d < |s.coffers| && d < upto ==> AllGone(s.coffers[d]) then Process(s, ExitDone(upto))
      else if ch.victim < |s.coffers| && ch.victim < upto
      then Process(Change(s, ch.victim, Kill(s.coffers[ch.victim], ch.part)), stage)
      else Process(s, stage)
    case ExitDone(_) => Process(s, stage)
    case _ => DestroyKeyStep(s, stage)
  }

  /** One turn; when `Exit` is done there is no process any more. */
  function TurnStep(hash: Hash, p: Process, turn: Turn): Process {
    if p.exit.ExitDone? then p
    else
      match turn
      case Exit(ch) => ExitStep(p.s, p.exit, ch)
      case Thread(move) =>
        if CanStep(p.s, move.thread) then p.(s := Step(hash, p.s, move.thread, move.choice)) else p
  }

  function RunTurns(hash: Hash, p: Process, turns: seq<Turn>): Process {
    if turns == [] then p else TurnStep(hash, RunTurns(hash, p, turns[..|turns| - 1]), turns[|turns| - 1])
  }

  /** Whether `Exit` runs at all, and whether any thread asks for a key. */
  predicate Permitted(turns: seq<Turn>, exits: bool, makes: bool) {
    forall u :: u in turns ==> (u.Exit? ==> exits) && (u.Thread? && u.move.choice.begin.KeyLock? ==> makes)
  }

  /** A thread uses a partition that is gone. */
  predicate Tears(hash: Hash, s: State, turns: seq<Turn>, t: nat) {
    var end := RunTurns(hash, Process(s, ExitGet), turns).s;
    t < |end.pcs| && end.pcs[t] == Crashed
  }

  /** When `Exit` is done, nothing is left of any coffer that there was at its snapshot. */
  lemma {:induction false} ExitDestroysAll(hash: Hash, s: State, turns: seq<Turn>)
    ensures var p := RunTurns(hash, Process(s, ExitGet), turns);
            p.exit.ExitDone? ==> forall c :: 0 <= c < |p.s.coffers| && c < p.exit.upto ==> AllGone(p.s.coffers[c])
  {
    hide Step, CanStep;
    if turns != [] {
      ExitDestroysAll(hash, s, turns[..|turns| - 1]);
    }
  }

  // ---------------------------------------------------------------- without Exit

  lemma {:induction false} SafeWithoutExit(hash: Hash, s: State, turns: seq<Turn>, makes: bool)
    requires Initial(s) && Permitted(turns, false, makes)
    ensures var p := RunTurns(hash, Process(s, ExitGet), turns); p.exit == ExitGet && Inv(hash, p.s)
  {
    hide Step, CanStep, Inv;
    if turns == [] {
      InitialInv(hash, s);
    } else {
      SafeWithoutExit(hash, s, turns[..|turns| - 1], makes);
      var p, turn := RunTurns(hash, Process(s, ExitGet), turns[..|turns| - 1]), turns[|turns| - 1];
      if CanStep(p.s, turn.move.thread) {
        StepKeeps(hash, p.s, turn.move.thread, turn.move.choice);
      }
    }
  }

  // ---------------------------------------------------------------- without a key

  /** The thread has not come past a check, and does not ask for a key. */
  predicate Resting(pc: Pc) {
    pc != Crashed && !Working(pc) && !pc.KeyLock? && !pc.GetKey?
  }

  /** No key has ever been made. */
  predicate Dormant(s: State) {
    && (forall c :: 0 <= c < |s.coffers| ==> AllGone(s.coffers[c]))
    && (forall t :: 0 <= t < |s.pcs| ==> Resting(s.pcs[t]))
  }

  lemma StepStaysDormant(hash: Hash, s: State, t: nat, ch: Choice)
    requires CanStep(s, t) && Dormant(s) && !ch.begin.KeyLock?
    ensures Dormant(Step(hash, s, t, ch))
  {
    hide Xor;
    var pc := s.pcs[t];
    assert Resting(pc);
    if IsLocal(pc) {
      assert AllGone(s.coffers[pc.c]);
      var (d, pc') := LocalStep(hash, t, pc, s.coffers[pc.c], ch.random);
      assert AllGone(d) && Resting(pc');
    }
  }

  lemma ExitStaysDormant(s: State, stage: ExitStage, ch: Choice)
    requires Dormant(s)
    ensures Dormant(ExitStep(s, stage, ch).s)
  {
  }

  lemma {:induction false} SafeWithoutKey(hash: Hash, s: State, turns: seq<Turn>, exits: bool)
    requires Initial(s) && Permitted(turns, exits, false)
    ensures Dormant(RunTurns(hash, Process(s, ExitGet), turns).s)
  {
    hide Step, CanStep, ExitStep;
    if turns != [] {
      hide Dormant;
      SafeWithoutKey(hash, s, turns[..|turns| - 1], exits);
      var p, turn := RunTurns(hash, Process(s, ExitGet), turns[..|turns| - 1]), turns[|turns| - 1];
      match turn
      case Exit(ch) => ExitStaysDormant(p.s, p.exit, ch);
      case Thread(move) =>
        if CanStep(p.s, move.thread) {
          StepStaysDormant(hash, p.s, move.thread, move.choice);
        }
    }
  }

  // ---------------------------------------------------------------- with both

  const ZERO: Block := Zeros(32)

  /** A choice that begins an operation, or sweeps the left partition of coffer 1. */
  function Pick(begin: Pc): Choice {
    Choice(ZERO, ZERO, 1, 0, begin)
  }

  ghost predicate Reaches(hash: Hash, s: State, turns: seq<Turn>, p: Process) {
    Permitted(turns, true, true) && RunTurns(hash, Process(s, ExitGet), turns) == p
  }

  lemma More(hash: Hash, s: State, turns: seq<Turn>, p: Process, turn: Turn) returns (longer: seq<Turn>)
    requires Reaches(hash, s, turns, p)
    ensures Reaches(hash, s, longer, TurnStep(hash, p, turn))
  {
    longer := turns + [turn];
    assert longer[..|longer| - 1] == turns;
  }

  /** `Exit` finds a key that was never made, and comes to its snapshot. */
  lemma ExitFirst(hash: Hash, s: State) returns (turns: seq<Turn>)
    requires Initial(s)
    ensures Reaches(hash, s, turns, Process(s, ExitCopy))
  {
    hide RunTurns, Permitted;
    var x, me := Exit(Pick(Idle)), |s.pcs|;
    var d := s.coffers[0];
    var locked := Change(s, 0, d.(lock := Some(me)));
    turns := Nothing(hash, s);
    turns := More(hash, s, turns, Process(s, ExitGet), x);
    turns := More(hash, s, turns, Process(s, ExitLock(0)), x);
    assert locked.coffers[0 := locked.coffers[0]] == locked.coffers;
    turns := More(hash, s, turns, Process(locked, ExitLeft(0)), x);
    turns := More(hash, s, turns, Process(locked, ExitRight(0)), x);
    turns := More(hash, s, turns, Process(locked, ExitRand(0)), x);
    turns := More(hash, s, turns, Process(locked, ExitUnlock(0)), x);
    assert Change(locked, 0, locked.coffers[0].(lock := None)).coffers == s.coffers;
  }

  lemma Nothing(hash: Hash, s: State) returns (turns: seq<Turn>)
    ensures Reaches(hash, s, turns, Process(s, ExitGet))
  {
    turns := [];
  }

  /** Thread 0 has made coffer 1 and is about to read its partitions. */
  function Viewing(hash: Hash, s: State): State
    requires |s.pcs| >= 1
  {
    var made := Coffer(Here(Xor(ZERO, hash(ZERO))), Here(ZERO), Here(ZERO), Some(0), ZERO);
    State(s.coffers + [made], 1, None, s.pcs[0 := View(1, ViewHash)])
  }

  lemma MakesKey(hash: Hash, s: State, before: seq<Turn>) returns (turns: seq<Turn>)
    requires Initial(s) && |s.pcs| >= 1 && Reaches(hash, s, before, Process(s, ExitCopy))
    ensures Reaches(hash, s, turns, Process(Viewing(hash, s), ExitCopy))
  {
    hide RunTurns, Permitted, Xor;
    var x, go := ExitCopy, Thread(Move(0, Pick(Idle)));
    var d, made := s.coffers[0], Viewing(hash, s).coffers[1].(lock := None);
    var both := s.coffers + [made];
    turns := More(hash, s, before, Process(s, x), Thread(Move(0, Pick(KeyLock))));
    turns := More(hash, s, turns, Process(At(s, 0, KeyLock), x), go);
    var held := s.(mutex := Some(0));
    turns := More(hash, s, turns, Process(At(held, 0, GetKey(0, KeyTestLock)), x), go);
    var locked := Change(held, 0, d.(lock := Some(0)));
    turns := More(hash, s, turns, Process(At(locked, 0, GetKey(0, KeyTest)), x), go);
    assert locked.coffers[0 := locked.coffers[0].(lock := None)] == s.coffers;
    turns := More(hash, s, turns, Process(At(held, 0, GetKey(0, KeyMake)), x), go);
    var keyed := held.(coffers := both, key := 1);
    turns := More(hash, s, turns, Process(At(keyed, 0, GetKey(1, KeyLeave)), x), go);
    var free := keyed.(mutex := None);
    turns := More(hash, s, turns, Process(At(free, 0, View(1, ViewLock)), x), go);
    var viewing := Change(free, 1, made.(lock := Some(0)));
    assert viewing.coffers == Viewing(hash, s).coffers;
    turns := More(hash, s, turns, Process(At(viewing, 0, View(1, ViewCheck)), x), go);
    assert viewing.coffers[1 := viewing.coffers[1]] == viewing.coffers;
  }

  /** The sweep takes the left partition from under the view. */
  lemma Tear(hash: Hash, s: State) returns (turns: seq<Turn>)
    requires Initial(s) && |s.pcs| >= 1
    ensures Permitted(turns, true, true) && Tears(hash, s, turns, 0)
  {
    hide RunTurns, Permitted, Xor;
    var v, x, go := Viewing(hash, s), Exit(Pick(Idle)), Thread(Move(0, Pick(Idle)));
    turns := ExitFirst(hash, s);
    turns := MakesKey(hash, s, turns);
    turns := More(hash, s, turns, Process(v, ExitCopy), x);
    turns := More(hash, s, turns, Process(v, ExitSweep(2)), x);
    var torn := Change(v, 1, Kill(v.coffers[1], 0));
    assert !AllGone(v.coffers[1]);
    turns := More(hash, s, turns, Process(torn, ExitSweep(2)), go);
    assert torn.coffers[1 := torn.coffers[1]] == torn.coffers;
    turns := More(hash, s, turns, Process(At(torn, 0, View(1, ViewLoop(hash(ZERO), []))), ExitSweep(2)), go);
  }

  /** A view can be torn if and only if `Exit` runs and some thread asks for a key. */
  lemma TornViewIff(hash: Hash, s: State, exits: bool, makes: bool)
    requires Initial(s) && |s.pcs| >= 1
    ensures (exists turns, t: nat :: Permitted(turns, exits, makes) && Tears(hash, s, turns, t)) <==> exits && makes
  {
    if exits && makes {
      var turns := Tear(hash, s);
      assert Permitted(turns, exits, makes) && Tears(hash, s, turns, 0);
    } else {
      forall turns, t: nat | Permitted(turns, exits, makes)
        ensures !Tears(hash, s, turns, t)
      {
        hide RunTurns, Inv, Permitted;
        var end := RunTurns(hash, Process(s, ExitGet), turns).s;
        if !exits {
          SafeWithoutExit(hash, s, turns, makes);
          if t < |end.pcs| {
            NotCrashed(hash, end, t);
          }
        } else {
          SafeWithoutKey(hash, s, turns, exits);
          assert t < |end.pcs| ==> Resting(end.pcs[t]);
        }
      }
    }
  }
}
