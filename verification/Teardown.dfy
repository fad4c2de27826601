/** Tearing a session down: `Purge` under failing system calls and corrupted canaries, and `Exit`. */
module Teardown {
  import opened Bytes
  import opened BufferSpec
  import opened Buffers
  import opened Crypto
  import opened Registry
  import opened Pools
  import opened Core
  import opened SessionSpec

  /** The answers of the operating system while one buffer is purged. */
  datatype PurgeCalls = PurgeCalls(destroy: SystemCalls, wipe: bool)

  const PURGE_GRANTED := PurgeCalls(GRANTED, true)

  datatype PurgeResult = Purged | Panicked(errors: seq<Failure>) | Deadlocked

  /** The error of the destruction, told from the state and the answers before it. */
  function FateOf(s: Guarded, os: PurgeCalls): Option<Failure>
    requires WellFormed(s)
  {
    Fate(s.alive, s.alive && Intact(s), os.destroy)
  }

  predicate Fails(s: Guarded, os: PurgeCalls)
    requires WellFormed(s)
  {
    FateOf(s, os).Some?
  }

  lemma FateIs(s: Guarded, os: PurgeCalls)
    requires WellFormed(s)
    ensures BufferSpec.Destroy(s, os.destroy).1 == FateOf(s, os)
    ensures Fails(s, os) <==> BufferSpec.Destroy(s, os.destroy).1.Some?
  {
    hide Intact, At, BufferSpec.Destroy;
    DestroyOutcome(s, os.destroy);
  }

  /** What Purge makes of one buffer: destroyed, or else wiped if its pages can be opened. */
  function PurgeOne(s: Guarded, os: PurgeCalls): Guarded
    requires WellFormed(s)
  {
    var (t, e) := BufferSpec.Destroy(s, os.destroy);
    if e.None? then t
    else
      DestroyKeepsWellFormed(s, os.destroy);
      if t.mutable then WithData(t, Zeros(t.data.len))
      else if os.wipe then WithData(t.(mid := ReadWrite), Zeros(t.data.len))
      else t
  }

  lemma DestroyKeepsWellFormed(s: Guarded, os: SystemCalls)
    requires WellFormed(s)
    ensures var (t, e) := BufferSpec.Destroy(s, os); WellFormed(t) && (e.Some? ==> t.alive && t.data == s.data)
  {
  }

  /**
   * What a purge leaves of one buffer: nothing, if it could be destroyed; else the same buffer with its data zeroed, or
   * exactly as it was when both requests to open its frozen pages were refused.
   */
  lemma PurgeOneLeavesNoSecret(s: Guarded, os: PurgeCalls)
    requires WellFormed(s)
    ensures var t := PurgeOne(s, os);
            && WellFormed(t)
            && (t == DEAD <==> !s.alive || !Fails(s, os))
            && (t.alive && Data(t) != Zeros(t.data.len) ==>
                  t == s && !s.mutable && !os.destroy.protect && !os.wipe)
            && (s.alive && !s.mutable && !os.destroy.protect && !os.wipe ==> t == s)
            && (t.alive ==> t.data == s.data && (t != s ==> t.mid == ReadWrite))
  {
    hide Intact, BufferSpec.Destroy;
    DestroyOutcome(s, os.destroy);
    DestroyKeepsWellFormed(s, os.destroy);
  }

  /** Purging a destroyed buffer again does nothing. */
  lemma SecondTurn(s: Guarded, os: PurgeCalls, again: PurgeCalls)
    requires WellFormed(s) && !Fails(s, os)
    ensures PurgeOne(s, os) == DEAD == PurgeOne(DEAD, again) && !Fails(DEAD, again)
  {
    PurgeOneLeavesNoSecret(s, os);
  }

  /** One round of the loop: destroy, and on failure wipe what can be opened. */
  method PurgeBuffer(b: Buffer, os: PurgeCalls) returns (e: Option<Failure>)
    requires b.Valid()
    modifies b, b.memory
    ensures b.Valid() && (b.memory == old(b.memory) || b.memory == null)
    ensures e.Some? <==> Fails(old(b.State()), os)
    ensures e == BufferSpec.Destroy(old(b.State()), os.destroy).1
    ensures b.State() == PurgeOne(old(b.State()), os)
  {
    hide BufferSpec.Destroy;
    DestroyKeepsWellFormed(b.State(), os.destroy);
    e := b.Destroy(os.destroy);
    if e.None? {
      return;
    }
    if !b.mutable {
      if !os.wipe {
        return;
      }
      b.mid := ReadWrite;
    }
    Wipe(b.memory, b.data.off, b.data.End());
  }

  /** The errors among the ends of some destructions, in order. */
  function Errors(es: seq<Option<Failure>>): (errors: seq<Failure>)
    ensures errors == [] <==> forall i :: 0 <= i < |es| ==> es[i].None?
  {
    if es == [] then []
    else Errors(es[..|es| - 1]) + if es[|es| - 1].Some? then [es[|es| - 1].value] else []
  }

  /** The place where Purge meets `x` first. */
  ghost function First<T>(s: seq<T>, x: T): (i: nat)
    requires x in s
    ensures i < |s| && s[i] == x && x !in s[..i]
  {
    if s[0] == x then 0 else 1 + First(s[1..], x)
  }

  lemma FirstUnique<T>(s: seq<T>, i: nat)
    requires i < |s| && s[i] !in s[..i]
    ensures First(s, s[i]) == i
  {
  }

  /** How far Purge has come: the buffers, the locks it holds until it returns, the errors, and whether it hangs. */
  datatype Progress<!T> = Progress(states: map<T, Guarded>, held: set<T>, errors: seq<Failure>, blocked: bool)

  ghost predicate Ready<T>(states: map<T, Guarded>, list: seq<T>) {
    forall b :: b in list ==> b in states && WellFormed(states[b])
  }

  /** One round. Locking a buffer whose lock is held already blocks for ever. */
  function Turn<T>(p: Progress<T>, b: T, os: PurgeCalls): (q: Progress<T>)
    requires b in p.states && WellFormed(p.states[b])
    ensures q.states.Keys == p.states.Keys && WellFormed(q.states[b])
    ensures forall c :: c in p.states && c != b ==> q.states[c] == p.states[c]
  {
    PurgeOneLeavesNoSecret(p.states[b], os);
    if p.blocked || b in p.held then p.(blocked := true)
    else
      var e := BufferSpec.Destroy(p.states[b], os.destroy).1;
      Progress(p.states[b := PurgeOne(p.states[b], os)],
               if e.Some? then p.held + {b} else p.held,
               if e.Some? then p.errors + [e.value] else p.errors,
               false)
  }

  lemma TurnBlocks<T>(p: Progress<T>, b: T, os: PurgeCalls)
    requires b in p.states && WellFormed(p.states[b])
    ensures Turn(p, b, os).blocked == (p.blocked || b in p.held)
  {
  }

  /** The first `n` rounds over the flushed list. */
  function Turns<T>(states: map<T, Guarded>, list: seq<T>, os: seq<PurgeCalls>, n: nat): (p: Progress<T>)
    requires n <= |list| == |os| && Ready(states, list)
    ensures Ready(p.states, list)
  {
    if n == 0 then Progress(states, {}, [], false)
    else
      var p := Turns(states, list, os, n - 1);
      Turn(p, list[n - 1], os[n - 1])
  }

  /** `b` fails to be destroyed where Purge meets it first. */
  ghost predicate FailsAtFirst<T>(states: map<T, Guarded>, list: seq<T>, os: seq<PurgeCalls>, b: T)
    requires |list| == |os| && Ready(states, list) && b in list
  {
    Fails(states[b], os[First(list, b)])
  }

  /** Purge comes back to a buffer it could not destroy. */
  ghost predicate Revisits<T>(states: map<T, Guarded>, list: seq<T>, os: seq<PurgeCalls>, n: nat)
    requires n <= |list| == |os| && Ready(states, list)
  {
    exists i :: 0 <= i < n && list[i] in list[..i] && FailsAtFirst(states, list, os, list[i])
  }

  /** What is known after `n` rounds that did not hang. */
  ghost predicate Done<T>(states: map<T, Guarded>, list: seq<T>, os: seq<PurgeCalls>, n: nat, p: Progress<T>)
    requires n <= |list| == |os| && Ready(states, list) && Ready(p.states, list)
  {
    && (forall b :: b in list ==>
          p.states[b] == if b in list[..n] then PurgeOne(states[b], os[First(list, b)]) else states[b])
    && (forall b :: b in p.held ==> b in list[..n] && FailsAtFirst(states, list, os, b))
    && (forall b :: b in list[..n] ==> (FailsAtFirst(states, list, os, b) ==> b in p.held))
    && (p.errors == [] <==> p.held == {})
  }

  lemma TurnDone<T>(states: map<T, Guarded>, list: seq<T>, os: seq<PurgeCalls>, n: nat, p: Progress<T>)
    requires n < |list| == |os| && Ready(states, list) && Ready(p.states, list)
    requires Done(states, list, os, n, p) && !p.blocked && list[n] !in p.held
    ensures Ready(Turn(p, list[n], os[n]).states, list)
    ensures Done(states, list, os, n + 1, Turn(p, list[n], os[n]))
  {
    hide PurgeOne, WellFormed, BufferSpec.Destroy, First, Fails;
    var b, p' := list[n], Turn(p, list[n], os[n]);
    FateIs(p.states[b], os[n]);
    assert list[..n + 1] == list[..n] + [b];
    assert Fails(p.states[b], os[n]) <==> b !in list[..n] && FailsAtFirst(states, list, os, b) by {
      if b in list[..n] {
        SecondTurn(states[b], os[First(list, b)], os[n]);
      } else {
        FirstUnique(list, n);
      }
    }
    assert p'.states[b] == PurgeOne(states[b], os[First(list, b)]) by {
      if b in list[..n] {
        SecondTurn(states[b], os[First(list, b)], os[n]);
      } else {
        FirstUnique(list, n);
      }
    }
    assert forall c :: c in list && c != b ==> p'.states[c] == p.states[c];
  }

  lemma RevisitsStep<T>(states: map<T, Guarded>, list: seq<T>, os: seq<PurgeCalls>, n: nat)
    requires n < |list| == |os| && Ready(states, list)
    ensures Revisits(states, list, os, n + 1) <==>
            Revisits(states, list, os, n) || (list[n] in list[..n] && FailsAtFirst(states, list, os, list[n]))
  {
  }

  lemma HeldMeansFailed<T>(
      states: map<T, Guarded>, list: seq<T>, os: seq<PurgeCalls>, n: nat, p: Progress<T>, b: T)
    requires n <= |list| == |os| && Ready(states, list) && Ready(p.states, list)
    requires Done(states, list, os, n, p) && b in list
    ensures b in p.held <==> b in list[..n] && FailsAtFirst(states, list, os, b)
  {
  }

  /**
   * After the loop: it hangs exactly when it revisits a buffer it could not destroy; otherwise every buffer got
   * its one turn, and there is an error to panic with exactly when some destruction failed.
   */
  lemma {:induction false} TurnsDone<T>(states: map<T, Guarded>, list: seq<T>, os: seq<PurgeCalls>, n: nat)
    requires n <= |list| == |os| && Ready(states, list)
    ensures var p := Turns(states, list, os, n);
            (p.blocked <==> Revisits(states, list, os, n)) && (!p.blocked ==> Done(states, list, os, n, p))
  {
    hide PurgeOne, WellFormed, BufferSpec.Destroy, First, FailsAtFirst, Turn;
    if n == 0 {
      assert list[..0] == [];
    } else {
      hide Revisits, Done, Turns;
      TurnsDone(states, list, os, n - 1);
      TurnsDoneStep(states, list, os, n - 1);
    }
  }

  lemma TurnsDoneStep<T>(states: map<T, Guarded>, list: seq<T>, os: seq<PurgeCalls>, n: nat)
    requires n < |list| == |os| && Ready(states, list)
    requires var p := Turns(states, list, os, n);
             (p.blocked <==> Revisits(states, list, os, n)) && (!p.blocked ==> Done(states, list, os, n, p))
    ensures var p := Turns(states, list, os, n + 1);
            (p.blocked <==> Revisits(states, list, os, n + 1)) && (!p.blocked ==> Done(states, list, os, n + 1, p))
  {
    var p, b := Turns(states, list, os, n), list[n];
    assert Turns(states, list, os, n + 1) == Turn(p, b, os[n]);
    TurnBlocks(p, b, os[n]);
    hide PurgeOne, WellFormed, BufferSpec.Destroy, First, FailsAtFirst, Turn, Revisits, Done, Turns;
    RevisitsStep(states, list, os, n);
    if !p.blocked {
      HeldMeansFailed(states, list, os, n, p, b);
      if b !in p.held {
        TurnDone(states, list, os, n, p);
      }
    }
  }

  /** Without duplicates in the list, Purge cannot hang. */
  lemma NoDuplicatesNoRevisit<T>(states: map<T, Guarded>, list: seq<T>, os: seq<PurgeCalls>)
    requires |list| == |os| && Ready(states, list) && NoDuplicates(list)
    ensures !Revisits(states, list, os, |list|)
  {
    forall i | 0 <= i < |list|
      ensures list[i] !in list[..i]
    {
    }
  }

  /** How the destructions of the first `n` buffers of the list end, told from the states before. */
  function Fates<T>(states: map<T, Guarded>, list: seq<T>, os: seq<PurgeCalls>, n: nat): seq<Option<Failure>>
    requires n <= |list| == |os| && Ready(states, list)
  {
    seq(n, i requires 0 <= i < n => FateOf(states[list[i]], os[i]))
  }

  /** Without duplicates the errors are those of all destructions that fail, in the order of the list. */
  lemma {:induction false} TurnsErrors<T>(states: map<T, Guarded>, list: seq<T>, os: seq<PurgeCalls>, n: nat)
    requires n <= |list| == |os| && Ready(states, list) && NoDuplicates(list)
    ensures var p := Turns(states, list, os, n);
            !p.blocked && p.errors == Errors(Fates(states, list, os, n))
            && forall i :: n <= i < |list| ==> list[i] !in p.held && p.states[list[i]] == states[list[i]]
  {
    hide PurgeOne, WellFormed, BufferSpec.Destroy, Turns, FateOf;
    if n == 0 {
      TurnsZero(states, list, os);
    } else {
      TurnsErrors(states, list, os, n - 1);
      TurnsNext(states, list, os, n - 1);
      FateIs(states[list[n - 1]], os[n - 1]);
      var es := Fates(states, list, os, n);
      assert es[..n - 1] == Fates(states, list, os, n - 1);
    }
  }

  /**
   * Purge of a list without duplicates, under any failures: it never hangs, it panics exactly when some
   * destruction failed, and afterwards each buffer is gone, or zeroed, or twice refused to be opened.
   */
  lemma PurgeOutcome<T>(states: map<T, Guarded>, list: seq<T>, os: seq<PurgeCalls>)
    requires |list| == |os| && Ready(states, list) && NoDuplicates(list)
    ensures var p := Turns(states, list, os, |list|);
            && !p.blocked
            && (p.errors == [] <==> forall i :: 0 <= i < |list| ==> !Fails(states[list[i]], os[i]))
            && p.errors == Errors(Fates(states, list, os, |list|))
            && forall i :: 0 <= i < |list| ==>
                 var s, t := states[list[i]], p.states[list[i]];
                 t == PurgeOne(s, os[i]) &&
                 (|| t == DEAD
                  || (t.alive && Data(t) == Zeros(t.data.len))
                  || (t == s && !s.mutable && !os[i].destroy.protect && !os[i].wipe))
  {
    hide PurgeOne, BufferSpec.Destroy, Turns, Turn, Fails, WellFormed, Data;
    var p := Turns(states, list, os, |list|);
    TurnsErrors(states, list, os, |list|);
    NoDuplicatesNoRevisit(states, list, os);
    TurnsDone(states, list, os, |list|);
    assert list[..|list|] == list;
    forall i | 0 <= i < |list|
      ensures First(list, list[i]) == i && list[i] !in list[..i]
    {
      FirstUnique(list, i);
    }
    forall i | 0 <= i < |list|
      ensures list[i] in p.held <==> Fails(states[list[i]], os[i])
      ensures p.states[list[i]] == PurgeOne(states[list[i]], os[i])
    {
      assert list[i] in list;
    }
    forall i | 0 <= i < |list|
      ensures var s, t := states[list[i]], p.states[list[i]];
              || t == DEAD
              || (t.alive && Data(t) == Zeros(t.data.len))
              || (t == s && !s.mutable && !os[i].destroy.protect && !os[i].wipe)
    {
      PurgeOneLeavesNoSecret(states[list[i]], os[i]);
      AliveOrDead(p.states[list[i]]);
    }
    if p.held != {} {
      var b :| b in p.held;
      var i :| 0 <= i < |list| && list[i] == b;
      assert Fails(states[list[i]], os[i]);
    }
  }

  lemma AliveOrDead(s: Guarded)
    requires WellFormed(s)
    ensures s.alive || s == DEAD
  {
  }

  ghost function StatesOf(bs: seq<Buffer>): map<Buffer, Guarded>
    reads bs, set b | b in bs :: b.memory
  {
    map b | b in bs :: b.State()
  }

  /** Every listed buffer is well formed, and distinct ones do not share memory. */
  ghost predicate Apart(bs: seq<Buffer>)
    reads bs, set b | b in bs :: b.memory
  {
    && (forall b :: b in bs ==> b.Valid())
    && (forall b, c :: b in bs && c in bs && b != c && b.memory != null ==> b.memory != c.memory)
  }

  function ResultOf<T>(p: Progress<T>): PurgeResult {
    if p.blocked then Deadlocked else if p.errors == [] then Purged else Panicked(p.errors)
  }

  lemma ApartIsReady(bs: seq<Buffer>)
    requires Apart(bs)
    ensures Ready(StatesOf(bs), bs)
  {
  }

  lemma TurnsZero<T>(states: map<T, Guarded>, list: seq<T>, os: seq<PurgeCalls>)
    requires |list| == |os| && Ready(states, list)
    ensures Turns(states, list, os, 0) == Progress(states, {}, [], false)
  {
  }

  lemma TurnsNext<T>(states: map<T, Guarded>, list: seq<T>, os: seq<PurgeCalls>, n: nat)
    requires n < |list| == |os| && Ready(states, list)
    ensures var p, q, b := Turns(states, list, os, n), Turns(states, list, os, n + 1), list[n];
            if p.blocked || b in p.held then q.blocked
            else
              var e := BufferSpec.Destroy(p.states[b], os[n].destroy).1;
              && !q.blocked && q.states == p.states[b := PurgeOne(p.states[b], os[n])]
              && q.held == (if e.Some? then p.held + {b} else p.held)
              && q.errors == if e.Some? then p.errors + [e.value] else p.errors
  {
    hide PurgeOne, WellFormed, BufferSpec.Destroy;
  }

  lemma {:induction false} StaysBlocked<T>(states: map<T, Guarded>, list: seq<T>, os: seq<PurgeCalls>, n: nat, m: nat)
    requires n <= m <= |list| == |os| && Ready(states, list) && Turns(states, list, os, n).blocked
    ensures Turns(states, list, os, m).blocked
    decreases m - n
  {
    hide PurgeOne, WellFormed, BufferSpec.Destroy, Turns;
    if n < m {
      StaysBlocked(states, list, os, n, m - 1);
      TurnsNext(states, list, os, m - 1);
    }
  }

  /** A round for one buffer of the list leaves the others alone. */
  method Round(ghost bs: seq<Buffer>, b: Buffer, os: PurgeCalls) returns (e: Option<Failure>)
    requires Apart(bs) && b in bs
    modifies b, b.memory
    ensures Apart(bs) && (b.memory == old(b.memory) || b.memory == null)
    ensures e == BufferSpec.Destroy(old(b.State()), os.destroy).1
    ensures b.State() == PurgeOne(old(b.State()), os)
    ensures forall c :: c in bs && c != b ==> c.State() == old(c.State())
  {
    hide PurgeOne, Buffer.State, BufferSpec.Destroy;
    e := PurgeBuffer(b, os);
  }

  /**
   * The loop of `Purge` over its snapshot, for any answers of the operating system. The lock on a buffer that
   * could not be destroyed is released only when the loop is over.
   */
  method PurgeSnapshot(snapshot: array<Buffer?>, ghost c: seq<Buffer>, os: seq<PurgeCalls>) returns (r: PurgeResult)
    requires snapshot.Length == |c| == |os| && forall j :: 0 <= j < |c| ==> snapshot[j] == c[j]
    requires Apart(c) && Ready(StatesOf(c), c)
    requires forall b :: b in c && b.memory != null ==> b.memory as object != snapshot
    modifies c, set b | b in c :: b.memory
    ensures var p := Turns(old(StatesOf(c)), c, os, |os|);
            && r == ResultOf(p)
            && (r != Deadlocked ==> Apart(c) && forall b :: b in c ==> b.State() == p.states[b])
  {
    hide PurgeOne, Buffer.State, Buffer.Valid, WellFormed, BufferSpec.Destroy, Apart, Turns;
    ghost var s := StatesOf(c);
    var errors: seq<Failure> := [];
    var held: set<Buffer> := {};
    TurnsZero(s, c, os);
    for i := 0 to snapshot.Length
      invariant Apart(c) && forall b :: b in c ==> b.memory == old(b.memory) || b.memory == null
      invariant var p := Turns(s, c, os, i); !p.blocked && held == p.held && errors == p.errors
      invariant forall b :: b in c ==> b.State() == Turns(s, c, os, i).states[b]
      invariant forall j :: 0 <= j < |c| ==> snapshot[j] == c[j]
    {
      var b := snapshot[i];
      TurnsNext(s, c, os, i);
      if b in held {
        StaysBlocked(s, c, os, i + 1, |os|);
        return Deadlocked;
      }
      var e := Round(c, b, os[i]);
      if e.Some? {
        errors := errors + [e.value];
        held := held + {b};
      }
    }
    r := if errors == [] then Purged else Panicked(errors);
  }

  /** `Purge` on the list: flush it, then go over what it held. */
  method PurgeList(list: BufferList, os: seq<PurgeCalls>) returns (r: PurgeResult)
    requires list.Valid() && |os| == |list.contents| && Apart(list.contents) && Ready(StatesOf(list.contents), list.contents)
    modifies list, list.contents, set b | b in list.contents :: b.memory
    ensures list.Valid() && list.contents == [] && fresh(list.backing)
    ensures var p := Turns(old(StatesOf(list.contents)), old(list.contents), os, |os|);
            && r == ResultOf(p)
            && (r != Deadlocked ==>
                  Apart(old(list.contents)) && forall b :: b in old(list.contents) ==> b.State() == p.states[b])
  {
    hide PurgeOne, Buffer.State, Buffer.Valid, WellFormed, BufferSpec.Destroy, Apart, Turns;
    ghost var c := list.contents;
    var snapshot := list.Flush();
    r := PurgeSnapshot(snapshot, c, os);
  }

  // ---------------------------------------------------------------- the session key after a purge with failures

  /** A live partition of a key: 32 writable bytes. */
  predicate IsPartition(s: Guarded) {
    WellFormed(s) && s.alive && s.mutable && s.data.len == 32
  }

  /** Partitions are never frozen, so one that resists its destruction is wiped for certain. */
  lemma PartitionPurged(s: Guarded, os: PurgeCalls)
    requires IsPartition(s)
    ensures var t := PurgeOne(s, os);
            WellFormed(t) && (t.alive <==> Fails(s, os)) && (t.alive ==> Data(t) == WIPED.left)
  {
    PurgeOneLeavesNoSecret(s, os);
    DestroyKeepsWellFormed(s, os.destroy);
    AliveOrDead(PurgeOne(s, os));
    if Fails(s, os) {
      assert PurgeOne(s, os).data == s.data;
    }
  }

  /**
   * What `destroyed` finds afterwards, and so whether the next use makes a new key: the key is gone exactly when at
   * least one of its two partitions was destroyed; otherwise both are left at 32 zeroes.
   */
  lemma KeyAfterPurge<T>(states: map<T, Guarded>, list: seq<T>, os: seq<PurgeCalls>, i: nat, j: nat)
    requires |list| == |os| && Ready(states, list) && NoDuplicates(list) && i < |list| && j < |list|
    requires IsPartition(states[list[i]]) && IsPartition(states[list[j]])
    ensures var p := Turns(states, list, os, |list|);
            var l, r := p.states[list[i]], p.states[list[j]];
            && (l.alive && r.alive <==> Fails(states[list[i]], os[i]) && Fails(states[list[j]], os[j]))
            && (l.alive && r.alive ==> WellFormed(l) && WellFormed(r) && Data(l) == WIPED.left && Data(r) == WIPED.right)
  {
    hide PurgeOne, BufferSpec.Destroy, Turns, Turn, Fails, WellFormed, Data;
    PurgeOutcome(states, list, os);
    PartitionPurged(states[list[i]], os[i]);
    PartitionPurged(states[list[j]], os[j]);
  }

  /** A healthy buffer with every call granted is destroyed. */
  lemma HealthyIsPurged(b: Buffer)
    requires b.Healthy()
    ensures PurgeOne(b.State(), PURGE_GRANTED) == DEAD && !Fails(b.State(), PURGE_GRANTED)
  {
    StepKeepsHealth(b.State(), OpDestroy(GRANTED));
  }

  lemma DeadIsHealthy(b: Buffer)
    requires b.Valid() && b.State() == DEAD
    ensures b.Healthy() && !b.alive && b.memory == null
  {
  }

  /** With every call granted, Purge destroys all of a list of healthy buffers. */
  lemma GrantedPurge(c: seq<Buffer>, os: seq<PurgeCalls>)
    requires Apart(c) && NoDuplicates(c) && Ready(StatesOf(c), c)
    requires |os| == |c| && forall i :: 0 <= i < |os| ==> os[i] == PURGE_GRANTED
    requires forall b :: b in c ==> b.Healthy()
    ensures var p := Turns(StatesOf(c), c, os, |os|);
            ResultOf(p) == Purged && forall b :: b in c ==> p.states[b] == DEAD
  {
    hide Buffer.State, Buffer.Healthy, PurgeOne, Fails, Turns, Apart;
    PurgeOutcome(StatesOf(c), c, os);
    forall b | b in c
      ensures PurgeOne(b.State(), PURGE_GRANTED) == DEAD && !Fails(b.State(), PURGE_GRANTED)
    {
      HealthyIsPurged(b);
    }
  }

  lemma PoolIsReady(pool: Pool)
    requires pool.Valid()
    ensures var c := pool.list.contents;
            && pool.list.Valid() && NoDuplicates(c) && Apart(c) && Ready(StatesOf(c), c)
            && forall b :: b in c ==> StatesOf(c)[b] == b.State()
  {
    hide Buffer.State, Buffer.Healthy, Buffer.Bytes;
    var c := pool.list.contents;
    forall b | b in c ensures b.Valid() { HealthyIsValid(b); }
    ApartIsReady(c);
  }

  /** Both partitions of a live key are on the list, and they are partitions. */
  lemma KeyIsListed(s: Session)
    requires s.Valid() && s.key.Alive()
    ensures var c := s.pool.list.contents;
            && s.key.left in c && s.key.right != null && s.key.right in c
            && IsPartition(s.key.left.State()) && IsPartition(s.key.right.State())
            && s.key.left.Valid() && s.key.right.Valid()
            && WellFormed(s.key.left.State()) && WellFormed(s.key.right.State())
  {
    hide Buffer.Bytes;
    s.pool.LiveIsListed(s.key.left);
    s.pool.LiveIsListed(s.key.right);
  }

  /** `Purge` of a pool whose system calls succeed: every buffer is destroyed and the list is empty. */
  method PurgePool(pool: Pool)
    requires pool.Valid()
    modifies pool.list, pool.list.contents, set b | b in pool.list.contents :: b.memory
    ensures pool.Valid() && pool.list.contents == []
    ensures forall b :: b in pool.all ==> !b.alive
    ensures fresh(pool.list.backing)
  {
    hide Buffer.State, Buffer.Healthy, Buffer.Bytes, Turns, Ready, StatesOf;
    ghost var c := pool.list.contents;
    var os := seq(pool.list.n, _ => PURGE_GRANTED);
    PoolIsReady(pool);
    GrantedPurge(c, os);
    var r := PurgeList(pool.list, os);
    forall b | b in c ensures b.Healthy() && !b.alive && b.memory == null {
      DeadIsHealthy(b);
    }
  }

  lemma HealthyIsValid(b: Buffer)
    requires b.Healthy()
    ensures b.Valid()
  {
  }

  /** The session after `Purge`: no key, no live buffer, an empty list. */
  method Purge(s: Session)
    requires s.Valid()
    modifies s.pool.list, s.pool.list.contents, set b | b in s.pool.list.contents :: b.memory
    ensures s.Valid() && s.key == old(s.key) && s.key.Held() == None
    ensures s.pool.list.contents == [] && forall b :: b in s.pool.all ==> !b.alive
  {
    hide Buffer.State, Buffer.Healthy, Buffer.Bytes;
    PurgePool(s.pool);
    if s.key.left != null {
      s.pool.DeadIsFreed(s.key.left);
      s.pool.DeadIsFreed(s.key.right);
      s.pool.DeadIsFreed(s.key.rand);
    }
  }

  /** `Open` with its panic: a ciphertext of invalid length purges the session before anything else happens. */
  method OpenOrPanic(s: Session, e: Enclave, scrambled: Parts) returns (r: Result<Buffer>, panicked: bool)
    requires s.Valid() && Lawful(s.cr)
    modifies s, s.pool, s.pool.list, s.pool.list.backing
    modifies s.pool.list.contents, set b | b in s.pool.list.contents :: b.memory
    ensures s.Valid() && (panicked <==> Size(e) < 1)
    ensures panicked ==> s.key.Held() == None && s.pool.list.contents == [] && forall b :: b in s.pool.all ==> !b.alive
    ensures !panicked ==>
              && s.Keyed(scrambled)
              && match OpenWith(s.cr, s.key.Held().value, e)
                 case Ok(p) =>
                   && r.Ok? && fresh(r.value) && s.User(r.value) && r.value.alive && r.value.Bytes() == p
                   && s.pool.list.contents == old(s.pool.list.contents) + [r.value] + s.KeyBuffers()
                 case Err(error) =>
                   && r == Err(error) && |s.pool.list.contents| == |old(s.pool.list.contents) + s.KeyBuffers()| + 2
                   && old(s.pool.list.contents) <= s.pool.list.contents
  {
    hide Session.Valid, Coffer.Held, Buffer.Bytes, Lawful, OpenWith, Ensure;
    if Size(e) < 1 {
      Purge(s);
      return Err(NullBuffer), true;
    }
    ghost var leaked;
    r, leaked := s.Open(e, scrambled);
    panicked := false;
  }

  /** `Purge` of a pool under any failures: each buffer is as its one turn left it. */
  method PurgePoolFailing(pool: Pool, os: seq<PurgeCalls>) returns (r: PurgeResult)
    requires pool.Valid() && |os| == |pool.list.contents|
    modifies pool.list, pool.list.contents, set b | b in pool.list.contents :: b.memory
    ensures pool.list.contents == [] && r != Deadlocked
    ensures var c := old(pool.list.contents);
            && (r == Purged <==> forall i :: 0 <= i < |c| ==> !Fails(old(c[i].State()), os[i]))
            && (r != Purged ==> r == Panicked(Errors(Fates(old(StatesOf(c)), c, os, |c|))))
            && forall i :: 0 <= i < |c| ==> c[i].Valid() && c[i].State() == PurgeOne(old(c[i].State()), os[i])
  {
    hide Buffer.State, Buffer.Healthy, Buffer.Valid, Buffer.Bytes, Turns, Ready, StatesOf, PurgeOne, Fails, Pool.Valid;
    ghost var c := pool.list.contents;
    PoolIsReady(pool);
    PurgeOutcome(StatesOf(c), c, os);
    r := PurgeList(pool.list, os);
    ApartIsValid(c);
    assert forall i :: 0 <= i < |c| ==> c[i] in c;
  }

  lemma ApartIsValid(c: seq<Buffer>)
    requires Apart(c)
    ensures forall i :: 0 <= i < |c| ==> c[i].Valid()
  {
  }

  /** The key in two buffers: there is one while both live. */
  ghost function KeyOf(l: Buffer, k: Buffer): Key
    reads l, k, l.memory, k.memory
  {
    if l.alive && k.alive && |l.Bytes()| == |k.Bytes()| == 32 then Some(Parts(l.Bytes(), k.Bytes())) else None
  }

  /** What the run model makes of a key in a purge. */
  function PurgeStep(cr: Primitives, key: Key, stuck: bool, resists: bool): Key {
    SessionSpec.Step(cr, World(key, stuck, [], []), SessionSpec.Purge(resists, _ => None)).key
  }

  lemma PurgeStepIs(cr: Primitives, key: Key, resists: bool)
    requires key.Some?
    ensures PurgeStep(cr, key, false, resists) == if resists then Some(WIPED) else None
    ensures PurgeStep(cr, key, true, resists) == key
  {
  }

  lemma PartitionHasBytes(b: Buffer)
    requires IsPartition(b.State()) && b.Valid()
    ensures b.alive && |b.Bytes()| == 32
  {
  }

  /**
   * `Purge` of a session with the live partitions `l` and `k`, under any failures. The key is gone, and the next use
   * makes a new one, exactly unless both partitions resisted their destruction; these are then wiped, and off the
   * list, out of the reach of later purges.
   */
  method PurgeSession(s: Session, ghost l: Buffer, ghost k: Buffer, os: seq<PurgeCalls>) returns (r: PurgeResult)
    requires s.Valid() && s.key.Alive() && s.key.left == l && s.key.right == k && |os| == |s.pool.list.contents|
    modifies s.pool.list, s.pool.list.contents, set b | b in s.pool.list.contents :: b.memory
    ensures s.pool.list.contents == [] && r != Deadlocked
    ensures l.Valid() && k.Valid() && l in old(s.pool.list.contents) && k in old(s.pool.list.contents)
    ensures WellFormed(old(l.State())) && WellFormed(old(k.State()))
    ensures var c := old(s.pool.list.contents);
            l.alive && k.alive <==> Fails(old(l.State()), os[First(c, l)]) && Fails(old(k.State()), os[First(c, k)])
    ensures l.alive && k.alive ==> l.Bytes() == WIPED.left && k.Bytes() == WIPED.right
    ensures var c := old(s.pool.list.contents);
            var resists := Fails(old(l.State()), os[First(c, l)]) && Fails(old(k.State()), os[First(c, k)]);
            KeyOf(l, k) == PurgeStep(s.cr, old(KeyOf(l, k)), false, resists)
  {
    hide Buffer.State, Buffer.Healthy, Buffer.Bytes, Buffer.Valid, Pool.Valid;
    hide PurgeOne, Fails, IsPartition, WellFormed, First, PurgeStep;
    ghost var c := s.pool.list.contents;
    KeyIsListed(s);
    PartitionHasBytes(l);
    PartitionHasBytes(k);
    PurgeStepIs(s.cr, KeyOf(l, k), true);
    PurgeStepIs(s.cr, KeyOf(l, k), false);
    PartitionPurged(l.State(), os[First(c, l)]);
    PartitionPurged(k.State(), os[First(c, k)]);
    r := PurgePoolFailing(s.pool, os);
    assert c[First(c, l)] == l && c[First(c, k)] == k;
    StateTells(l);
    StateTells(k);
  }

  /** A later purge, under any failures, over a list that the partitions have left: it does not meet them. */
  method LaterPurge(list: BufferList, cr: Primitives, ghost l: Buffer, ghost k: Buffer, os: seq<PurgeCalls>)
    returns (r: PurgeResult)
    requires list.Valid() && |os| == |list.contents| && Apart(list.contents) && Ready(StatesOf(list.contents), list.contents)
    requires l !in list.contents && k !in list.contents
    requires forall b :: b in list.contents && b.memory != null ==> b.memory != l.memory && b.memory != k.memory
    modifies list, list.contents, set b | b in list.contents :: b.memory
    ensures list.contents == [] && l.State() == old(l.State()) && k.State() == old(k.State())
    ensures old(KeyOf(l, k)).Some? ==>
              forall resists :: KeyOf(l, k) == PurgeStep(cr, old(KeyOf(l, k)), true, resists)
  {
    hide Buffer.State, Buffer.Valid, Buffer.Bytes, Apart, Ready, StatesOf, Turns;
    r := PurgeList(list, os);
  }

  lemma StateTells(b: Buffer)
    requires b.Valid()
    ensures b.alive == b.State().alive && WellFormed(b.State()) && b.Bytes() == Data(b.State())
  {
  }

  /** `Coffer.Destroy` on the key: its three buffers are destroyed and leave the list. */
  method DestroyKey(s: Session)
    requires s.Valid()
    modifies s.pool.list, s.pool.list.backing, s.key.repr
    ensures s.Valid() && s.key.Held() == None && s.pool.list.backing == old(s.pool.list.backing)
    ensures forall b :: b in s.pool.all ==> b.memory == old(b.memory) || b.memory == null
    ensures s.key.left == null ==> s.pool.list.contents == old(s.pool.list.contents)
    ensures s.key.left != null ==>
              s.pool.list.contents ==
              var l := RemoveFirst<Buffer>(old(s.pool.list.contents), s.key.left);
              RemoveFirst<Buffer>(RemoveFirst<Buffer>(l, s.key.right), s.key.rand)
  {
    hide Buffer.State, Buffer.Healthy, Buffer.Bytes, Pool.Valid, RemoveFirst;
    if s.key.left != null {
      s.pool.Destroy(s.key.left);
      s.pool.Destroy(s.key.right);
      s.pool.Destroy(s.key.rand);
    }
  }

  /** A nil partition counts as a dead one. */
  ghost function StateOf(b: Buffer?): Guarded
    reads b, if b == null then null else b.memory
  {
    if b == null then DEAD else b.State()
  }

  /** A partition that may be nil. */
  ghost predicate IsSound(b: Buffer?, list: BufferList)
    reads b, (if b == null then null else b.memory), list
  {
    WellFormed(StateOf(b)) && (b != null ==> b.Valid() && (b.memory == null || b.memory as object != list.backing))
  }

  ghost predicate Distinct(b: Buffer?, c: Buffer?)
    reads b, c
  {
    b != null && c != null ==> b != c && (b.memory == null || b.memory != c.memory)
  }

  function Unlist(list: seq<Buffer>, b: Buffer?, e: Option<Failure>): seq<Buffer> {
    if b != null && e.None? then RemoveFirst<Buffer>(list, b) else list
  }

  /** One partition in `Coffer.Destroy`: it leaves the list only if it was destroyed. */
  method DestroyPartition(list: BufferList, b: Buffer?, os: SystemCalls) returns (e: Option<Failure>)
    requires list.Valid() && IsSound(b, list)
    modifies list, list.backing, if b == null then {} else {b, b.memory}
    ensures list.Valid() && IsSound(b, list) && list.backing == old(list.backing)
    ensures b != null ==> b.memory == old(b.memory) || b.memory == null
    ensures (StateOf(b), e) == BufferSpec.Destroy(old(StateOf(b)), os)
    ensures list.contents == Unlist(old(list.contents), b, e)
  {
    hide Buffer.State, BufferSpec.Destroy, RemoveFirst;
    if b == null {
      DeadStaysDead(os);
      e := None;
      list.Remove(null);
      return;
    }
    e := b.Destroy(os);
    if e.None? {
      list.Remove(b);
    }
  }

  lemma DeadStaysDead(os: SystemCalls)
    ensures BufferSpec.Destroy(DEAD, os) == (DEAD, None)
  {
  }

  /** `Coffer.Destroy` under any failures: one partition after the other, nil ones included, all errors joined. */
  method DestroyPartitions(list: BufferList, l: Buffer?, r: Buffer?, m: Buffer?, os: seq<SystemCalls>)
    returns (errors: seq<Failure>)
    requires list.Valid() && IsSound(l, list) && IsSound(r, list) && IsSound(m, list) && |os| == 3
    requires Distinct(l, r) && Distinct(l, m) && Distinct(r, m)
    modifies list, list.backing, if l == null then {} else {l, l.memory}
    modifies if r == null then {} else {r, r.memory}
    modifies if m == null then {} else {m, m.memory}
    ensures list.Valid() && IsSound(l, list) && IsSound(r, list) && IsSound(m, list)
    ensures StateOf(l) == BufferSpec.Destroy(old(StateOf(l)), os[0]).0
    ensures StateOf(r) == BufferSpec.Destroy(old(StateOf(r)), os[1]).0
    ensures StateOf(m) == BufferSpec.Destroy(old(StateOf(m)), os[2]).0
    ensures var es := [BufferSpec.Destroy(old(StateOf(l)), os[0]).1, BufferSpec.Destroy(old(StateOf(r)), os[1]).1,
                       BufferSpec.Destroy(old(StateOf(m)), os[2]).1];
            && errors == Errors(es)
            && list.contents == Unlist(Unlist(Unlist(old(list.contents), l, es[0]), r, es[1]), m, es[2])
  {
    hide Buffer.State, Buffer.Valid, BufferSpec.Destroy, WellFormed, RemoveFirst, Errors, Unlist;
    var e1 := DestroyPartition(list, l, os[0]);
    var e2 := DestroyPartition(list, r, os[1]);
    var e3 := DestroyPartition(list, m, os[2]);
    errors := Errors([e1, e2, e3]);
  }

  /**
   * `Exit` up to the end of the process: each destruction shifts the list in place, but the loop runs over a
   * detached snapshot, so it meets every buffer and the list ends up empty.
   */
  method DestroyAll(pool: Pool)
    requires pool.Valid()
    modifies pool.list, pool.list.backing, pool.all, set b | b in pool.all :: b.memory
    ensures pool.Valid() && pool.list.contents == []
    ensures forall b :: b in pool.all ==> !b.alive
  {
    hide Buffer.State, Buffer.Healthy, Buffer.Bytes;
    ghost var c := pool.list.contents;
    var snapshot := pool.list.Snapshot();
    for i := 0 to snapshot.Length
      invariant pool.Valid() && pool.list.contents == c[i..] && pool.list.backing == old(pool.list.backing)
      invariant forall b :: b in pool.all ==> b.memory == old(b.memory) || b.memory == null
      invariant forall j :: 0 <= j < |c| ==> snapshot[j] == c[j]
    {
      assert c[i..] == [c[i]] + c[i + 1..];
      pool.Destroy(snapshot[i]);
    }
  }

  /** `Exit`: the key first, then every buffer that is left. */
  method Exit(s: Session)
    requires s.Valid()
    modifies s.pool.list, s.pool.list.backing, s.key.repr, s.pool.all, set b | b in s.pool.all :: b.memory
    ensures s.pool.Valid() && s.pool.list.contents == []
    ensures forall b :: b in s.pool.all ==> !b.alive
  {
    hide Buffer.State, Buffer.Healthy, Buffer.Bytes, Pool.Valid, RemoveFirst;
    DestroyKey(s);
    DestroyAll(s.pool);
  }
}
