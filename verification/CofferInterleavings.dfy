/**
 * Threads that view, rekey, initialise and destroy coffers, fetch the session key and purge, interleaved at every
 * byte of every loop: no view is torn and no partition is touched after its death. System calls succeed.
 */
module CofferInterleavings {
  import opened Bytes

  datatype Part = Gone | Here(bytes: Block)

  /** `value` is a history variable: what was last scrambled into the coffer. */
  datatype Coffer = Coffer(left: Part, right: Part, rand: Part, lock: Option<nat>, value: Block)

  type Hash = Bytes -> Block

  // Where a thread is inside an operation. The first stage of each waits for the lock of the coffer, the last gives it
  // back. Stages also remember, as history, the random bytes drawn and the right partition before a rekey.

  datatype ViewStage = ViewLock | ViewCheck | ViewHash | ViewLoop(h: Block, out: Bytes)

  datatype RekeyStage =
    | RekeyLock | RekeyCheck | RekeyScramble | RekeyHash(m: Block)
    | RekeyRight(h: Block, m: Block, was: Block, i: nat) | RekeyRehash(h: Block, m: Block, was: Block)
    | RekeyLeft(h: Block, k: Block, m: Block, was: Block, i: nat) | RekeyDone(m: Block, was: Block)

  datatype InitStage =
    | InitLock | InitCheck | InitLeft | InitRight(l: Block) | InitHash(l: Block, r: Block)
    | InitLoop(h: Block, l: Block, r: Block, i: nat) | InitDone(l: Block, r: Block)

  datatype DestroyStage = DestroyLock | DestroyLeft | DestroyRight | DestroyRand | DestroyDone

  datatype KeyStage = KeyTestLock | KeyTest | KeyMake | KeyLeave

  datatype PurgeStage = PurgeTestLock | PurgeTest | PurgeHold | PurgeSweep(locked: bool) | PurgeRelease

  datatype Pc =
    | Idle
    | Crashed                            // used a partition that is gone
    | Viewed(c: nat, out: Bytes, value: Block)   // the result of a view, and the coffer's value at its unlock
    | Expired(c: nat)                    // found the coffer destroyed, and is about to give back its lock
    | View(c: nat, view: ViewStage)
    | Rekey(c: nat, rekey: RekeyStage)
    | Init(c: nat, init: InitStage)
    | Destroy(c: nat, destroy: DestroyStage)
    | KeyLock                            // getOrCreateKey, before it has the key mutex
    | GetKey(c: nat, get: KeyStage)
    | PurgeLock                          // Purge, before it has the key mutex
    | Purge(c: nat, purge: PurgeStage)
    | PurgeLeave

  /** All coffers ever made, which one is the session key, who holds the key mutex, and the threads. */
  datatype State = State(coffers: seq<Coffer>, key: nat, mutex: Option<nat>, pcs: seq<Pc>)

  predicate AllHere(c: Coffer) { c.left.Here? && c.right.Here? && c.rand.Here? }

  predicate AllGone(c: Coffer) { c.left.Gone? && c.right.Gone? && c.rand.Gone? }

  /** `destroyed`: only the two partitions are looked at. */
  predicate Destroyed(c: Coffer) { c.left.Gone? || c.right.Gone? }

  /** The partitions combine to the value of the coffer. */
  predicate Whole(hash: Hash, c: Coffer) {
    AllHere(c) && Xor(hash(c.right.bytes), c.left.bytes) == c.value
  }

  /** A coffer nobody is working on: intact with the right value, or entirely gone. */
  predicate Settled(hash: Hash, c: Coffer) { Whole(hash, c) || AllGone(c) }

  // ---------------------------------------------------------------- steps on one coffer

  /** What the environment decides for one step: random bytes, the partition to sweep, the operation to begin. */
  datatype Choice = Choice(random: Block, other: Block, victim: nat, part: nat, begin: Pc)

  function Kill(c: Coffer, part: nat): Coffer {
    if part == 0 then c.(left := Gone) else if part == 1 then c.(right := Gone) else c.(rand := Gone)
  }

  /** Taking the lock, or waiting where the thread is. */
  function Take(t: nat, d: Coffer, pc: Pc, pc': Pc): (Coffer, Pc) {
    if d.lock.Some? then (d, pc) else (d.(lock := Some(t)), pc')
  }

  function ViewStep(hash: Hash, t: nat, c: nat, stage: ViewStage, d: Coffer): (Coffer, Pc) {
    match stage
    case ViewLock => Take(t, d, View(c, stage), View(c, ViewCheck))
    case ViewCheck => (d, if Destroyed(d) then Expired(c) else View(c, ViewHash))
    case ViewHash => (d, if d.right.Gone? then Crashed else View(c, ViewLoop(hash(d.right.bytes), [])))
    case ViewLoop(h, out) =>
      if |out| >= 32 then (d.(lock := None), Viewed(c, out, d.value))
      else (d, if d.left.Gone? then Crashed else View(c, ViewLoop(h, out + [h[|out|] ^ d.left.bytes[|out|]])))
  }

  function RekeyStep(hash: Hash, t: nat, c: nat, stage: RekeyStage, d: Coffer, random: Block): (Coffer, Pc) {
    match stage
    case RekeyLock => Take(t, d, Rekey(c, stage), Rekey(c, RekeyCheck))
    case RekeyCheck => (d, if Destroyed(d) then Expired(c) else Rekey(c, RekeyScramble))
    case RekeyScramble => if d.rand.Gone? then (d, Crashed) else (d.(rand := Here(random)), Rekey(c, RekeyHash(random)))
    case RekeyHash(m) =>
      (d, if d.right.Gone? then Crashed else Rekey(c, RekeyRight(hash(d.right.bytes), m, d.right.bytes, 0)))
    case RekeyRight(h, m, was, i) =>
      if i >= 32 then (d, Rekey(c, RekeyRehash(h, m, was)))
      else if d.right.Gone? || d.rand.Gone? then (d, Crashed)
      else
        (d.(right := Here(d.right.bytes[i := d.right.bytes[i] ^ d.rand.bytes[i]])), Rekey(c, RekeyRight(h, m, was, i + 1)))
    case RekeyRehash(h, m, was) =>
      (d, if d.right.Gone? then Crashed else Rekey(c, RekeyLeft(h, hash(d.right.bytes), m, was, 0)))
    case RekeyLeft(h, k, m, was, i) =>
      if i >= 32 then (d, Rekey(c, RekeyDone(m, was)))
      else if d.left.Gone? then (d, Crashed)
      else
        (d.(left := Here(d.left.bytes[i := d.left.bytes[i] ^ (h[i] ^ k[i])])), Rekey(c, RekeyLeft(h, k, m, was, i + 1)))
    case RekeyDone(_, _) => (d.(lock := None), Idle)
  }

  function InitStep(hash: Hash, t: nat, c: nat, stage: InitStage, d: Coffer, random: Block): (Coffer, Pc) {
    match stage
    case InitLock => Take(t, d, Init(c, stage), Init(c, InitCheck))
    case InitCheck => (d, if Destroyed(d) then Expired(c) else Init(c, InitLeft))
    case InitLeft =>
      if d.left.Gone? then (d, Crashed) else (d.(left := Here(random), value := random), Init(c, InitRight(random)))
    case InitRight(l) => if d.right.Gone? then (d, Crashed) else (d.(right := Here(random)), Init(c, InitHash(l, random)))
    case InitHash(l, r) => (d, if d.right.Gone? then Crashed else Init(c, InitLoop(hash(d.right.bytes), l, r, 0)))
    case InitLoop(h, l, r, i) =>
      if i >= 32 then (d, Init(c, InitDone(l, r)))
      else if d.left.Gone? then (d, Crashed)
      else (d.(left := Here(d.left.bytes[i := d.left.bytes[i] ^ h[i]])), Init(c, InitLoop(h, l, r, i + 1)))
    case InitDone(_, _) => (d.(lock := None), Idle)
  }

  function DestroyStep(t: nat, c: nat, stage: DestroyStage, d: Coffer): (Coffer, Pc) {
    match stage
    case DestroyLock => Take(t, d, Destroy(c, stage), Destroy(c, DestroyLeft))
    case DestroyLeft => (Kill(d, 0), Destroy(c, DestroyRight))
    case DestroyRight => (Kill(d, 1), Destroy(c, DestroyRand))
    case DestroyRand => (Kill(d, 2), Destroy(c, DestroyDone))
    case DestroyDone => (d.(lock := None), Idle)
  }

  /** A step that concerns one coffer and the thread alone. */
  predicate IsLocal(pc: Pc) {
    || pc.Expired? || pc.View? || pc.Rekey? || pc.Init? || pc.Destroy?
    || (pc.GetKey? && (pc.get.KeyTestLock? || pc.get.KeyTest?))
    || (pc.Purge? && !pc.purge.PurgeSweep?)
  }

  function LocalStep(hash: Hash, t: nat, pc: Pc, d: Coffer, random: Block): (Coffer, Pc)
    requires IsLocal(pc)
  {
    match pc
    case Expired(c) => (d.(lock := None), Idle)
    case View(c, stage) => ViewStep(hash, t, c, stage, d)
    case Rekey(c, stage) => RekeyStep(hash, t, c, stage, d, random)
    case Init(c, stage) => InitStep(hash, t, c, stage, d, random)
    case Destroy(c, stage) => DestroyStep(t, c, stage, d)
    case GetKey(c, stage) =>
      if stage.KeyTestLock? then Take(t, d, pc, GetKey(c, KeyTest))
      else (d.(lock := None), GetKey(c, if Destroyed(d) then KeyMake else KeyLeave))
    case Purge(c, stage) =>
      match stage
      case PurgeTestLock => Take(t, d, pc, Purge(c, PurgeTest))
      case PurgeTest => (d.(lock := None), Purge(c, if Destroyed(d) then PurgeSweep(false) else PurgeHold))
      case PurgeHold => Take(t, d, pc, Purge(c, PurgeSweep(true)))
      case PurgeRelease => (d.(lock := None), PurgeLeave)
  }

  // ---------------------------------------------------------------- steps of the whole

  predicate Beginning(s: State, pc: Pc) {
    || pc.KeyLock? || pc.PurgeLock?
    || (pc.View? && pc.view.ViewLock? && pc.c < |s.coffers|)
    || (pc.Rekey? && pc.rekey.RekeyLock? && pc.c < |s.coffers|)
    || (pc.Init? && pc.init.InitLock? && pc.c < |s.coffers|)
    || (pc.Destroy? && pc.destroy.DestroyLock? && pc.c < |s.coffers|)
  }

  predicate HasCoffer(pc: Pc) {
    pc.Expired? || pc.View? || pc.Rekey? || pc.Init? || pc.Destroy? || pc.GetKey? || pc.Purge?
  }

  predicate CanStep(s: State, t: nat) {
    t < |s.pcs| && s.key < |s.coffers| && (HasCoffer(s.pcs[t]) ==> s.pcs[t].c < |s.coffers|)
  }

  function At(s: State, t: nat, pc: Pc): State
    requires t < |s.pcs|
  {
    s.(pcs := s.pcs[t := pc])
  }

  /** One step of thread `t`; a thread that has to wait stays where it is. */
  function Step(hash: Hash, s: State, t: nat, ch: Choice): State
    requires CanStep(s, t)
  {
    var pc := s.pcs[t];
    if IsLocal(pc) then
      var (d, pc') := LocalStep(hash, t, pc, s.coffers[pc.c], ch.random);
      At(s.(coffers := s.coffers[pc.c := d]), t, pc')
    else
      match pc
      case Idle => if Beginning(s, ch.begin) then At(s, t, ch.begin) else s
      case Viewed(_, _, _) => At(s, t, Idle)
      case KeyLock => if s.mutex.Some? then s else At(s.(mutex := Some(t)), t, GetKey(s.key, KeyTestLock))
      case GetKey(c, stage) =>
        if stage.KeyMake? then
          // the new coffer is initialised before anyone else can see it
          var made := Coffer(Here(Xor(ch.random, hash(ch.other))), Here(ch.other), Here(ch.other), None, ch.random);
          At(s.(coffers := s.coffers + [made], key := |s.coffers|), t, GetKey(|s.coffers|, KeyLeave))
        else At(s.(mutex := None), t, View(c, ViewLock))
      case PurgeLock => if s.mutex.Some? then s else At(s.(mutex := Some(t)), t, Purge(s.key, PurgeTestLock))
      case Purge(c, stage) =>
        // the snapshot holds every live partition; they are destroyed one by one, in any order
        if forall d :: 0 <= d < |s.coffers| ==> AllGone(s.coffers[d])
        then At(s, t, if stage == PurgeSweep(true) then Purge(c, PurgeRelease) else PurgeLeave)
        else if ch.victim < |s.coffers| then s.(coffers := s.coffers[ch.victim := Kill(s.coffers[ch.victim], ch.part)])
        else s
      case PurgeLeave => At(s.(mutex := None), t, Idle)
      case _ => s
  }

  // ---------------------------------------------------------------- the invariant

  /** The thread holds the lock of its coffer. */
  predicate Locking(pc: Pc) {
    || pc.Expired?
    || (pc.View? && !pc.view.ViewLock?)
    || (pc.Rekey? && !pc.rekey.RekeyLock?)
    || (pc.Init? && !pc.init.InitLock?)
    || (pc.Destroy? && !pc.destroy.DestroyLock?)
    || (pc.GetKey? && pc.get.KeyTest?)
    || (pc.Purge? && (pc.purge.PurgeTest? || pc.purge.PurgeRelease? || pc.purge == PurgeSweep(true)))
  }

  /** The thread is inside the section guarded by the key mutex. */
  predicate HasMutex(pc: Pc) {
    pc.GetKey? || pc.Purge? || pc.PurgeLeave?
  }

  function Masked(mask: Byte, x: Byte): Byte {
    mask ^ x
  }

  predicate RekeyLocal(hash: Hash, stage: RekeyStage, d: Coffer) {
    match stage
    case RekeyLock => true
    case RekeyCheck => Settled(hash, d)
    case RekeyScramble => Whole(hash, d)
    case RekeyHash(m) => Whole(hash, d) && d.rand.bytes == m
    case RekeyRight(h, m, was, i) =>
      && AllHere(d) && i <= 32 && Xor(h, d.left.bytes) == d.value && d.rand.bytes == m
      && forall j :: 0 <= j < 32 ==> d.right.bytes[j] == if j < i then Masked(was[j], m[j]) else was[j]
    case RekeyRehash(h, m, was) => AllHere(d) && Xor(h, d.left.bytes) == d.value && Swapped(d, m, was)
    case RekeyLeft(h, k, m, was, i) =>
      && AllHere(d) && i <= 32 && k == hash(d.right.bytes) && Swapped(d, m, was)
      && forall j :: 0 <= j < 32 ==> d.value[j] == Masked(if j < i then k[j] else h[j], d.left.bytes[j])
    case RekeyDone(m, was) => Whole(hash, d) && Swapped(d, m, was)
  }

  /** The right partition is the former one under the new mask. */
  predicate Swapped(d: Coffer, m: Block, was: Block) {
    AllHere(d) && d.rand.bytes == m && d.right.bytes == Xor(was, m)
  }

  predicate InitLocal(hash: Hash, stage: InitStage, d: Coffer) {
    match stage
    case InitLock => true
    case InitCheck => Settled(hash, d)
    case InitLeft => AllHere(d)
    case InitRight(l) => AllHere(d) && d.left.bytes == d.value == l
    case InitHash(l, r) => AllHere(d) && d.left.bytes == d.value == l && d.right.bytes == r
    case InitLoop(h, l, r, i) =>
      && AllHere(d) && i <= 32 && h == hash(d.right.bytes) && d.value == l && d.right.bytes == r
      && forall j :: 0 <= j < 32 ==> d.value[j] == if j < i then Masked(h[j], d.left.bytes[j]) else d.left.bytes[j]
    case InitDone(l, r) => Whole(hash, d) && d.value == l && d.right.bytes == r
  }

  predicate ViewLocal(hash: Hash, stage: ViewStage, d: Coffer) {
    match stage
    case ViewLock => true
    case ViewCheck => Settled(hash, d)
    case ViewHash => Whole(hash, d)
    case ViewLoop(h, out) =>
      && Whole(hash, d) && h == hash(d.right.bytes)
      && |out| <= 32 && forall j :: 0 <= j < |out| ==> out[j] == d.value[j]
  }

  predicate DestroyLocal(hash: Hash, stage: DestroyStage, d: Coffer) {
    match stage
    case DestroyLock => true
    case DestroyLeft => Settled(hash, d)
    case DestroyRight => d.left.Gone?
    case DestroyRand => d.left.Gone? && d.right.Gone?
    case DestroyDone => AllGone(d)
  }

  /** What a thread may rely on about the coffer it works on. */
  predicate Local(hash: Hash, pc: Pc, d: Coffer) {
    match pc
    case Expired(_) => AllGone(d)
    case View(_, stage) => ViewLocal(hash, stage, d)
    case Rekey(_, stage) => RekeyLocal(hash, stage, d)
    case Init(_, stage) => InitLocal(hash, stage, d)
    case Destroy(_, stage) => DestroyLocal(hash, stage, d)
    case GetKey(_, stage) => (stage.KeyTest? ==> Settled(hash, d)) && (stage.KeyMake? ==> AllGone(d))
    case Purge(_, stage) =>
      && (stage.PurgeTest? ==> Settled(hash, d))
      && (stage == PurgeSweep(false) || stage.PurgeRelease? ==> AllGone(d))
    case _ => true
  }

  /** A thread at `pc` and the coffer `d` that it works on fit together. */
  predicate Fits(hash: Hash, t: nat, pc: Pc, d: Coffer) {
    && Local(hash, pc, d)
    && (Locking(pc) <==> d.lock == Some(t))
    && (d.lock == None ==> Settled(hash, d))
  }

  /** A step of `t` touches a coffer only under its lock, and never brings a partition back. */
  predicate CofferFramed(d: Coffer, d': Coffer, t: nat) {
    && (d' == d || d.lock == Some(t) || (d.lock == None && d' == d.(lock := Some(t))))
    && (d'.lock == d.lock || d'.lock == None || d'.lock == Some(t))
    && (AllGone(d) ==> AllGone(d'))
  }

  /** What a local step leads to. */
  predicate LocallyKept(hash: Hash, t: nat, pc: Pc, d: Coffer, pc': Pc, d': Coffer) {
    && CofferFramed(d, d', t) && Fits(hash, t, pc', d')
    && pc' != Crashed && (HasMutex(pc') <==> HasMutex(pc)) && (HasCoffer(pc) && HasCoffer(pc') ==> pc'.c == pc.c)
    && (pc'.Viewed? ==> pc'.out == pc'.value)
    && (pc'.PurgeLeave? ==> pc.Purge? && AllGone(d'))
  }

  // ---------------------------------------------------------------- local steps keep it

  lemma ViewKeeps(hash: Hash, t: nat, c: nat, stage: ViewStage, d: Coffer)
    requires Fits(hash, t, View(c, stage), d)
    ensures var (d', pc') := ViewStep(hash, t, c, stage, d);
            LocallyKept(hash, t, View(c, stage), d, pc', d')
  {
    hide Xor;
    if stage.ViewLoop? && |stage.out| < 32 {
      ViewByte(hash, d, stage.h, |stage.out|);
    }
  }

  lemma ViewByte(hash: Hash, d: Coffer, h: Block, i: nat)
    requires Whole(hash, d) && h == hash(d.right.bytes) && i < 32
    ensures h[i] ^ d.left.bytes[i] == d.value[i]
  {
  }

  lemma MaskedSwap(l: Byte, h: Byte, k: Byte)
    ensures Masked(k, l ^ (h ^ k)) == Masked(h, l)
    ensures Masked(k, l ^ k) == l
  {
    XorByteResplit(l, h, k);
    XorByteCancels(l, k);
  }

  lemma MaskedAll(h: Block, left: Block, value: Block)
    ensures (forall j :: 0 <= j < 32 ==> value[j] == Masked(h[j], left[j])) <==> Xor(h, left) == value
  {
  }

  lemma RekeyKeeps(hash: Hash, t: nat, c: nat, stage: RekeyStage, d: Coffer, random: Block)
    requires Fits(hash, t, Rekey(c, stage), d)
    ensures var (d', pc') := RekeyStep(hash, t, c, stage, d, random);
            LocallyKept(hash, t, Rekey(c, stage), d, pc', d')
  {
    hide Xor, Masked;
    if stage.RekeyRehash? {
      MaskedAll(stage.h, d.left.bytes, d.value);
    } else if stage.RekeyRight? {
      RekeyRightKeeps(hash, t, c, stage, d, random);
    } else if stage.RekeyLeft? {
      RekeyLeftKeeps(hash, t, c, stage, d, random);
    }
  }

  lemma RekeyRightKeeps(hash: Hash, t: nat, c: nat, stage: RekeyStage, d: Coffer, random: Block)
    requires Fits(hash, t, Rekey(c, stage), d) && stage.RekeyRight?
    ensures var (d', pc') := RekeyStep(hash, t, c, stage, d, random);
            LocallyKept(hash, t, Rekey(c, stage), d, pc', d')
  {
    if stage.i >= 32 {
      SwappedAll(stage.was, stage.m, d.right.bytes);
    }
  }

  lemma SwappedAll(was: Block, m: Block, right: Block)
    ensures (forall j :: 0 <= j < 32 ==> right[j] == Masked(was[j], m[j])) ==> right == Xor(was, m)
  {
  }

  lemma RekeyLeftKeeps(hash: Hash, t: nat, c: nat, stage: RekeyStage, d: Coffer, random: Block)
    requires Fits(hash, t, Rekey(c, stage), d) && stage.RekeyLeft?
    ensures var (d', pc') := RekeyStep(hash, t, c, stage, d, random);
            LocallyKept(hash, t, Rekey(c, stage), d, pc', d')
  {
    hide Xor, Masked;
    if stage.i < 32 {
      MaskedSwap(d.left.bytes[stage.i], stage.h[stage.i], stage.k[stage.i]);
    } else {
      MaskedAll(stage.k, d.left.bytes, d.value);
    }
  }

  lemma InitKeeps(hash: Hash, t: nat, c: nat, stage: InitStage, d: Coffer, random: Block)
    requires Fits(hash, t, Init(c, stage), d)
    ensures var (d', pc') := InitStep(hash, t, c, stage, d, random);
            LocallyKept(hash, t, Init(c, stage), d, pc', d')
  {
    hide Xor, Masked;
    if stage.InitLoop? {
      InitLoopKeeps(hash, t, c, stage, d, random);
    }
  }

  lemma InitLoopKeeps(hash: Hash, t: nat, c: nat, stage: InitStage, d: Coffer, random: Block)
    requires Fits(hash, t, Init(c, stage), d) && stage.InitLoop?
    ensures var (d', pc') := InitStep(hash, t, c, stage, d, random);
            LocallyKept(hash, t, Init(c, stage), d, pc', d')
  {
    hide Xor, Masked;
    if stage.i < 32 {
      MaskedSwap(d.left.bytes[stage.i], 0, stage.h[stage.i]);
    } else {
      MaskedAll(stage.h, d.left.bytes, d.value);
    }
  }

  lemma LocalStepKeeps(hash: Hash, t: nat, pc: Pc, d: Coffer, random: Block)
    requires IsLocal(pc) && Fits(hash, t, pc, d)
    ensures var (d', pc') := LocalStep(hash, t, pc, d, random);
            LocallyKept(hash, t, pc, d, pc', d')
  {
    hide Xor, ViewStep, RekeyStep, InitStep;
    match pc
    case View(c, stage) => ViewKeeps(hash, t, c, stage, d);
    case Rekey(c, stage) => RekeyKeeps(hash, t, c, stage, d, random);
    case Init(c, stage) => InitKeeps(hash, t, c, stage, d, random);
    case _ =>
  }

  // ---------------------------------------------------------------- the invariant of the whole

  predicate ThreadOk(hash: Hash, s: State, t: nat)
    requires t < |s.pcs|
  {
    var pc := s.pcs[t];
    && pc != Crashed
    && (pc.Viewed? ==> pc.out == pc.value)
    && (HasMutex(pc) <==> s.mutex == Some(t))
    && (HasMutex(pc) && HasCoffer(pc) ==> pc.c == s.key)
    && (pc.PurgeLeave? ==> s.key < |s.coffers| && AllGone(s.coffers[s.key]))
    && (HasCoffer(pc) ==> pc.c < |s.coffers| && Fits(hash, t, pc, s.coffers[pc.c]))
  }

  /** Thread `u` is inside a section guarded by the lock of coffer `c`. */
  predicate Holds(s: State, u: nat, c: nat) {
    u < |s.pcs| && HasCoffer(s.pcs[u]) && s.pcs[u].c == c && Locking(s.pcs[u])
  }

  predicate CofferOk(hash: Hash, s: State, c: nat)
    requires c < |s.coffers|
  {
    && (s.coffers[c].lock == None ==> Settled(hash, s.coffers[c]))
    && (s.coffers[c].lock.Some? ==> Holds(s, s.coffers[c].lock.value, c))
    && (c != s.key ==> AllGone(s.coffers[c]))
  }

  predicate CoffersOk(hash: Hash, s: State) {
    s.key < |s.coffers| && forall c :: 0 <= c < |s.coffers| ==> CofferOk(hash, s, c)
  }

  predicate Inv(hash: Hash, s: State) {
    CoffersOk(hash, s) && forall t :: 0 <= t < |s.pcs| ==> ThreadOk(hash, s, t)
  }

  // ---------------------------------------------------------------- every step keeps it

  /** All that a step of `t` may change for the other threads. */
  predicate Framed(s: State, s': State, t: nat)
    requires t < |s.pcs|
  {
    && |s.coffers| <= |s'.coffers| && |s'.pcs| == |s.pcs| && s'.pcs == s.pcs[t := s'.pcs[t]]
    && (forall c :: 0 <= c < |s.coffers| ==> CofferFramed(s.coffers[c], s'.coffers[c], t))
    && (s'.mutex == s.mutex || (s.mutex == None && s'.mutex == Some(t)) || (s.mutex == Some(t) && s'.mutex == None))
    && (s'.key == s.key || s.mutex == Some(t))
  }

  /** The part of the invariant a step of `t` has to bring about itself. */
  predicate Kept(hash: Hash, s: State, s': State, t: nat)
    requires t < |s.pcs|
  {
    Framed(s, s', t) && CoffersOk(hash, s') && ThreadOk(hash, s', t)
  }

  lemma OthersKeep(hash: Hash, s: State, s': State, t: nat, u: nat)
    requires t < |s.pcs| && u < |s.pcs| && u != t
    requires Inv(hash, s) && Framed(s, s', t) && CoffersOk(hash, s')
    ensures ThreadOk(hash, s', u)
  {
    hide Xor, Whole;
    assert ThreadOk(hash, s, u);
    var pc := s.pcs[u];
    assert s'.pcs[u] == pc;
    if HasCoffer(pc) {
      assert CofferOk(hash, s', pc.c);
      assert CofferFramed(s.coffers[pc.c], s'.coffers[pc.c], t);
    }
  }

  lemma KeptIsInvariant(hash: Hash, s: State, s': State, t: nat)
    requires t < |s.pcs| && Inv(hash, s) && Kept(hash, s, s', t)
    ensures Inv(hash, s')
  {
    hide CoffersOk, ThreadOk;
    forall u | 0 <= u < |s'.pcs|
      ensures ThreadOk(hash, s', u)
    {
      if u != t {
        OthersKeep(hash, s, s', t, u);
      }
    }
  }

  /** A step on one coffer leaves the others as they are; if the thread holds the lock, the coffer can count on it. */
  lemma OneCoffer(hash: Hash, s: State, t: nat, c: nat, d: Coffer, pc: Pc)
    requires t < |s.pcs| && Inv(hash, s) && c < |s.coffers|
    requires HasCoffer(s.pcs[t]) ==> s.pcs[t].c == c
    requires CofferFramed(s.coffers[c], d, t)
    requires d.lock == None ==> Settled(hash, d)
    requires d.lock == Some(t) ==> HasCoffer(pc) && pc.c == c && Locking(pc)
    ensures var s' := At(s.(coffers := s.coffers[c := d]), t, pc);
            Framed(s, s', t) && CoffersOk(hash, s')
  {
    hide Xor, Settled, ThreadOk, Fits, AllGone;
    var s' := At(s.(coffers := s.coffers[c := d]), t, pc);
    forall e | 0 <= e < |s'.coffers|
      ensures CofferOk(hash, s', e)
    {
      assert CofferOk(hash, s, e);
      assert CofferOk(hash, s, c);
    }
  }

  lemma LocalKeeps(hash: Hash, s: State, t: nat, ch: Choice)
    requires CanStep(s, t) && Inv(hash, s) && IsLocal(s.pcs[t])
    ensures Kept(hash, s, Step(hash, s, t, ch), t)
  {
    hide Xor, LocalStep, Local, Whole, CoffersOk, Framed;
    var pc := s.pcs[t];
    var d := s.coffers[pc.c];
    assert ThreadOk(hash, s, t);
    LocalStepKeeps(hash, t, pc, d, ch.random);
    var (d', pc') := LocalStep(hash, t, pc, d, ch.random);
    OneCoffer(hash, s, t, pc.c, d', pc');
  }

  /** Steps that leave every coffer as it is, of a thread that holds no lock before or after. */
  lemma SameCoffers(hash: Hash, s: State, s': State, t: nat)
    requires t < |s.pcs| && Inv(hash, s) && s'.coffers == s.coffers && s'.key == s.key
    requires |s'.pcs| == |s.pcs| && s'.pcs == s.pcs[t := s'.pcs[t]]
    requires !Locking(s.pcs[t])
    ensures CoffersOk(hash, s') && forall c :: 0 <= c < |s.coffers| ==> s.coffers[c].lock != Some(t)
  {
    hide Settled, AllGone, Locking, ThreadOk;
    forall c | 0 <= c < |s'.coffers|
      ensures CofferOk(hash, s', c) && s.coffers[c].lock != Some(t)
    {
      assert CofferOk(hash, s, c);
    }
  }

  predicate IsOutside(pc: Pc) {
    || pc.Idle? || pc.Viewed? || pc.KeyLock? || pc.PurgeLock? || pc.PurgeLeave?
    || (pc.GetKey? && pc.get.KeyLeave?)
  }

  /** Beginning and ending an operation, taking and giving back the key mutex. */
  lemma OutsideKeeps(hash: Hash, s: State, t: nat, ch: Choice)
    requires CanStep(s, t) && Inv(hash, s) && IsOutside(s.pcs[t])
    ensures Kept(hash, s, Step(hash, s, t, ch), t)
  {
    hide Settled, CoffersOk;
    assert ThreadOk(hash, s, t);
    var s' := Step(hash, s, t, ch);
    SameCoffers(hash, s, s', t);
    assert HasCoffer(s'.pcs[t]) ==> CofferOk(hash, s, s'.pcs[t].c) by { KeyOk(hash, s, s'.pcs[t]); }
  }

  lemma KeyOk(hash: Hash, s: State, pc: Pc)
    requires CoffersOk(hash, s)
    ensures s.key < |s.coffers|
    ensures HasCoffer(pc) && pc.c < |s.coffers| ==> CofferOk(hash, s, pc.c)
  {
  }

  lemma MakeKeeps(hash: Hash, s: State, t: nat, ch: Choice)
    requires CanStep(s, t) && Inv(hash, s) && s.pcs[t].GetKey? && s.pcs[t].get.KeyMake?
    ensures Kept(hash, s, Step(hash, s, t, ch), t)
  {
    hide Xor;
    var s' := Step(hash, s, t, ch);
    assert ThreadOk(hash, s, t);
    MadeIsWhole(hash, ch.random, ch.other);
    forall c | 0 <= c < |s'.coffers|
      ensures CofferOk(hash, s', c)
    {
      if c < |s.coffers| {
        assert CofferOk(hash, s, c);
      }
    }
  }

  lemma MadeIsWhole(hash: Hash, random: Block, other: Block)
    ensures Xor(hash(other), Xor(random, hash(other))) == random
  {
    XorCancels(random, hash(other));
  }

  lemma StayingKeeps(hash: Hash, s: State, t: nat)
    requires t < |s.pcs| && Inv(hash, s)
    ensures Kept(hash, s, s, t)
  {
  }

  /** The sweep of a purge meets only partitions of the session key, and those only under its lock. */
  lemma SweepKeeps(hash: Hash, s: State, t: nat, ch: Choice)
    requires CanStep(s, t) && Inv(hash, s) && s.pcs[t].Purge? && s.pcs[t].purge.PurgeSweep?
    ensures Kept(hash, s, Step(hash, s, t, ch), t)
  {
    hide Xor, Whole, Framed;
    var pc := s.pcs[t];
    assert ThreadOk(hash, s, t) && CofferOk(hash, s, pc.c);
    if forall d :: 0 <= d < |s.coffers| ==> AllGone(s.coffers[d]) {
      assert s.coffers[pc.c := s.coffers[pc.c]] == s.coffers;
      OneCoffer(hash, s, t, pc.c, s.coffers[pc.c], if pc.purge.locked then Purge(pc.c, PurgeRelease) else PurgeLeave);
    } else if ch.victim == s.key {
      assert s.pcs[t := pc] == s.pcs;
      OneCoffer(hash, s, t, s.key, Kill(s.coffers[s.key], ch.part), pc);
    } else {
      assert ch.victim < |s.coffers| ==> CofferOk(hash, s, ch.victim);
      assert Step(hash, s, t, ch) == s;
      StayingKeeps(hash, s, t);
    }
  }

  lemma StepKeeps(hash: Hash, s: State, t: nat, ch: Choice)
    requires CanStep(s, t) && Inv(hash, s)
    ensures Inv(hash, Step(hash, s, t, ch))
  {
    hide Inv, Step, Kept;
    var pc := s.pcs[t];
    if IsLocal(pc) {
      LocalKeeps(hash, s, t, ch);
    } else if pc.GetKey? && pc.get.KeyMake? {
      MakeKeeps(hash, s, t, ch);
    } else if pc.Purge? {
      SweepKeeps(hash, s, t, ch);
    } else {
      NotCrashed(hash, s, t);
      OutsideKeeps(hash, s, t, ch);
    }
    KeptIsInvariant(hash, s, Step(hash, s, t, ch), t);
  }

  lemma NotCrashed(hash: Hash, s: State, t: nat)
    requires t < |s.pcs| && Inv(hash, s)
    ensures ThreadOk(hash, s, t) && s.pcs[t] != Crashed
    ensures CanStep(s, t)
  {
  }

  // ---------------------------------------------------------------- whole runs

  /** The session starts without a key: the variable holds a coffer that was never made. */
  predicate Initial(s: State) {
    && s.key == 0 && |s.coffers| == 1 && AllGone(s.coffers[0]) && s.coffers[0].lock == None
    && s.mutex == None && forall t :: 0 <= t < |s.pcs| ==> s.pcs[t].Idle?
  }

  /** A move of a schedule: which thread runs next, and what is decided for it. */
  datatype Move = Move(thread: nat, choice: Choice)

  /** The state after running a schedule; turns given to threads that do not exist are skipped. */
  function After(hash: Hash, s: State, schedule: seq<Move>): State {
    if schedule == [] then s
    else
      var before := After(hash, s, schedule[..|schedule| - 1]);
      var move := schedule[|schedule| - 1];
      if CanStep(before, move.thread) then Step(hash, before, move.thread, move.choice) else before
  }

  lemma {:induction false} RunInvariant(hash: Hash, s: State, schedule: seq<Move>)
    requires Initial(s)
    ensures Inv(hash, After(hash, s, schedule))
  {
    hide Step, CanStep, Inv;
    if schedule == [] {
      InitialInv(hash, s);
    } else {
      RunInvariant(hash, s, schedule[..|schedule| - 1]);
      var before := After(hash, s, schedule[..|schedule| - 1]);
      var move := schedule[|schedule| - 1];
      if CanStep(before, move.thread) {
        StepKeeps(hash, before, move.thread, move.choice);
      }
    }
  }

  lemma InitialInv(hash: Hash, s: State)
    requires Initial(s)
    ensures Inv(hash, s)
  {
  }

  /** No thread ever uses a partition that is gone, and every view that completes shows exactly the coffer's value. */
  lemma {:induction false} NoTornView(hash: Hash, s: State, schedule: seq<Move>, t: nat)
    requires Initial(s) && t < |s.pcs|
    ensures var s' := After(hash, s, schedule);
            && t < |s'.pcs|
            && s'.pcs[t] != Crashed
            && (s'.pcs[t].Viewed? ==> s'.pcs[t].out == s'.pcs[t].value)
  {
    hide Inv, Step;
    RunInvariant(hash, s, schedule);
    SameThreads(hash, s, schedule);
    NotCrashed(hash, After(hash, s, schedule), t);
  }

  lemma {:induction false} SameThreads(hash: Hash, s: State, schedule: seq<Move>)
    requires Initial(s)
    ensures |After(hash, s, schedule).pcs| == |s.pcs|
  {
    if schedule != [] {
      SameThreads(hash, s, schedule[..|schedule| - 1]);
    }
  }

  /**
   * What every operation has done when it gives its lock back: an operation that found the coffer destroyed was right;
   * a rekey has XORed the scrambled mask into the right partition and kept the value; an init has set the value and
   * the right partition to what was scrambled; a destruction has left nothing of its coffer, and a purge of any.
   */
  lemma {:induction false} OperationsTakeEffect(hash: Hash, s: State, schedule: seq<Move>, t: nat)
    requires Initial(s) && t < |s.pcs|
    ensures var s' := After(hash, s, schedule);
            t < |s'.pcs| && TookEffect(hash, s', s'.pcs[t])
  {
    hide Step, Xor;
    RunInvariant(hash, s, schedule);
    SameThreads(hash, s, schedule);
    var s' := After(hash, s, schedule);
    NotCrashed(hash, s', t);
    if s'.pcs[t].PurgeLeave? {
      forall c | 0 <= c < |s'.coffers|
        ensures AllGone(s'.coffers[c])
      {
        assert CofferOk(hash, s', c);
      }
    }
  }

  predicate TookEffect(hash: Hash, s: State, pc: Pc) {
    && (HasCoffer(pc) ==> pc.c < |s.coffers|)
    && match pc
       case Expired(c) => AllGone(s.coffers[c])
       case Rekey(c, RekeyDone(m, was)) =>
         var d := s.coffers[c];
         Whole(hash, d) && d.rand.bytes == m && d.right.bytes == Xor(was, m)
       case Init(c, InitDone(l, r)) =>
         var d := s.coffers[c];
         Whole(hash, d) && d.value == l && d.right.bytes == r
       case Destroy(c, DestroyDone) => AllGone(s.coffers[c])
       case PurgeLeave => forall c :: 0 <= c < |s.coffers| ==> AllGone(s.coffers[c])
       case _ => true
  }

  /** An idle thread can begin any operation on any coffer; it then waits for its first lock. */
  lemma AnythingBegins(hash: Hash, s: State, t: nat, c: nat, random: Block, pc: Pc)
    requires t < |s.pcs| && s.pcs[t].Idle? && s.key < |s.coffers| && c < |s.coffers|
    requires pc in {View(c, ViewLock), Rekey(c, RekeyLock), Init(c, InitLock), Destroy(c, DestroyLock), KeyLock, PurgeLock}
    ensures CanStep(s, t) && Step(hash, s, t, Choice(random, random, 0, 0, pc)) == s.(pcs := s.pcs[t := pc])
  {
  }

  /** What a thread may turn to from `pc`: the rest of its operation, and only from the last stage to be idle. */
  predicate OnCourse(pc: Pc, pc': Pc) {
    match pc
    case Idle => true
    case Crashed => pc'.Crashed?
    case Viewed(_, _, _) => pc'.Idle?
    case Expired(_) => pc'.Idle?
    case View(c, _) => (pc'.View? && pc'.c == c) || pc' == Expired(c) || (pc'.Viewed? && pc'.c == c)
    case Rekey(c, stage) => (pc'.Rekey? && pc'.c == c) || pc' == Expired(c) || (stage.RekeyDone? && pc'.Idle?)
    case Init(c, stage) => (pc'.Init? && pc'.c == c) || pc' == Expired(c) || (stage.InitDone? && pc'.Idle?)
    case Destroy(c, stage) => (pc'.Destroy? && pc'.c == c) || (stage.DestroyDone? && pc'.Idle?)
    case KeyLock => pc'.KeyLock? || pc'.GetKey?
    case GetKey(_, stage) => pc'.GetKey? || (stage.KeyLeave? && pc' == View(pc.c, ViewLock))
    case PurgeLock => pc'.PurgeLock? || pc'.Purge?
    case Purge(c, _) => (pc'.Purge? && pc'.c == c) || pc'.PurgeLeave?
    case PurgeLeave => pc'.Idle?
  }

  /**
   * A thread never leaves an operation before its last stage. With `StepCounts` it gets there unless it waits, and
   * with `OperationsTakeEffect` it has then done its work.
   */
  lemma StaysOnCourse(hash: Hash, s: State, t: nat, ch: Choice)
    requires CanStep(s, t) && Inv(hash, s)
    ensures var s' := Step(hash, s, t, ch); |s'.pcs| == |s.pcs| && OnCourse(s.pcs[t], s'.pcs[t])
  {
    hide Xor, Whole;
    var pc := s.pcs[t];
    NotCrashed(hash, s, t);
    if IsLocal(pc) {
      LocalStaysOnCourse(hash, t, pc, s.coffers[pc.c], ch.random);
    }
  }

  lemma LocalStaysOnCourse(hash: Hash, t: nat, pc: Pc, d: Coffer, random: Block)
    requires IsLocal(pc) && Fits(hash, t, pc, d)
    ensures OnCourse(pc, LocalStep(hash, t, pc, d, random).1)
  {
    hide Xor, Whole, Masked, Swapped;
    LocalStepKeeps(hash, t, pc, d, random);
  }

  // ---------------------------------------------------------------- every step counts

  /** How many steps of its own a thread still has to make at most, the sweep of a purge counting as one. */
  function StepsLeft(pc: Pc): int {
    match pc
    case Idle => 0
    case Crashed => 0
    case Viewed(_, _, _) => 1
    case Expired(_) => 1
    case View(_, ViewLoop(_, out)) => 34 - |out|
    case View(_, stage) => if stage.ViewHash? then 35 else if stage.ViewCheck? then 36 else 37
    case Rekey(_, stage) =>
      (match stage
       case RekeyLock => 74
       case RekeyCheck => 73
       case RekeyScramble => 72
       case RekeyHash(_) => 71
       case RekeyRight(_, _, _, i) => 70 - i
       case RekeyRehash(_, _, _) => 37
       case RekeyLeft(_, _, _, _, i) => 36 - i
       case RekeyDone(_, _) => 1)
    case Init(_, stage) =>
      (match stage
       case InitLock => 41
       case InitCheck => 40
       case InitLeft => 39
       case InitRight(_) => 38
       case InitHash(_, _) => 37
       case InitLoop(_, _, _, i) => 36 - i
       case InitDone(_, _) => 1)
    case Destroy(_, stage) =>
      (match stage
       case DestroyLock => 5
       case DestroyLeft => 4
       case DestroyRight => 3
       case DestroyRand => 2
       case DestroyDone => 1)
    case KeyLock => 42
    case GetKey(_, stage) =>
      if stage.KeyTestLock? then 41 else if stage.KeyTest? then 40 else if stage.KeyMake? then 39 else 38
    case PurgeLock => 7
    case Purge(_, stage) =>
      (match stage
       case PurgeTestLock => 6
       case PurgeTest => 5
       case PurgeHold => 4
       case PurgeSweep(_) => 3
       case PurgeRelease => 2)
    case PurgeLeave => 1
  }

  /** The thread waits for a lock that is taken. */
  predicate Waiting(s: State, pc: Pc) {
    || ((pc.KeyLock? || pc.PurgeLock?) && s.mutex.Some?)
    || (HasCoffer(pc) && !Locking(pc) && pc.c < |s.coffers| && s.coffers[pc.c].lock.Some?
        && !(pc.GetKey? && !pc.get.KeyTestLock?) && !(pc.Purge? && !pc.purge.PurgeTestLock? && !pc.purge.PurgeHold?))
  }

  /** Something of some coffer is left for the sweep. */
  predicate Sweeping(s: State, pc: Pc) {
    pc.Purge? && pc.purge.PurgeSweep? && exists c :: 0 <= c < |s.coffers| && !AllGone(s.coffers[c])
  }

  /** A thread in an operation either waits for a lock or comes closer to the end; no step of it is idle. */
  lemma StepCounts(hash: Hash, s: State, t: nat, ch: Choice)
    requires CanStep(s, t) && Inv(hash, s) && !s.pcs[t].Idle? && !Sweeping(s, s.pcs[t])
    ensures var s' := Step(hash, s, t, ch);
            if Waiting(s, s.pcs[t]) then s' == s
            else |s'.pcs| == |s.pcs| && 0 <= StepsLeft(s'.pcs[t]) < StepsLeft(s.pcs[t])
  {
    hide Xor, Whole;
    var pc := s.pcs[t];
    assert ThreadOk(hash, s, t);
    if IsLocal(pc) {
      LocalStepKeeps(hash, t, pc, s.coffers[pc.c], ch.random);
      LocalStepCounts(hash, t, pc, s.coffers[pc.c], ch.random);
      assert s.pcs[t := s.pcs[t]] == s.pcs && s.coffers[pc.c := s.coffers[pc.c]] == s.coffers;
    }
  }

  predicate Counts(pc: Pc, d: Coffer, pc': Pc, d': Coffer) {
    if !Locking(pc) && d.lock.Some? then d' == d && pc' == pc
    else pc' != Crashed ==> 0 <= StepsLeft(pc') < StepsLeft(pc)
  }

  lemma ViewCounts(hash: Hash, t: nat, c: nat, stage: ViewStage, d: Coffer)
    requires Fits(hash, t, View(c, stage), d)
    ensures var (d', pc') := ViewStep(hash, t, c, stage, d);
            Counts(View(c, stage), d, pc', d')
  {
    hide Xor, Whole, Masked;
  }

  lemma RekeyCounts(hash: Hash, t: nat, c: nat, stage: RekeyStage, d: Coffer, random: Block)
    requires Fits(hash, t, Rekey(c, stage), d)
    ensures var (d', pc') := RekeyStep(hash, t, c, stage, d, random);
            Counts(Rekey(c, stage), d, pc', d')
  {
    hide Xor, Whole, Masked;
  }

  lemma InitCounts(hash: Hash, t: nat, c: nat, stage: InitStage, d: Coffer, random: Block)
    requires Fits(hash, t, Init(c, stage), d)
    ensures var (d', pc') := InitStep(hash, t, c, stage, d, random);
            Counts(Init(c, stage), d, pc', d')
  {
    hide Xor, Whole, Masked;
  }

  lemma LocalStepCounts(hash: Hash, t: nat, pc: Pc, d: Coffer, random: Block)
    requires IsLocal(pc) && Fits(hash, t, pc, d)
    ensures var (d', pc') := LocalStep(hash, t, pc, d, random); Counts(pc, d, pc', d')
  {
    hide Xor, Whole, ViewStep, RekeyStep, InitStep;
    match pc
    case View(c, stage) => ViewCounts(hash, t, c, stage, d);
    case Rekey(c, stage) => RekeyCounts(hash, t, c, stage, d, random);
    case Init(c, stage) => InitCounts(hash, t, c, stage, d, random);
    case _ =>
  }

  /** The thread has passed the check of `destroyed` and not yet given back the lock. */
  predicate Working(pc: Pc) {
    || (pc.View? && (pc.view.ViewHash? || pc.view.ViewLoop?))
    || (pc.Rekey? && !pc.rekey.RekeyLock? && !pc.rekey.RekeyCheck?)
    || (pc.Init? && !pc.init.InitLock? && !pc.init.InitCheck?)
  }

  /**
   * From the check to the unlock all three partitions are alive, at their 32 bytes, whatever the other threads do;
   * and no second thread is in such a section of the same coffer.
   */
  lemma {:induction false} PartitionsStayAlive(hash: Hash, s: State, schedule: seq<Move>, t: nat)
    requires Initial(s) && t < |s.pcs|
    ensures var s' := After(hash, s, schedule);
            && t < |s'.pcs|
            && (Working(s'.pcs[t]) ==>
                  && s'.pcs[t].c < |s'.coffers| && AllHere(s'.coffers[s'.pcs[t].c])
                  && forall u :: 0 <= u < |s'.pcs| && u != t && Working(s'.pcs[u]) ==> s'.pcs[u].c != s'.pcs[t].c)
  {
    hide Step, Whole;
    RunInvariant(hash, s, schedule);
    SameThreads(hash, s, schedule);
    var s' := After(hash, s, schedule);
    NotCrashed(hash, s', t);
    if Working(s'.pcs[t]) {
      WorkingHolds(hash, s', t);
    }
    forall u | 0 <= u < |s'.pcs| && Working(s'.pcs[u])
      ensures s'.pcs[u].c < |s'.coffers| && s'.coffers[s'.pcs[u].c].lock == Some(u)
    {
      NotCrashed(hash, s', u);
      WorkingHolds(hash, s', u);
    }
  }

  lemma WorkingHolds(hash: Hash, s: State, t: nat)
    requires t < |s.pcs| && ThreadOk(hash, s, t) && Working(s.pcs[t])
    ensures s.pcs[t].c < |s.coffers| && AllHere(s.coffers[s.pcs[t].c])
    ensures s.coffers[s.pcs[t].c].lock == Some(t)
  {
    hide Xor;
  }

  // ---------------------------------------------------------------- what the views of a coffer return

  /** No thread is inside `Init`, and no result of a view of `c` is still around. */
  predicate Quiet(s: State, c: nat) {
    forall t :: 0 <= t < |s.pcs| ==> !s.pcs[t].Init? && !(s.pcs[t].Viewed? && s.pcs[t].c == c)
  }

  predicate InitFree(schedule: seq<Move>) {
    forall m :: m in schedule ==> !m.choice.begin.Init?
  }

  /** Nobody initialises, coffer `c` has value `v`, and every result of a view of it was taken at that value. */
  predicate Fixed(s: State, c: nat, v: Block) {
    && c < |s.coffers| && s.coffers[c].value == v
    && forall t :: 0 <= t < |s.pcs| ==> !s.pcs[t].Init? && (s.pcs[t].Viewed? && s.pcs[t].c == c ==> s.pcs[t].value == v)
  }

  lemma StepKeepsFixed(hash: Hash, s: State, t: nat, ch: Choice, c: nat, v: Block)
    requires CanStep(s, t) && Fixed(s, c, v) && !ch.begin.Init?
    ensures Fixed(Step(hash, s, t, ch), c, v)
  {
    hide Xor;
    var pc := s.pcs[t];
    if IsLocal(pc) {
      assert !pc.Init?;
      var (d, pc') := LocalStep(hash, t, pc, s.coffers[pc.c], ch.random);
      assert d.value == s.coffers[pc.c].value && !pc'.Init? && (pc'.Viewed? ==> pc'.c == pc.c && pc'.value == d.value);
    }
  }

  lemma {:induction false} RunKeepsFixed(hash: Hash, s: State, schedule: seq<Move>, c: nat, v: Block)
    requires Inv(hash, s) && Fixed(s, c, v) && InitFree(schedule)
    ensures Inv(hash, After(hash, s, schedule)) && Fixed(After(hash, s, schedule), c, v)
  {
    hide Step, CanStep, Fixed, Inv;
    if schedule != [] {
      RunKeepsFixed(hash, s, schedule[..|schedule| - 1], c, v);
      var before := After(hash, s, schedule[..|schedule| - 1]);
      var move := schedule[|schedule| - 1];
      if CanStep(before, move.thread) {
        StepKeeps(hash, before, move.thread, move.choice);
        StepKeepsFixed(hash, before, move.thread, move.choice, c, v);
      }
    }
  }

  /** `x` can be seen of coffer `c`: a view of it returned `x`, or it is alive, unlocked and combines to `x`. */
  ghost predicate Shows(hash: Hash, s: State, c: nat, x: Bytes) {
    || (exists t :: 0 <= t < |s.pcs| && s.pcs[t].Viewed? && s.pcs[t].c == c && s.pcs[t].out == x)
    || (c < |s.coffers| && s.coffers[c].lock == None && AllHere(s.coffers[c])
        && x == Xor(hash(s.coffers[c].right.bytes), s.coffers[c].left.bytes))
  }

  lemma ShowsValue(hash: Hash, s: State, c: nat, v: Block, x: Bytes)
    requires Inv(hash, s) && Fixed(s, c, v) && Shows(hash, s, c, x)
    ensures x == v
  {
    hide Xor;
    if t :| 0 <= t < |s.pcs| && s.pcs[t].Viewed? && s.pcs[t].c == c && s.pcs[t].out == x {
      NotCrashed(hash, s, t);
    } else {
      assert CofferOk(hash, s, c);
    }
  }

  /**
   * Between two inits a coffer shows one value. Take any reachable state, and from there any two continuations in
   * which no init begins, however many rekeys, destructions and purges they interleave: all completed views of the
   * coffer and all readings of its unlocked partitions agree.
   */
  lemma ViewsAgree(
      hash: Hash, s: State, before: seq<Move>, first: seq<Move>, second: seq<Move>, c: nat, x: Bytes, y: Bytes)
    requires Initial(s) && InitFree(first) && InitFree(second)
    requires c < |After(hash, s, before).coffers| && Quiet(After(hash, s, before), c)
    requires Shows(hash, After(hash, After(hash, s, before), first), c, x)
    requires Shows(hash, After(hash, After(hash, s, before), second), c, y)
    ensures x == y
  {
    hide Inv, Shows, After;
    var now := After(hash, s, before);
    RunInvariant(hash, s, before);
    RunKeepsFixed(hash, now, first, c, now.coffers[c].value);
    RunKeepsFixed(hash, now, second, c, now.coffers[c].value);
    ShowsValue(hash, After(hash, now, first), c, now.coffers[c].value, x);
    ShowsValue(hash, After(hash, now, second), c, now.coffers[c].value, y);
  }
}
