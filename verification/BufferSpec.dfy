/** A guarded allocation as a value: its regions, page protections, lifecycle and canary check. */
module BufferSpec {
  import opened Bytes
  import opened Auxiliary
  import opened Crypto

  datatype Protection = NoAccess | ReadOnly | ReadWrite

  /** A slice of the allocation. All slices of one buffer alias the same memory. */
  datatype Window = Window(off: nat, len: nat) {
    function End(): nat { off + len }

    predicate Has(i: int) { off <= i < off + len }
  }

  datatype Guarded = Guarded(
    alive: bool, mutable: bool, memory: Bytes,
    data: Window, preguard: Window, inner: Window, postguard: Window, canary: Window,
    pre: Protection, mid: Protection, post: Protection)

  const NIL := Window(0, 0)

  /** A destroyed buffer, and also the null buffer: every field is cleared. */
  const DEAD := Guarded(false, false, [], NIL, NIL, NIL, NIL, NIL, NoAccess, NoAccess, NoAccess)

  function At(s: Guarded, w: Window): (b: Bytes)
    requires w.End() <= |s.memory|
    ensures |b| == w.len
  {
    s.memory[w.off..w.End()]
  }

  /** Guard page, then canary and data filling the inner pages, then guard page. */
  predicate Layout(s: Guarded) {
    && s.preguard.off == 0
    && s.inner == Window(s.preguard.len, s.inner.len)
    && s.postguard == Window(s.inner.End(), s.preguard.len)
    && |s.memory| == s.postguard.End()
    && s.canary.off == s.inner.off
    && s.data.off == s.canary.End()
    && s.data.End() == s.inner.End()
    && 1 <= s.data.len
    && s.canary.len < s.preguard.len
  }

  predicate WellFormed(s: Guarded) {
    if s.alive then Layout(s) && (s.mutable ==> s.mid == ReadWrite) else s == DEAD
  }

  function Data(s: Guarded): Bytes
    requires WellFormed(s)
  {
    At(s, s.data)
  }

  function WithData(s: Guarded, d: Bytes): (r: Guarded)
    requires s.alive && Layout(s) && |d| == s.data.len
    ensures Layout(r) && At(r, r.data) == d
  {
    s.(memory := Splice(s.memory, s.data.off, d))
  }

  /** The two guard pages agree, and the canary repeats their start. */
  predicate Intact(s: Guarded)
    requires Layout(s)
  {
    At(s, s.preguard) == At(s, s.postguard) && At(s, s.preguard)[..s.canary.len] == At(s, s.canary)
  }

  // ---------------------------------------------------------------- creation

  /** Zeroed memory, a canary in front of the data, and its copies at the start of both guard pages. */
  function FreshMemory(page: nat, size: nat, fill: Bytes): (m: Bytes)
    requires |fill| < page
    ensures |m| == 2 * page + |fill| + size
  {
    var end := page + |fill| + size;
    seq(end + page, j requires 0 <= j =>
      if j < |fill| then fill[j]
      else if page <= j < page + |fill| then fill[j - page]
      else if end <= j < end + |fill| then fill[j - end]
      else 0)
  }

  /** Zeroed memory with a canary becomes fresh memory by copying the canary to the start of both guards. */
  lemma FreshByCopies(page: nat, size: nat, fill: Bytes)
    requires |fill| < page
    ensures var m := Splice(Zeros(2 * page + |fill| + size), page, fill);
            var front := Splice(m, 0, fill);
            && m[page..page + |fill|] == fill && front[page..page + |fill|] == fill
            && Splice(front, page + |fill| + size, fill) == FreshMemory(page, size, fill)
  {
    var end := page + |fill| + size;
    var m := Splice(Zeros(2 * page + |fill| + size), page, fill);
    var front := Splice(m, 0, fill);
    assert m[page..page + |fill|] == fill;
    assert front[page..page + |fill|] == fill;
  }

  /** The state of a new buffer whose canary was filled with `fill`. */
  function Fresh(page: nat, size: nat, fill: Bytes): Guarded
    requires |fill| < page
  {
    var inner := |fill| + size;
    Guarded(
      true, true, FreshMemory(page, size, fill),
      Window(page + |fill|, size), Window(0, page), Window(page, inner), Window(page + inner, page), Window(page, |fill|),
      NoAccess, ReadWrite, NoAccess)
  }

  /** A new buffer whose canary is made of the given random bytes. */
  ghost predicate IsFresh(s: Guarded, page: nat, size: nat, random: nat -> Byte) {
    var n := RoundToPageSize(size, page) - size;
    0 <= n < page && s == Fresh(page, size, Drawn(n, random))
  }

  lemma FreshRegions(page: nat, size: nat, fill: Bytes)
    requires |fill| < page && size >= 1
    ensures var s := Fresh(page, size, fill);
            && WellFormed(s) && Intact(s) && Data(s) == Zeros(size)
            && At(s, s.canary) == At(s, s.preguard)[..|fill|] == At(s, s.postguard)[..|fill|] == fill
  {
    var s := Fresh(page, size, fill);
    var n := page + |fill| + size;
    assert s.memory[..page] == fill + Zeros(page - |fill|);
    assert s.memory[n..n + page] == fill + Zeros(page - |fill|);
    assert s.memory[page..page + |fill|] == fill;
    assert s.memory[page + |fill|..n] == Zeros(size);
  }

  /** A new buffer is laid out on whole pages, zeroed, intact and writable between closed guards. */
  lemma FreshIsSound(s: Guarded, page: nat, size: nat, random: nat -> Byte)
    requires IsPage(page) && size >= 1 && IsFresh(s, page, size, random)
    ensures WellFormed(s) && s.alive && Intact(s) && Agrees(s)
    ensures s.data.len == size && Data(s) == Zeros(size)
    ensures s.preguard.len == page && IsLeastMultiple(s.inner.len, size, page)
    ensures var n := s.inner.len - size;
            && s.canary.len == n <= page && At(s, s.canary) == Drawn(n, random)
            && At(s, s.preguard)[..n] == At(s, s.postguard)[..n] == Drawn(n, random)
  {
    hide RoundToPageSize, FreshMemory, Intact, At, IsPage, IsLeastMultiple, Drawn;
    RoundIsLeastMultiple(size, page);
    var n := RoundToPageSize(size, page) - size;
    RoundIsInner(page, size, n);
    FreshRegions(page, size, Drawn(n, random));
  }

  lemma RoundIsInner(page: nat, size: nat, n: int)
    requires page >= 1 && IsLeastMultiple(n + size, size, page)
    ensures n >= 0
  {
  }

  // ---------------------------------------------------------------- operations

  datatype SystemCalls = SystemCalls(protect: bool, unlock: bool, free: bool)

  const GRANTED := SystemCalls(true, true, true)

  datatype Failure = ProtectRefused | CanaryFailed | UnlockRefused | FreeRefused

  datatype Outcome = Done | Failed(error: Failure) | SegmentationFault | IndexOutOfRange

  /** All pages opened and the data zeroed. */
  function Exposed(s: Guarded): (r: Guarded)
    requires WellFormed(s) && s.alive
    ensures WellFormed(r) && r.alive
  {
    WithData(s.(mutable := true, pre := ReadWrite, mid := ReadWrite, post := ReadWrite), Zeros(s.data.len))
  }

  function Destroy(s: Guarded, os: SystemCalls): (Guarded, Option<Failure>)
    requires WellFormed(s)
  {
    if !s.alive then (s, None)
    else if !os.protect then (s, Some(ProtectRefused))
    else
      var wiped := Exposed(s);
      if !Intact(wiped) then (wiped, Some(CanaryFailed)) else Release(wiped, os)
  }

  /** The last phase of destruction: wipe the whole allocation, unlock it and give it back. */
  function Release(s: Guarded, os: SystemCalls): (r: (Guarded, Option<Failure>))
    requires WellFormed(s) && s.alive
    ensures WellFormed(r.0)
  {
    var blank := s.(memory := Zeros(|s.memory|));
    if !os.unlock then (blank, Some(UnlockRefused))
    else if !os.free then (blank, Some(FreeRefused))
    else (DEAD, None)
  }

  function Freeze(s: Guarded, granted: bool): (Guarded, Outcome) {
    if !s.alive || !s.mutable then (s, Done)
    else if !granted then (s, Failed(ProtectRefused))
    else (s.(mutable := false, mid := ReadOnly), Done)
  }

  function Melt(s: Guarded, granted: bool): (Guarded, Outcome) {
    if !s.alive || s.mutable then (s, Done)
    else if !granted then (s, Failed(ProtectRefused))
    else (s.(mutable := true, mid := ReadWrite), Done)
  }

  /** Storing `bytes` in the data region from `offset` on; the hardware checks the pages, nothing else does. */
  function Store(s: Guarded, offset: nat, bytes: Bytes): (Guarded, Outcome)
    requires WellFormed(s) && offset + |bytes| <= s.data.len
  {
    if |bytes| == 0 then (s, Done)
    else if s.mid != ReadWrite then (s, SegmentationFault)
    else (s.(memory := Splice(s.memory, s.data.off + offset, bytes)), Done)
  }

  function CopyAt(s: Guarded, offset: int, src: Bytes): (Guarded, Outcome)
    requires WellFormed(s)
  {
    if !s.alive then (s, Done)
    else if !(0 <= offset <= s.data.len) then (s, IndexOutOfRange)
    else Store(s, offset, src[..Min(s.data.len - offset, |src|)])
  }

  /** What a copy that is not stopped does, in one equation. */
  lemma CopyAtStores(s: Guarded, offset: nat, src: Bytes)
    requires WellFormed(s) && s.alive && offset <= s.data.len
    requires Min(s.data.len - offset, |src|) > 0 ==> s.mid == ReadWrite
    ensures s.data.off + offset + Min(s.data.len - offset, |src|) <= |s.memory|
    ensures var bytes := src[..Min(s.data.len - offset, |src|)];
            CopyAt(s, offset, src) == (s.(memory := Splice(s.memory, s.data.off + offset, bytes)), Done)
  {
    SpliceNothing(s.memory, s.data.off + offset);
  }

  /** A slice of the data region, as `Bytes` hands it out. */
  predicate InData(s: Guarded, from: nat, to: nat) {
    s.alive && s.data.off <= from <= to <= s.data.End()
  }

  /** A slice of the inner pages, as `Inner` hands it out: it may reach into the canary. */
  predicate InInner(s: Guarded, from: nat, to: nat) {
    s.alive && s.inner.off <= from <= to <= s.inner.End()
  }

  /** As `CopyAt` when the source is a slice of the buffer's own pages: the copy runs front to back over it. */
  function CopyWithin(s: Guarded, offset: int, from: nat, to: nat): (Guarded, Outcome)
    requires WellFormed(s) && InInner(s, from, to)
  {
    if !(0 <= offset <= s.data.len) then (s, IndexOutOfRange)
    else
      var n := Min(s.data.len - offset, to - from);
      if n == 0 then (s, Done)
      else if s.mid != ReadWrite then (s, SegmentationFault)
      else (s.(memory := Forward(s.memory, s.data.off + offset, from, n)), Done)
  }

  /** The move wipes its source afterwards, and what of the target lies in it. */
  function MoveWithin(s: Guarded, offset: int, from: nat, to: nat): (Guarded, Outcome)
    requires WellFormed(s) && InInner(s, from, to)
  {
    var (t, r) := CopyWithin(s, offset, from, to);
    if r != Done || from == to then (t, r)
    else if t.mid != ReadWrite then (t, SegmentationFault)
    else (t.(memory := Splice(t.memory, from, Zeros(to - from))), Done)
  }

  datatype Op =
    | OpCopyAt(offset: int, src: Bytes)
    | OpCopyWithin(offset: int, from: nat, to: nat)
    | OpMoveWithin(offset: int, from: nat, to: nat)
    | OpScramble(fill: nat -> Byte)
    | OpWipe
    | OpFreeze(granted: bool)
    | OpMelt(granted: bool)
    | OpDestroy(os: SystemCalls)

  function Step(s: Guarded, op: Op): (Guarded, Outcome)
    requires WellFormed(s)
  {
    match op
    case OpCopyAt(offset, src) => CopyAt(s, offset, src)
    case OpCopyWithin(offset, from, to) => if InInner(s, from, to) then CopyWithin(s, offset, from, to) else (s, Done)
    case OpMoveWithin(offset, from, to) => if InData(s, from, to) then MoveWithin(s, offset, from, to) else (s, Done)
    case OpScramble(fill) => Store(s, 0, Drawn(s.data.len, fill))
    case OpWipe => Store(s, 0, Zeros(s.data.len))
    case OpFreeze(granted) => Freeze(s, granted)
    case OpMelt(granted) => Melt(s, granted)
    case OpDestroy(os) =>
      var (s', e) := Destroy(s, os);
      (s', if e.None? then Done else Failed(e.value))
  }

  // ---------------------------------------------------------------- the canary

  /** Copies change the memory and nothing else. */
  lemma CopyKeepsRegions(s: Guarded, offset: int, src: Bytes, from: nat, to: nat)
    requires WellFormed(s)
    ensures CopyAt(s, offset, src).0 == s.(memory := CopyAt(s, offset, src).0.memory)
    ensures InInner(s, from, to) ==>
              CopyWithin(s, offset, from, to).0 == s.(memory := CopyWithin(s, offset, from, to).0.memory)
  {
  }

  lemma StepKeepsWellFormed(s: Guarded, op: Op)
    requires WellFormed(s)
    ensures WellFormed(Step(s, op).0)
  {
    hide Splice, Forward, Intact, At;
  }

  /** Two states with the same regions and the same bytes outside the data region pass the same check. */
  lemma SameCanary(s: Guarded, t: Guarded)
    requires Layout(s) && Layout(t)
    requires s.(memory := [], mutable := t.mutable, pre := t.pre, mid := t.mid, post := t.post) == t.(memory := [])
    requires |s.memory| == |t.memory|
    requires forall i :: 0 <= i < |s.memory| && !s.data.Has(i) ==> s.memory[i] == t.memory[i]
    ensures Intact(s) <==> Intact(t)
  {
    hide Intact, At;
    IntactBytes(s);
    IntactBytes(t);
  }

  /** Exactly when destruction reports an overflow: the wipe that precedes the check cannot influence it. */
  lemma CanaryCheckIsExact(s: Guarded, os: SystemCalls)
    requires WellFormed(s)
    ensures Destroy(s, os).1 == Some(CanaryFailed) <==> s.alive && os.protect && !Intact(s)
  {
    if s.alive && os.protect {
      SameCanary(s, Exposed(s));
    }
  }

  /** Granted or not, once the memory could be opened the secret is gone, whatever the canary says. */
  lemma DestroyWipesData(s: Guarded, os: SystemCalls)
    requires WellFormed(s) && os.protect
    ensures var s' := Destroy(s, os).0;
            && WellFormed(s')
            && Data(s') == Zeros(s'.data.len)
            && (s'.alive ==> s'.data == s.data)
            && (Destroy(s, os).1.Some? ==> s'.alive)
  {
    var s' := Destroy(s, os).0;
    if s'.alive {
      assert At(s', s.data) == Zeros(s.data.len);
    }
  }

  function Run(s: Guarded, ops: seq<Op>): Guarded
    requires WellFormed(s)
    decreases |ops|
  {
    if ops == [] then s
    else
      StepKeepsWellFormed(s, ops[0]);
      Run(Step(s, ops[0]).0, ops[1..])
  }

  /** `s` can still be destroyed without a canary error. */
  predicate Sound(s: Guarded) {
    WellFormed(s) && (s.alive ==> Intact(s))
  }

  lemma StoreKeepsIntact(s: Guarded, offset: nat, bytes: Bytes)
    requires Sound(s) && offset + |bytes| <= s.data.len
    ensures Sound(Store(s, offset, bytes).0)
  {
    hide Intact, At;
    var s' := Store(s, offset, bytes).0;
    if s.alive {
      SameCanary(s, s');
    }
  }

  lemma CopyWithinKeepsIntact(s: Guarded, offset: int, from: nat, to: nat)
    requires Sound(s) && InInner(s, from, to)
    ensures var s' := CopyWithin(s, offset, from, to).0; Sound(s') && s'.data == s.data
  {
    hide Intact, At, Forward, Origin;
    var s' := CopyWithin(s, offset, from, to).0;
    if 0 <= offset <= s.data.len {
      ForwardBytes(s.memory, s.data.off + offset, from, Min(s.data.len - offset, to - from));
      SameCanary(s, s');
    }
  }

  /** All canary bytes of the slice are zero. */
  predicate Clear(s: Guarded, from: nat, to: nat)
    requires s.data.off <= |s.memory|
  {
    forall i :: from <= i < to && i < s.data.off ==> s.memory[i] == 0
  }

  /**
   * A move from the buffer's own pages wipes its source. It leaves the canary check passing exactly when all canary
   * bytes in the source were zero before, so always when the source lies in the data.
   */
  lemma MoveWithinIntactIff(s: Guarded, offset: int, from: nat, to: nat)
    requires Sound(s) && InInner(s, from, to) && MoveWithin(s, offset, from, to).1 == Done
    ensures Sound(MoveWithin(s, offset, from, to).0) <==> Clear(s, from, to)
  {
    hide Intact, At, Forward, CopyWithin;
    CopyWithinKeepsIntact(s, offset, from, to);
    CopyWithinOutside(s, offset, from, to);
    if from < to {
      WipeIntactIff(CopyWithin(s, offset, from, to).0, from, to);
    }
  }

  lemma CopyWithinOutside(s: Guarded, offset: int, from: nat, to: nat)
    requires WellFormed(s) && InInner(s, from, to)
    ensures var c := CopyWithin(s, offset, from, to).0;
            && c == s.(memory := c.memory) && |c.memory| == |s.memory|
            && forall i :: 0 <= i < s.data.off ==> c.memory[i] == s.memory[i]
  {
    hide Forward, Origin;
    if 0 <= offset <= s.data.len {
      ForwardBytes(s.memory, s.data.off + offset, from, Min(s.data.len - offset, to - from));
    }
  }

  lemma WipeIntactIff(s: Guarded, from: nat, to: nat)
    requires Sound(s) && InInner(s, from, to)
    ensures var t := s.(memory := Splice(s.memory, from, Zeros(to - from)));
            Layout(t) && (Intact(t) <==> Clear(s, from, to))
  {
    hide Intact, At, Clear;
    var t := s.(memory := Splice(s.memory, from, Zeros(to - from)));
    if Clear(s, from, to) {
      ClearWipe(s, from, to);
      SameCanary(s, t);
    }
    if Intact(t) {
      forall i | from <= i < to && i < s.data.off
        ensures s.memory[i] == 0
      {
        IntactGives(s, i - s.canary.off);
        IntactGives(t, i - s.canary.off);
      }
      ClearIs(s, from, to);
    }
  }

  lemma ClearIs(s: Guarded, from: nat, to: nat)
    requires s.data.off <= |s.memory| && forall i :: from <= i < to && i < s.data.off ==> s.memory[i] == 0
    ensures Clear(s, from, to)
  {
  }

  /** Wiping zeroes changes only the data. */
  lemma ClearWipe(s: Guarded, from: nat, to: nat)
    requires WellFormed(s) && InInner(s, from, to) && Clear(s, from, to)
    ensures var m := Splice(s.memory, from, Zeros(to - from));
            forall i :: 0 <= i < |s.memory| && !s.data.Has(i) ==> s.memory[i] == m[i]
  {
  }

  lemma MoveWithinKeepsIntact(s: Guarded, offset: int, from: nat, to: nat)
    requires Sound(s) && InData(s, from, to)
    ensures Sound(MoveWithin(s, offset, from, to).0)
  {
    hide Intact, At, CopyWithin;
    if MoveWithin(s, offset, from, to).1 == Done {
      MoveWithinIntactIff(s, offset, from, to);
    } else {
      CopyWithinKeepsIntact(s, offset, from, to);
    }
  }

  lemma DestroyKeepsIntact(s: Guarded, os: SystemCalls)
    requires Sound(s)
    ensures Sound(Destroy(s, os).0)
  {
    hide Intact, At, Exposed;
    if s.alive && os.protect {
      CanaryCheckIsExact(s, os);
      var wiped := Exposed(s);
      BlankIsIntact(wiped.(memory := Zeros(|wiped.memory|)));
    }
  }

  lemma BlankIsIntact(s: Guarded)
    requires Layout(s) && s.memory == Zeros(|s.memory|)
    ensures Intact(s)
  {
  }

  lemma StepKeepsIntact(s: Guarded, op: Op)
    requires Sound(s)
    ensures Sound(Step(s, op).0)
  {
    hide Intact, At, Store, Destroy, CopyWithin, MoveWithin;
    match op
    case OpCopyWithin(offset, from, to) =>
      if InInner(s, from, to) {
        CopyWithinKeepsIntact(s, offset, from, to);
      }
    case OpMoveWithin(offset, from, to) =>
      if InData(s, from, to) {
        MoveWithinKeepsIntact(s, offset, from, to);
      }
    case OpCopyAt(offset, src) =>
      if s.alive && 0 <= offset <= s.data.len {
        StoreKeepsIntact(s, offset, src[..Min(s.data.len - offset, |src|)]);
      }
    case OpScramble(fill) => StoreKeepsIntact(s, 0, Drawn(s.data.len, fill));
    case OpWipe => StoreKeepsIntact(s, 0, Zeros(s.data.len));
    case OpDestroy(os) => DestroyKeepsIntact(s, os);
    case _ =>
      var s' := Step(s, op).0;
      if s.alive {
        SameCanary(s, s');
      }
  }

  /** No run of the buffer's own operations, failing system calls included, leads to an overflow report. */
  lemma {:induction false} NoFalseOverflow(s: Guarded, ops: seq<Op>, os: SystemCalls)
    requires Sound(s)
    ensures Sound(Run(s, ops))
    ensures Destroy(Run(s, ops), os).1 != Some(CanaryFailed)
    decreases |ops|
  {
    if ops == [] {
      CanaryCheckIsExact(s, os);
    } else {
      StepKeepsIntact(s, ops[0]);
      NoFalseOverflow(Step(s, ops[0]).0, ops[1..], os);
    }
  }

  lemma StrayWriteBreaks(s: Guarded, t: Guarded, w: Window, at: nat)
    requires Layout(s) && Layout(t) && Intact(s)
    requires w in {s.canary, s.preguard, s.postguard} && t.(memory := s.memory) == s
    requires forall i :: 0 <= i < |s.memory| && !w.Has(i) && !s.data.Has(i) ==> t.memory[i] == s.memory[i]
    requires w.Has(at) && t.memory[at] != s.memory[at]
    ensures !Intact(t)
  {
    hide Intact, At;
    if Intact(t) {
      IntactGives(s, at - w.off);
      IntactGives(t, at - w.off);
    }
  }

  lemma IntactGives(s: Guarded, i: nat)
    requires Layout(s) && Intact(s) && i < s.preguard.len
    ensures s.memory[i] == s.memory[s.postguard.off + i]
    ensures i < s.canary.len ==> s.memory[i] == s.memory[s.canary.off + i]
  {
    hide Intact, At;
    IntactBytes(s);
  }

  /** The check, byte for byte. */
  lemma IntactBytes(s: Guarded)
    requires Layout(s)
    ensures Intact(s) <==>
            && (forall i :: 0 <= i < s.preguard.len ==> s.memory[i] == s.memory[s.postguard.off + i])
            && (forall i :: 0 <= i < s.canary.len ==> s.memory[i] == s.memory[s.canary.off + i])
  {
    assert At(s, s.preguard)[..s.canary.len] == s.memory[..s.canary.len];
    SameSlices(s.memory, s.postguard.off, s.preguard.len);
    SameSlices(s.memory, s.canary.off, s.canary.len);
  }

  lemma SameSlices(m: Bytes, at: nat, n: nat)
    requires at + n <= |m|
    ensures m[..n] == m[at..at + n] <==> forall i :: 0 <= i < n ==> m[i] == m[at + i]
  {
    var a, b := m[..n], m[at..at + n];
    assert a == b <==> forall i :: 0 <= i < n ==> a[i] == b[i];
    assert forall i :: 0 <= i < n ==> a[i] == m[i] && b[i] == m[at + i];
  }

  lemma RegionsFit(s: Guarded)
    requires Layout(s)
    ensures s.preguard.End() <= |s.memory| && s.postguard.End() <= |s.memory| && s.canary.End() <= |s.memory|
    ensures s.preguard.off + s.canary.len <= |s.memory|
  {
  }

  /** The check as the two comparisons of slices that decide it. */
  lemma IntactSlices(s: Guarded)
    requires Layout(s)
    ensures Intact(s) <==>
            && s.memory[s.preguard.off..s.preguard.End()] == s.memory[s.postguard.off..s.postguard.End()]
            && s.memory[s.preguard.off..s.preguard.off + s.canary.len] == s.memory[s.canary.off..s.canary.End()]
  {
    assert At(s, s.preguard)[..s.canary.len] == s.memory[s.preguard.off..s.preguard.off + s.canary.len];
  }

  /** A stray write that stays inside one of the canary and the two guards is always reported. */
  lemma StrayWriteDetected(s: Guarded, t: Guarded, w: Window, at: nat, os: SystemCalls)
    requires WellFormed(s) && s.alive && Intact(s) && WellFormed(t)
    requires w in {s.canary, s.preguard, s.postguard} && t.(memory := s.memory) == s
    requires forall i :: 0 <= i < |s.memory| && !w.Has(i) && !s.data.Has(i) ==> t.memory[i] == s.memory[i]
    requires w.Has(at) && t.memory[at] != s.memory[at]
    requires os.protect
    ensures var (t', e) := Destroy(t, os);
            e == Some(CanaryFailed) && WellFormed(t') && Data(t') == Zeros(s.data.len)
  {
    hide Destroy, Intact, At, Data;
    StrayWriteBreaks(s, t, w, at);
    CanaryCheckIsExact(t, os);
    DestroyWipesData(t, os);
  }

  // ---------------------------------------------------------------- what the operations do to the data

  /** A store into open pages changes exactly its bytes; closed pages stop it before the first of them. */
  lemma StoreWrites(s: Guarded, offset: nat, bytes: Bytes)
    requires WellFormed(s) && s.alive && offset + |bytes| <= s.data.len
    ensures var (t, r) := Store(s, offset, bytes);
            && WellFormed(t) && t == s.(memory := t.memory)
            && (bytes == [] || s.mid == ReadWrite ==> r == Done && Data(t) == Splice(Data(s), offset, bytes))
            && (bytes != [] && s.mid != ReadWrite ==> r == SegmentationFault && t == s)
  {
    hide Splice, Data;
    DataStored(s, offset, bytes);
    SpliceNothing(Data(s), offset);
  }

  lemma DataStored(s: Guarded, offset: nat, bytes: Bytes)
    requires WellFormed(s) && s.alive && offset + |bytes| <= s.data.len
    ensures var t := s.(memory := Splice(s.memory, s.data.off + offset, bytes));
            WellFormed(t) && |Data(s)| == s.data.len && Data(t) == Splice(Data(s), offset, bytes)
  {
    hide Splice;
    SpliceWithin(s.memory, s.data.off, s.data.len, offset, bytes);
  }

  /** A copy writes as many bytes as fit behind the offset. */
  lemma CopyAtWrites(s: Guarded, offset: int, src: Bytes)
    requires WellFormed(s)
    ensures var (t, r) := CopyAt(s, offset, src);
            && WellFormed(t) && t == s.(memory := t.memory)
            && (!s.alive ==> r == Done && t == s)
            && (s.alive && !(0 <= offset <= s.data.len) ==> r == IndexOutOfRange && t == s)
            && (s.alive && 0 <= offset <= s.data.len ==>
                  var bytes := src[..Min(s.data.len - offset, |src|)];
                  && (bytes == [] || s.mid == ReadWrite ==> r == Done && Data(t) == Splice(Data(s), offset, bytes))
                  && (bytes != [] && s.mid != ReadWrite ==> r == SegmentationFault && t == s))
  {
    hide Store, Data, Splice;
    if s.alive && 0 <= offset <= s.data.len {
      StoreWrites(s, offset, src[..Min(s.data.len - offset, |src|)]);
    }
  }

  lemma WipeErases(s: Guarded)
    requires WellFormed(s) && s.alive
    ensures var (t, r) := Step(s, OpWipe);
            && WellFormed(t) && t == s.(memory := t.memory)
            && (s.mid == ReadWrite ==> r == Done && Data(t) == Zeros(s.data.len))
            && (s.mid != ReadWrite ==> r == SegmentationFault && t == s)
  {
    hide Store, Splice;
    StoreWrites(s, 0, Zeros(s.data.len));
    SpliceAll(Data(s), Zeros(s.data.len));
  }

  lemma ScrambleFills(s: Guarded, fill: nat -> Byte)
    requires WellFormed(s) && s.alive
    ensures var (t, r) := Step(s, OpScramble(fill));
            && WellFormed(t) && t == s.(memory := t.memory)
            && (s.mid == ReadWrite ==>
                  r == Done && |Data(t)| == s.data.len && forall i :: 0 <= i < s.data.len ==> Data(t)[i] == fill(i))
            && (s.mid != ReadWrite ==> r == SegmentationFault && t == s)
  {
    hide Store, Splice;
    var bytes := Drawn(s.data.len, fill);
    StoreWrites(s, 0, bytes);
    SpliceAll(Data(s), bytes);
  }

  /** A copy from the buffer's own pages: each byte comes from its origin, the others stay. */
  lemma CopyWithinWrites(s: Guarded, offset: int, from: nat, to: nat)
    requires WellFormed(s) && InInner(s, from, to)
    ensures var (t, r) := CopyWithin(s, offset, from, to);
            && WellFormed(t) && t == s.(memory := t.memory)
            && (!(0 <= offset <= s.data.len) ==> r == IndexOutOfRange && t == s)
            && (0 <= offset <= s.data.len ==>
                  var lo, n := s.data.off + offset, Min(s.data.len - offset, to - from);
                  && (n == 0 || s.mid == ReadWrite ==> r == Done && CopiedForward(s.memory, t.memory, lo, from, n))
                  && (n > 0 && s.mid != ReadWrite ==> r == SegmentationFault && t == s))
  {
    hide Forward, Origin;
    if 0 <= offset <= s.data.len {
      ForwardBytes(s.memory, s.data.off + offset, from, Min(s.data.len - offset, to - from));
      ForwardBytes(s.memory, s.data.off + offset, from, 0);
      ForwardNothing(s.memory, s.data.off + offset, from);
    }
  }

  lemma ForwardNothing(m: Bytes, lo: nat, from: nat)
    requires lo <= |m| && from <= |m|
    ensures Forward(m, lo, from, 0) == m
  {
  }

  /** A move does the same and then zeroes its source. */
  lemma MoveWithinWrites(s: Guarded, offset: int, from: nat, to: nat)
    requires WellFormed(s) && InInner(s, from, to)
    ensures var (c, q), (t, r) := CopyWithin(s, offset, from, to), MoveWithin(s, offset, from, to);
            && WellFormed(t) && t == s.(memory := t.memory)
            && (q != Done ==> r == q && t == c)
            && (q == Done && (from == to || s.mid == ReadWrite) ==>
                  r == Done && t.memory == Splice(c.memory, from, Zeros(to - from)))
            && (q == Done && from < to && s.mid != ReadWrite ==> r == SegmentationFault && t == s)
  {
    hide CopyWithin, Splice;
    CopyWithinWrites(s, offset, from, to);
    if s.mid != ReadWrite {
      NothingStored(s, offset, from, to);
    }
    assert from == to ==> Zeros(to - from) == [];
    SpliceNothing(CopyWithin(s, offset, from, to).0.memory, from);
  }

  lemma NothingStored(s: Guarded, offset: int, from: nat, to: nat)
    requires WellFormed(s) && InInner(s, from, to) && s.mid != ReadWrite
    ensures CopyWithin(s, offset, from, to).0 == s
  {
  }

  /** What a request to close or to open the pages does, granted or refused. */
  lemma FreezeAndMelt(s: Guarded, granted: bool)
    requires WellFormed(s)
    ensures var (t, r) := Freeze(s, granted);
            && (r == Done || r == Failed(ProtectRefused))
            && (r == Failed(ProtectRefused) <==> s.alive && s.mutable && !granted)
            && (s.alive && s.mutable && granted ==> t == s.(mutable := false, mid := ReadOnly))
            && (!(s.alive && s.mutable && granted) ==> t == s)
    ensures var (t, r) := Melt(s, granted);
            && (r == Done || r == Failed(ProtectRefused))
            && (r == Failed(ProtectRefused) <==> s.alive && !s.mutable && !granted)
            && (s.alive && !s.mutable && granted ==> t == s.(mutable := true, mid := ReadWrite))
            && (!(s.alive && !s.mutable && granted) ==> t == s)
  {
  }

  /** Closed pages stay closed, and their bytes stay, until the buffer is melted or destroyed. */
  lemma {:induction false} FrozenBytesStay(s: Guarded, ops: seq<Op>)
    requires WellFormed(s) && s.alive && !s.mutable && s.mid == ReadOnly
    requires forall op :: op in ops ==> !op.OpMelt? && !op.OpDestroy?
    ensures Run(s, ops) == s
    decreases |ops|
  {
    if ops != [] {
      assert ops[0] in ops;
      FrozenStep(s, ops[0]);
      FrozenBytesStay(s, ops[1..]);
    }
  }

  lemma FrozenStep(s: Guarded, op: Op)
    requires WellFormed(s) && s.alive && !s.mutable && s.mid == ReadOnly && !op.OpMelt? && !op.OpDestroy?
    ensures Step(s, op).0 == s
  {
    hide Forward, Splice, At, Intact;
  }

  // ---------------------------------------------------------------- the outcome of destruction

  /** The one way a destruction can end, told from the state and the answers of the system before it. */
  function Fate(alive: bool, intact: bool, os: SystemCalls): Option<Failure> {
    if !alive || (os == GRANTED && intact) then None
    else if !os.protect then Some(ProtectRefused)
    else if !intact then Some(CanaryFailed)
    else if !os.unlock then Some(UnlockRefused)
    else Some(FreeRefused)
  }

  /**
   * Destruction succeeds exactly on a dead buffer, or with every call granted and an intact canary; otherwise the
   * first refusal on the way is the error. A refused opening leaves everything, a failed check wipes the data, a
   * later refusal comes when all memory is wiped; in both the pages stay open and the buffer alive.
   */
  lemma DestroyOutcome(s: Guarded, os: SystemCalls)
    requires WellFormed(s)
    ensures var (t, e) := Destroy(s, os);
            && e == Fate(s.alive, s.alive && Intact(s), os)
            && (e == None ==> t == DEAD)
            && (e == Some(ProtectRefused) ==> t == s)
            && (e.Some? && e != Some(ProtectRefused) ==>
                  && t == s.(mutable := true, pre := ReadWrite, mid := ReadWrite, post := ReadWrite, memory := t.memory)
                  && t.memory == if e == Some(CanaryFailed) then Splice(s.memory, s.data.off, Zeros(s.data.len))
                                 else Zeros(|s.memory|))
  {
    hide Intact, At, Splice;
    if s.alive && os.protect {
      ExposedIs(s);
      CanaryCheckIsExact(s, os);
    }
  }

  lemma ExposedIs(s: Guarded)
    requires WellFormed(s) && s.alive
    ensures var t := Exposed(s);
            && t == s.(mutable := true, pre := ReadWrite, mid := ReadWrite, post := ReadWrite, memory := t.memory)
            && t.memory == Splice(s.memory, s.data.off, Zeros(s.data.len))
            && (Intact(t) <==> Intact(s))
  {
    hide Intact, At;
    SameCanary(s, Exposed(s));
  }

  // ---------------------------------------------------------------- the lifecycle

  /** The flag a caller can ask for tells the protection of the pages, and the guards are closed. */
  predicate Agrees(s: Guarded) {
    s.alive ==>
      && s.mid == (if s.mutable then ReadWrite else ReadOnly)
      && s.pre == s.post == NoAccess
  }

  /** The operation is granted every system call it makes. */
  predicate AllGranted(op: Op) {
    match op
    case OpFreeze(granted) => granted
    case OpMelt(granted) => granted
    case OpDestroy(os) => os == GRANTED
    case _ => true
  }

  lemma StepKeepsHealth(s: Guarded, op: Op)
    requires Sound(s) && Agrees(s) && AllGranted(op)
    ensures var s' := Step(s, op).0;
            && Sound(s') && Agrees(s')
            && (op.OpDestroy? ==> s' == DEAD && Step(s, op).1 == Done)
  {
    StepKeepsIntact(s, op);
    if op.OpDestroy? {
      CanaryCheckIsExact(s, GRANTED);
    }
  }

  /** A store into the data region of a healthy writable buffer keeps it healthy and changes just those bytes. */
  lemma StoreKeepsHealth(s: Guarded, offset: nat, bytes: Bytes)
    requires Sound(s) && Agrees(s) && s.alive && s.mutable && offset + |bytes| <= s.data.len
    ensures var t := s.(memory := Splice(s.memory, s.data.off + offset, bytes));
            && Sound(t) && Agrees(t)
            && Data(t) == Splice(Data(s), offset, bytes)
  {
    var t := s.(memory := Splice(s.memory, s.data.off + offset, bytes));
    SameCanary(s, t);
    SpliceWithin(s.memory, s.data.off, s.data.len, offset, bytes);
  }

  /** With no refused system call the flags stay truthful, and a destroyed buffer stays cleared for good. */
  lemma {:induction false} LifecycleRun(s: Guarded, ops: seq<Op>)
    requires Sound(s) && Agrees(s)
    requires forall op :: op in ops ==> AllGranted(op)
    ensures Agrees(Run(s, ops))
    ensures Run(s, ops).alive <==> s.alive && forall op :: op in ops ==> !op.OpDestroy?
    ensures !Run(s, ops).alive ==> Run(s, ops) == DEAD
    decreases |ops|
  {
    if ops != [] {
      var s' := Step(s, ops[0]).0;
      assert ops[0] in ops && AllGranted(ops[0]);
      StepKeepsHealth(s, ops[0]);
      LifecycleRun(s', ops[1..]);
      NoFalseOverflow(s', ops[1..], GRANTED);
      assert ops == [ops[0]] + ops[1..];
    }
  }
}
