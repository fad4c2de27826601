/** The mutable guarded buffer; each method is tied to its function in `BufferSpec`. */
module Buffers {
  import opened Bytes
  import opened Auxiliary
  import opened BufferSpec
  import Crypto

  class Buffer {
    var alive: bool
    var mutable: bool
    var memory: array?<Byte>
    var data: Window
    var preguard: Window
    var inner: Window
    var postguard: Window
    var canary: Window
    // Protection of the guard pages and of the inner pages, as the operating system holds it.
    var pre: Protection
    var mid: Protection
    var post: Protection

    ghost function State(): Guarded
      reads this, memory
    {
      Guarded(alive, mutable, if memory == null then [] else memory[..],
              data, preguard, inner, postguard, canary, pre, mid, post)
    }

    ghost predicate Valid()
      reads this, memory
    {
      (memory != null <==> alive) && WellFormed(State())
    }

    /** Valid, with a passing canary check and truthful flags: what every failure-free run maintains. */
    ghost predicate Healthy()
      reads this, memory
    {
      Valid() && Sound(State()) && Agrees(State())
    }

    /** The bytes a caller sees through `Data()`. */
    function Bytes(): (d: Bytes)
      reads this, memory
      ensures Valid() ==> d == Data(State())
      ensures Healthy() ==> |d| == data.len
    {
      if memory != null && data.End() <= memory.Length then memory[data.off..data.End()] else []
    }

    /** The quasi-destroyed buffer of size zero. */
    constructor Null()
      ensures Valid() && State() == DEAD && !alive && !mutable && Bytes() == []
    {
      alive, mutable, memory := false, false, null;
      data, preguard, inner, postguard, canary := NIL, NIL, NIL, NIL, NIL;
      pre, mid, post := NoAccess, NoAccess, NoAccess;
    }

    /** Allocation of a positive size, all system calls granted; the canary is made of the given random bytes. */
    constructor (page: nat, size: nat, random: nat -> Byte)
      requires IsPage(page) && size >= 1
      ensures Healthy() && IsFresh(State(), page, size, random)
      ensures alive && mutable && data.len == size && Bytes() == Zeros(size)
      ensures fresh(memory)
    {
      RoundIsLeastMultiple(size, page);
      var innerLen := RoundToPageSize(size, page);
      var region := AllocateRegion(page, innerLen - size, size, random);
      alive, mutable, memory := true, true, region;
      data := Window(page + innerLen - size, size);
      preguard, inner, postguard := Window(0, page), Window(page, innerLen), Window(page + innerLen, page);
      canary := Window(page, innerLen - size);
      pre, mid, post := NoAccess, ReadWrite, NoAccess;
      new;
      assert State() == Fresh(page, size, Drawn(innerLen - size, random));
      FreshIsSound(State(), page, size, random);
    }

    method Freeze(granted: bool) returns (r: Outcome)
      requires Valid()
      modifies this
      ensures Valid() && memory == old(memory)
      ensures (State(), r) == BufferSpec.Freeze(old(State()), granted)
      ensures r == (if old(alive && mutable) && !granted then Failed(ProtectRefused) else Done)
      ensures old(alive && mutable) && granted ==> alive && !mutable && mid == ReadOnly
      ensures old(Healthy()) && granted ==> Healthy() && alive == old(alive) && !mutable
      ensures data == old(data) && Bytes() == old(Bytes())
    {
      if Healthy() && granted {
        StepKeepsHealth(State(), OpFreeze(true));
      }
      if !alive {
        return Done;
      }
      if mutable {
        if !granted {
          return Failed(ProtectRefused);
        }
        mid := ReadOnly;
        mutable := false;
      }
      r := Done;
    }

    method Melt(granted: bool) returns (r: Outcome)
      requires Valid()
      modifies this
      ensures Valid() && memory == old(memory)
      ensures (State(), r) == BufferSpec.Melt(old(State()), granted)
      ensures r == (if old(alive && !mutable) && !granted then Failed(ProtectRefused) else Done)
      ensures old(alive && !mutable) && granted ==> alive && mutable && mid == ReadWrite
      ensures old(Healthy()) && granted ==> Healthy() && alive == old(alive) && mutable == alive
      ensures data == old(data) && Bytes() == old(Bytes())
    {
      if Healthy() && granted {
        StepKeepsHealth(State(), OpMelt(true));
      }
      if !alive {
        return Done;
      }
      if !mutable {
        if !granted {
          return Failed(ProtectRefused);
        }
        mid := ReadWrite;
        mutable := true;
      }
      r := Done;
    }

    /** A slice of an array that is no memory of this buffer, or a slice of the inner pages of this buffer. */
    ghost predicate Source(src: array<Byte>, from: nat, to: nat)
      reads this, memory
    {
      from <= to <= src.Length && (src == memory ==> InInner(State(), from, to))
    }

    /** The stores happen one byte at a time; a closed page stops the first of them. */
    method CopyAt(offset: int, src: array<Byte>, from: nat, to: nat) returns (r: Outcome)
      requires Valid() && Source(src, from, to)
      modifies memory
      ensures Valid()
      ensures src != memory ==> (State(), r) == BufferSpec.CopyAt(old(State()), offset, src[from..to])
      ensures src == memory ==> (State(), r) == BufferSpec.CopyWithin(old(State()), offset, from, to)
      ensures src != memory && alive && mid == ReadWrite && 0 <= offset <= data.len ==>
                r == Done && Bytes() == Splice(old(Bytes()), offset, src[from..to][..Min(data.len - offset, to - from)])
    {
      CopyAtWrites(State(), offset, src[from..to]);
      if !alive {
        return Done;
      }
      if !(0 <= offset <= data.len) {
        return IndexOutOfRange;
      }
      var n := Min(data.len - offset, to - from);
      if n > 0 && mid != ReadWrite {
        return SegmentationFault;
      }
      if src == memory {
        CopyOwn(offset, from, to);
      } else {
        CopyForeign(offset, src, from, to);
      }
      r := Done;
    }

    method CopyForeign(offset: nat, src: array<Byte>, from: nat, to: nat)
      requires Valid() && alive && offset <= data.len
      requires from <= to <= src.Length && src != memory
      requires Min(data.len - offset, to - from) > 0 ==> mid == ReadWrite
      modifies memory
      ensures Valid()
      ensures (State(), Done) == BufferSpec.CopyAt(old(State()), offset, src[from..to])
    {
      hide Splice, Store;
      CopyAtStores(State(), offset, src[from..to]);
      Crypto.Copy(memory, data.off + offset, data.End(), src, from, to);
      assert src[from..to][..Min(data.len - offset, to - from)] == src[from..from + Min(data.len - offset, to - from)];
    }

    method CopyOwn(offset: nat, from: nat, to: nat)
      requires Valid() && offset <= data.len && InInner(State(), from, to)
      requires Min(data.len - offset, to - from) > 0 ==> mid == ReadWrite
      modifies memory
      ensures Valid()
      ensures (State(), Done) == BufferSpec.CopyWithin(old(State()), offset, from, to)
    {
      Crypto.Copy(memory, data.off + offset, data.End(), memory, from, to);
    }

    /** As `CopyAt`, and the source is zeroed unless a store faulted. */
    method MoveAt(offset: int, src: array<Byte>, from: nat, to: nat) returns (r: Outcome)
      requires Valid() && Source(src, from, to)
      modifies memory, src
      ensures Valid()
      ensures src != memory ==> (State(), r) == BufferSpec.CopyAt(old(State()), offset, old(src[from..to]))
      ensures src != memory ==>
                src[..] == if alive && r == Done then Splice(old(src[..]), from, Zeros(to - from)) else old(src[..])
      ensures src == memory ==> (State(), r) == BufferSpec.MoveWithin(old(State()), offset, from, to)
    {
      hide BufferSpec.CopyAt, BufferSpec.CopyWithin;
      CopyKeepsRegions(State(), offset, src[from..to], from, to);
      r := CopyAt(offset, src, from, to);
      if !alive || r != Done {
        return;
      }
      if src == memory && from < to && mid != ReadWrite {
        return SegmentationFault;
      }
      assert from == to ==> Zeros(to - from) == [];
      SpliceNothing(src[..], from);
      Crypto.Wipe(src, from, to);
    }

    method Scramble(fill: nat -> Byte) returns (r: Outcome)
      requires Valid()
      modifies memory
      ensures Valid()
      ensures (State(), r) == Step(old(State()), OpScramble(fill))
      ensures alive && mid == ReadWrite ==>
                r == Done && |Bytes()| == data.len && forall i :: 0 <= i < data.len ==> Bytes()[i] == fill(i)
      ensures alive && mid != ReadWrite ==> r == SegmentationFault && State() == old(State())
    {
      hide At, Splice;
      if alive {
        ScrambleFills(State(), fill);
      }
      if data.len == 0 {
        return Done;
      }
      if mid != ReadWrite {
        return SegmentationFault;
      }
      Crypto.StoreEach(memory, data.off, data.len, fill);
      r := Done;
    }

    method Wipe() returns (r: Outcome)
      requires Valid()
      modifies memory
      ensures Valid()
      ensures (State(), r) == Step(old(State()), OpWipe)
      ensures alive && mid == ReadWrite ==> r == Done && Bytes() == Zeros(data.len)
      ensures alive && mid != ReadWrite ==> r == SegmentationFault && State() == old(State())
    {
      hide At, Splice;
      if alive {
        WipeErases(State());
      }
      if data.len == 0 {
        return Done;
      }
      if mid != ReadWrite {
        return SegmentationFault;
      }
      Crypto.Wipe(memory, data.off, data.End());
      r := Done;
    }

    /** Both guard pages agree and the canary repeats their start. */
    method CanaryHolds() returns (r: bool)
      requires memory != null && Layout(State())
      ensures r <==> Intact(State())
    {
      hide At, Layout, Intact;
      RegionsFit(State());
      IntactSlices(State());
      var guards := Crypto.Equal(memory, preguard.off, preguard.End(), memory, postguard.off, postguard.End());
      var behind := Crypto.Equal(memory, preguard.off, preguard.off + canary.len, memory, canary.off, canary.End());
      r := guards && behind;
    }

    /** `destroy`: open the pages, wipe the data, check the canary, wipe and release everything. */
    method Destroy(os: SystemCalls) returns (e: Option<Failure>)
      requires Valid()
      modifies this, memory
      ensures Valid() && (memory == old(memory) || memory == null)
      ensures (State(), e) == BufferSpec.Destroy(old(State()), os)
      ensures e == Fate(old(alive), old(alive && Intact(State())), os)
      ensures e == None ==> !alive && memory == null
    {
      DestroyOutcome(State(), os);
      if !alive {
        return None;
      }
      if !os.protect {
        return Some(ProtectRefused);
      }
      pre, mid, post := ReadWrite, ReadWrite, ReadWrite;
      mutable := true;
      Crypto.Wipe(memory, data.off, data.End());
      ghost var wiped := State();
      assert wiped == Exposed(old(State()));
      var intact := CanaryHolds();
      if !intact {
        return Some(CanaryFailed);
      }
      e := Release(os);
    }

    method Release(os: SystemCalls) returns (e: Option<Failure>)
      requires Valid() && alive
      modifies this, memory
      ensures Valid() && (memory == old(memory) || memory == null)
      ensures (State(), e) == BufferSpec.Release(old(State()), os)
    {
      Crypto.Wipe(memory, 0, memory.Length);
      assert memory[..] == Zeros(memory.Length);
      if !os.unlock {
        return Some(UnlockRefused);
      }
      if !os.free {
        return Some(FreeRefused);
      }
      alive, mutable, memory := false, false, null;
      data, preguard, inner, postguard, canary := NIL, NIL, NIL, NIL, NIL;
      pre, mid, post := NoAccess, NoAccess, NoAccess;
      e := None;
    }

    /** The source recognises a destroyed buffer by its nil data slice. */
    method IsDestroyed() returns (r: bool)
      requires Valid()
      ensures r == !alive
    {
      r := data.len == 0;
    }

    // ---------------------------------------------------------------- failure-free use

    /** Destruction of a healthy buffer with every system call granted cannot fail. */
    method Retire()
      requires Healthy()
      modifies this, memory
      ensures Healthy() && !alive && memory == null
    {
      StepKeepsHealth(State(), OpDestroy(GRANTED));
      var e := Destroy(GRANTED);
    }

    /** Stores bytes at an offset of a writable buffer. */
    method Put(offset: nat, bytes: Bytes)
      requires Healthy() && mutable && offset + |bytes| <= data.len
      modifies memory
      ensures Healthy() && Bytes() == Splice(old(Bytes()), offset, bytes)
    {
      hide Sound, Agrees, Data, Layout, Splice;
      HealthyIsLive();
      StoreKeepsHealth(State(), offset, bytes);
      Crypto.Store(memory, data.off + offset, bytes);
      assert State() == old(State()).(memory := memory[..]);
    }

    /** Stores bytes over the whole data region, as `Scramble` does with random ones. */
    method Fill(content: Bytes)
      requires Healthy() && mutable && |content| == data.len
      modifies memory
      ensures Healthy() && Bytes() == content
    {
      SpliceAll(Bytes(), content);
      Put(0, content);
    }

    /** The in-place loop of the coffer: every data byte is masked. */
    method Mask(mask: Bytes)
      requires Healthy() && mutable && |mask| == data.len
      modifies memory
      ensures Healthy() && Bytes() == Xor(old(Bytes()), mask)
    {
      hide Sound, Agrees, Data;
      ghost var masked := Xor(Bytes(), mask);
      HealthyIsLive();
      StoreKeepsHealth(State(), 0, masked);
      SpliceAll(Bytes(), masked);
      Crypto.XorInto(memory, data.off, mask);
      assert memory[data.off..data.End()] == masked;
      assert memory[..] == Splice(old(memory[..]), data.off, masked);
      assert State() == old(State()).(memory := memory[..]);
    }

    /** The loop of a view: every data byte becomes the masked byte of another buffer. */
    method MaskFrom(mask: Bytes, src: Buffer)
      requires Healthy() && mutable && |mask| == data.len
      requires src.Healthy() && src.mutable && src.data.len == data.len && src.memory != memory
      modifies memory
      ensures Healthy() && Bytes() == Xor(mask, src.Bytes())
    {
      hide Sound, Agrees, Data, Splice, Xor;
      HealthyIsLive();
      src.HealthyIsLive();
      ghost var masked := Xor(mask, src.Bytes());
      StoreKeepsHealth(State(), 0, masked);
      SpliceAll(Bytes(), masked);
      Crypto.XorFrom(memory, data.off, mask, src.memory, src.data.off);
      assert State() == old(State()).(memory := memory[..]);
    }

    lemma HealthyIsLive()
      requires Healthy() && mutable
      ensures alive && memory != null && Layout(State()) && data.End() <= memory.Length
    {
    }
  }

  /** Copies the canary behind the first page to the start of a guard page. */
  method RepeatCanary(region: array<Byte>, at: nat, page: nat, n: nat, ghost fill: Bytes)
    requires n == |fill| && at + page <= region.Length && page + |fill| <= region.Length && |fill| < page
    requires (at <= page || page + |fill| <= at) && region[..][page..page + |fill|] == fill
    modifies region
    ensures region[..] == Splice(old(region[..]), at, fill)
  {
    hide Splice, Crypto.Forward;
    Crypto.ForwardApart(region[..], at, page, |fill|);
    Crypto.Copy(region, at, at + page, region, page, page + n);
  }

  /** Zeroed memory with a canary of `n` random bytes, repeated at the start of both guard pages. */
  method AllocateRegion(page: nat, n: nat, size: nat, random: nat -> Byte) returns (region: array<Byte>)
    requires n < page
    ensures fresh(region) && region[..] == FreshMemory(page, size, Drawn(n, random))
  {
    hide FreshMemory, Splice, Drawn;
    var end := page + n + size;
    FreshByCopies(page, size, Drawn(n, random));
    region := new Byte[end + page](_ => 0);
    assert region[..] == Zeros(end + page);
    Crypto.StoreEach(region, page, n, random);
    RepeatCanary(region, 0, page, n, Drawn(n, random));
    RepeatCanary(region, end, page, n, Drawn(n, random));
  }
}
