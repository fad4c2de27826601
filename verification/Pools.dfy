/** The buffers of a process whose system calls succeed: the list holds exactly the live ones. */
module Pools {
  import opened Bytes
  import opened Auxiliary
  import opened BufferSpec
  import opened Buffers
  import opened Crypto
  import opened Registry

  class Pool {
    const page: nat
    const list: BufferList
    // The random bytes of the canaries, and how many buffers have been made.
    const canaries: nat -> nat -> Byte
    var made: nat
    ghost var all: set<Buffer>

    /** Every buffer ever made is healthy, and no two of them share memory. */
    ghost predicate Separate()
      reads this, list, all, set b | b in all :: b.memory
    {
      && (forall b :: b in all ==> b.Healthy())
      && (forall b :: b in all && b.memory != null ==> b.memory as object != list.backing)
      && (forall b, c :: b in all && c in all && b != c && b.memory != null ==> b.memory != c.memory)
    }

    /** The list holds exactly the live buffers, each once. */
    ghost predicate Registered()
      reads this, list, all
    {
      && NoDuplicates(list.contents)
      && (forall b :: b in list.contents ==> b in all)
      && (forall b :: b in all ==> (b.alive <==> b in list.contents))
    }

    ghost predicate Valid()
      reads this, list, list.backing, all, set b | b in all :: b.memory
    {
      IsPage(page) && list.Valid() && Separate() && Registered()
    }

    /** All a step may do besides its stated effect is to make new buffers in new memory. */
    twostate predicate Extends()
      reads this, list, all
    {
      && old(all) <= all && fresh(all - old(all))
      && (forall b :: b in all && b !in old(all) && b.memory != null ==> fresh(b.memory))
      && (list.backing == old(list.backing) || fresh(list.backing))
    }

    /** An array of the caller, no part of any buffer. */
    ghost predicate Foreign(a: array<Byte>)
      reads this, list, all
    {
      a as object != list.backing && forall b :: b in all ==> b.memory != a
    }

    constructor (page: nat, canaries: nat -> nat -> Byte)
      requires IsPage(page)
      ensures Valid() && list.contents == [] && all == {} && this.page == page && this.canaries == canaries && made == 0
      ensures fresh(list) && fresh(list.backing)
    {
      this.page, this.canaries, made := page, canaries, 0;
      list := new BufferList();
      all := {};
    }

    /** Writing into the memory of healthy buffers alone keeps the pool valid. */
    twostate lemma MemoryWritten(touched: set<Buffer>)
      requires old(Valid()) && unchanged(this) && unchanged(list) && unchanged(list.backing)
      requires forall b :: b in all ==> unchanged(b)
      requires forall b :: b in all && b !in touched && b.memory != null ==> unchanged(b.memory)
      requires forall b :: b in touched ==> b.Healthy()
      ensures Valid()
    {
      hide Buffer.Healthy, Buffer.Bytes, Buffer.State;
    }

    lemma PageIsPositive()
      requires Valid()
      ensures page >= 1
    {
    }

    lemma LiveIsListed(b: Buffer)
      requires Valid() && b in all
      ensures b.alive <==> b in list.contents
    {
    }

    /** The memory of a buffer is not the array of the list. */
    lemma OffTheList(b: Buffer)
      requires Valid() && b in all
      ensures b.memory == null || b.memory as object != list.backing
    {
    }

    lemma DeadIsFreed(b: Buffer)
      requires Valid() && b in all && !b.alive
      ensures b.Healthy() && b.memory == null
    {
    }

    /** A new buffer joins the pool and the list. */
    method Enroll(b: Buffer)
      requires Valid() && b !in all && b.Healthy() && b.alive && b.memory != null
      requires b.memory as object != list.backing && forall c :: c in all ==> c.memory != b.memory
      modifies this`all, list, list.backing
      ensures Valid() && all == old(all) + {b} && list.contents == old(list.contents) + [b]
      ensures list.backing == old(list.backing) || fresh(list.backing)
    {
      hide Buffer.Healthy, Buffer.Bytes, Buffer.State, IsFresh;
      list.Add(b);
      all := all + {b};
    }

    /** `NewBuffer` for a positive size, with the next canary. */
    method AllocateFresh(size: nat) returns (b: Buffer)
      requires Valid() && size >= 1
      modifies this, list, list.backing
      ensures Valid() && Extends()
      ensures fresh(b) && all == old(all) + {b} && list.contents == old(list.contents) + [b]
      ensures b.Healthy() && b.alive && b.mutable && b.data.len == size && b.Bytes() == Zeros(size)
      ensures b.memory != null && b.memory as object != list.backing
      ensures IsFresh(b.State(), page, size, canaries(old(made))) && made == old(made) + 1
    {
      hide Buffer.Healthy, Buffer.Bytes, Buffer.State, IsFresh;
      b := new Buffer(page, size, canaries(made));
      made := made + 1;
      Enroll(b);
    }

    /** The same without a word about the canary. */
    method Allocate(size: nat) returns (b: Buffer)
      requires Valid() && size >= 1
      modifies this, list, list.backing
      ensures Valid() && Extends()
      ensures fresh(b) && all == old(all) + {b} && list.contents == old(list.contents) + [b]
      ensures b.Healthy() && b.alive && b.mutable && b.data.len == size && b.Bytes() == Zeros(size)
      ensures b.memory != null && b.memory as object != list.backing
    {
      hide Buffer.Healthy, Buffer.Bytes, Buffer.State, IsFresh, Valid;
      b := AllocateFresh(size);
    }

    /** `NewBuffer` for any size: one that is not positive is refused. */
    method NewBuffer(size: int) returns (r: Result<Buffer>)
      requires Valid()
      modifies this, list, list.backing
      ensures Valid() && Extends()
      ensures size < 1 ==> r == Err(NullBuffer) && all == old(all) && list.contents == old(list.contents)
      ensures size >= 1 ==>
                && r.Ok? && fresh(r.value) && fresh(r.value.memory)
                && all == old(all) + {r.value} && list.contents == old(list.contents) + [r.value]
                && r.value.Healthy() && r.value.alive && r.value.mutable && r.value.Bytes() == Zeros(size)
                && IsFresh(r.value.State(), page, size, canaries(old(made))) && made == old(made) + 1
    {
      hide Buffer.Healthy, Buffer.Bytes, Buffer.State, Valid, IsFresh;
      if size < 1 {
        return Err(NullBuffer);
      }
      var b := AllocateFresh(size);
      r := Ok(b);
    }

    /** Stores bytes over the whole data region of a writable buffer. */
    method Fill(b: Buffer, content: Bytes)
      requires Valid() && b in all && b.mutable && |content| == b.data.len
      modifies b.memory
      ensures Valid() && b.Healthy() && b.Bytes() == content
    {
      hide Buffer.Healthy, Buffer.Bytes, Buffer.State;
      b.Fill(content);
      MemoryWritten({b});
    }

    /** A new buffer that holds the given bytes. */
    method AllocateFilled(content: Bytes) returns (b: Buffer)
      requires Valid() && content != []
      modifies this, list, list.backing
      ensures Valid() && Extends()
      ensures fresh(b) && all == old(all) + {b} && list.contents == old(list.contents) + [b]
      ensures b.Healthy() && b.alive && b.mutable && b.data.len == |content| && b.Bytes() == content
      ensures b.memory != null && b.memory as object != list.backing
    {
      hide Buffer.Healthy, Buffer.Bytes, Buffer.State, Valid;
      b := Allocate(|content|);
      Fill(b, content);
    }

    /** Stores bytes at an offset of a writable buffer. */
    method Put(b: Buffer, offset: nat, bytes: Bytes)
      requires Valid() && b in all && b.mutable && offset + |bytes| <= b.data.len == |b.Bytes()|
      modifies b.memory
      ensures Valid() && b.Healthy() && b.Bytes() == Splice(old(b.Bytes()), offset, bytes)
    {
      hide Buffer.Healthy, Buffer.Bytes, Buffer.State;
      b.Put(offset, bytes);
      MemoryWritten({b});
    }

    method Destroy(b: Buffer)
      requires Valid() && b in all
      modifies list, list.backing, b, b.memory
      ensures Valid() && list.backing == old(list.backing)
      ensures b.Healthy() && !b.alive && b.memory == null
      ensures list.contents == RemoveFirst(old(list.contents), b)
    {
      hide Buffer.Healthy, Buffer.Bytes, Buffer.State, RemoveFirst;
      b.Retire();
      list.Remove(b);
      RemoveFirstIsDeletion(old(list.contents), b);
    }

    method Freeze(b: Buffer)
      requires Valid() && b in all
      modifies b
      ensures Valid() && b.Healthy() && b.alive == old(b.alive) && !b.mutable
      ensures b.memory == old(b.memory) && b.data == old(b.data) && b.Bytes() == old(b.Bytes())
    {
      hide Buffer.Valid, Buffer.Bytes, Buffer.State, Sound, Agrees;
      var r := b.Freeze(true);
    }

    method Melt(b: Buffer)
      requires Valid() && b in all
      modifies b
      ensures Valid() && b.Healthy() && b.alive == old(b.alive) && b.mutable == b.alive
      ensures b.memory == old(b.memory) && b.data == old(b.data) && b.Bytes() == old(b.Bytes())
    {
      hide Buffer.Valid, Buffer.Bytes, Buffer.State, Sound, Agrees;
      var r := b.Melt(true);
    }
  }
}
