/**
 * The core package as one object: the buffer list and the session key, with the operations on them.
 * System calls succeed here; `Teardown.dfy` lets them fail. Random bytes that decide an outcome are parameters.
 */
module Core {
  import opened Bytes
  import opened Auxiliary
  import opened Buffers
  import opened Crypto
  import opened Pools
  import opened Registry
  import opened SessionSpec

  /** A 32-byte value in two partitions, with a third buffer for the random mask. */
  class Coffer {
    var left: Buffer?
    var right: Buffer?
    var rand: Buffer?
    ghost const repr: set<object>

    constructor Empty()
      ensures left == null && right == null && rand == null && repr == {}
    {
      left, right, rand := null, null, null;
      repr := {};
    }

    constructor (l: Buffer, r: Buffer, m: Buffer)
      requires l.memory != null && r.memory != null && m.memory != null
      ensures left == l && right == r && rand == m
      ensures repr == {l, r, m, l.memory, r.memory, m.memory}
    {
      left, right, rand := l, r, m;
      repr := {l, r, m, l.memory, r.memory, m.memory};
    }

    /** Empty, or three healthy buffers that live and die together. */
    ghost predicate Consistent()
      reads this, repr
    {
      if left == null then right == null && rand == null
      else
        && right != null && rand != null
        && {left, right, rand} <= repr
        && (left.memory != null ==> left.memory in repr)
        && (right.memory != null ==> right.memory in repr)
        && (rand.memory != null ==> rand.memory in repr)
        && left != right && left != rand && right != rand
        && left.Healthy() && right.Healthy() && rand.Healthy()
        && left.alive == right.alive == rand.alive
        && (left.alive ==>
              && left.memory != right.memory && left.memory != rand.memory && right.memory != rand.memory
              && left.mutable && right.mutable && rand.mutable
              && left.data.len == right.data.len == rand.data.len == 32)
    }

    ghost predicate Alive()
      reads this, left
    {
      left != null && left.alive
    }

    ghost function Halves(): Parts
      requires Consistent() && Alive()
      reads this, repr
    {
      Parts(left.Bytes(), right.Bytes())
    }

    /** The abstract key: the two partitions while they live. */
    ghost function Held(): Key
      reads this, repr
    {
      if Consistent() && Alive() then Some(Halves()) else None
    }

    method Destroyed() returns (r: bool)
      requires Consistent()
      ensures r == !Alive() == Held().None?
    {
      if left == null || right == null {
        return true;
      }
      var l := left.IsDestroyed();
      var r' := right.IsDestroyed();
      r := l || r';
    }

    /** The loop of `View`: the buffer becomes `hash(right) XOR left`, byte by byte. */
    method CombineInto(cr: Primitives, b: Buffer)
      requires Consistent() && Alive() && b.Healthy() && b.mutable && b.data.len == 32
      requires b !in repr && b.memory != left.memory && b.memory != right.memory && b.memory !in repr
      modifies b.memory
      ensures Consistent() && Held() == old(Held()) && Held().Some?
      ensures b.Healthy() && b.Bytes() == Value(cr, Held().value)
      ensures right != null && b.Bytes() == Xor(cr.hash(right.Bytes()), left.Bytes())
    {
      hide Buffer.Healthy, Buffer.Bytes, Buffer.State, Xor;
      var h := cr.hash(right.Bytes());
      b.MaskFrom(h, left);
    }

    /** The partitions become the scrambled bytes, the left one masked in place by the hash of the right one. */
    method Init(cr: Primitives, scrambled: Parts) returns (r: Result<()>)
      requires Consistent()
      modifies if left == null then {} else {left.memory, right.memory, rand.memory}
      ensures Consistent()
      ensures r == if old(Held()).Some? then Ok(()) else Err(CofferExpired)
      ensures Held() == if old(Held()).Some? then Some(Split(cr, scrambled)) else None
      ensures r.Ok? ==>
                && left != null && right != null && right.Bytes() == scrambled.right
                && left.Bytes() == Xor(scrambled.left, cr.hash(scrambled.right))
    {
      hide Buffer.Healthy, Buffer.Bytes, Buffer.State, Xor;
      var expired := Destroyed();
      if expired {
        return Err(CofferExpired);
      }
      left.Fill(scrambled.left);
      right.Fill(scrambled.right);
      var r' := right.Bytes();
      left.Mask(cr.hash(r'));
      r := Ok(());
    }

    /** Both partitions are overwritten in place under a new random mask. */
    method Rekey(cr: Primitives, mask: Block) returns (r: Result<()>)
      requires Consistent()
      modifies if left == null then {} else {left.memory, right.memory, rand.memory}
      ensures Consistent()
      ensures r == if old(Held()).Some? then Ok(()) else Err(CofferExpired)
      ensures Held() == if old(Held()).Some? then Some(Resplit(cr, old(Held()).value, mask)) else None
      ensures r.Ok? ==>
                && left != null && right != null && rand != null && rand.Bytes() == mask
                && right.Bytes() == Xor(old(Held()).value.right, mask)
                && left.Bytes() == Xor(old(Held()).value.left, Xor(cr.hash(old(Held()).value.right), cr.hash(right.Bytes())))
    {
      hide Buffer.Healthy, Buffer.Bytes, Buffer.State, Xor;
      var expired := Destroyed();
      if expired {
        return Err(CofferExpired);
      }
      ghost var p := Halves();
      rand.Fill(mask);
      var current := right.Bytes();
      var m := rand.Bytes();
      right.Mask(m);
      var next := right.Bytes();
      assert next == Xor(p.right, mask) && left.Bytes() == p.left;
      left.Mask(Xor(cr.hash(current), cr.hash(next)));
      r := Ok(());
    }
  }

  class Session {
    const cr: Primitives
    const pool: Pool
    var key: Coffer

    ghost predicate Valid()
      reads this, key, pool, pool.list, pool.list.backing, pool.all, set b | b in pool.all :: b.memory
      reads key.repr
    {
      pool.Valid() && InPool(key)
    }

    /** An array of the caller, no part of any buffer. */
    ghost predicate Outside(a: array<Byte>)
      reads this, key, pool, pool.list, pool.all
    {
      pool.Foreign(a) && a !in key.repr
    }

    /** A buffer of the caller: the partitions of the key are not reachable from outside. */
    ghost predicate User(b: Buffer)
      reads this, key, pool, b
    {
      b in pool.all && b !in key.repr && (b.memory == null || b.memory !in key.repr)
    }

    constructor (page: nat, cr: Primitives, canaries: nat -> nat -> Byte)
      requires IsPage(page)
      ensures Valid() && key.Held() == None && pool.list.contents == [] && pool.all == {}
      ensures this.cr == cr && pool.page == page
      ensures fresh(pool) && fresh(pool.list) && fresh(pool.list.backing) && fresh(key)
    {
      this.cr := cr;
      pool := new Pool(page, canaries);
      key := new Coffer.Empty();
    }

    /** The buffers of `s` belong to the pool, and nothing else of the pool is part of `s`. */
    ghost predicate InPool(s: Coffer)
      reads s, s.repr, pool, pool.list
    {
      && s.Consistent()
      && (s.left != null ==> {s.left, s.right, s.rand} <= pool.all)
      && {pool, pool.list, pool.list.backing} !! s.repr
    }

    method AllocatePartitions() returns (l: Buffer, r: Buffer, m: Buffer)
      requires pool.Valid()
      modifies pool, pool.list, pool.list.backing
      ensures pool.Valid() && pool.Extends()
      ensures fresh({l, r, m, l.memory, r.memory, m.memory}) && l != r && l != m && r != m
      ensures l.memory != r.memory && l.memory != m.memory && r.memory != m.memory
      ensures pool.all == old(pool.all) + {l, r, m}
      ensures pool.list.contents == old(pool.list.contents) + [l, r, m]
      ensures forall b :: b in {l, r, m} ==>
                && b.Healthy() && b.alive && b.mutable && b.data.len == 32
                && b.memory != null && b.memory as object != pool.list.backing
    {
      hide Buffer.Healthy, Buffer.Bytes, Buffer.State, Pool.Valid;
      l := pool.Allocate(32);
      r := pool.Allocate(32);
      m := pool.Allocate(32);
    }

    method AllocateCoffer() returns (s: Coffer)
      requires pool.Valid()
      modifies pool, pool.list, pool.list.backing
      ensures pool.Valid() && pool.Extends() && fresh(s) && fresh(s.repr) && InPool(s) && s.Held().Some?
      ensures s.left != null && pool.all == old(pool.all) + {s.left, s.right, s.rand}
      ensures pool.list.contents == old(pool.list.contents) + [s.left, s.right, s.rand]
    {
      hide Buffer.Healthy, Buffer.Bytes, Buffer.State, Pool.Valid;
      var l, r, m := AllocatePartitions();
      s := new Coffer(l, r, m);
    }

    /** `Init` on a coffer of the pool. */
    method InitCoffer(s: Coffer, scrambled: Parts)
      requires pool.Valid() && InPool(s) && s.Held().Some?
      modifies s.left.memory, s.right.memory, s.rand.memory
      ensures pool.Valid() && InPool(s) && s.Held() == Some(Split(cr, scrambled))
    {
      hide Buffer.Healthy, Buffer.Bytes, Buffer.State, Split;
      var done := s.Init(cr, scrambled);
      pool.MemoryWritten({s.left, s.right, s.rand});
    }

    /** A new coffer: three registered buffers of 32 bytes, initialised from the scrambled partitions. */
    method NewCoffer(scrambled: Parts) returns (s: Coffer)
      requires pool.Valid()
      modifies pool, pool.list, pool.list.backing
      ensures pool.Valid() && pool.Extends() && InPool(s)
      ensures fresh({s, s.left, s.right, s.rand}) && fresh(s.repr)
      ensures s.Held() == Some(Split(cr, scrambled))
      ensures s.left != null && pool.all == old(pool.all) + {s.left, s.right, s.rand}
      ensures pool.list.contents == old(pool.list.contents) + [s.left, s.right, s.rand]
    {
      hide Buffer.Healthy, Buffer.Bytes, Buffer.State, Pool.Valid, Split, Coffer.Held;
      s := AllocateCoffer();
      InitCoffer(s, scrambled);
    }

    /** The key is now the one that was live, or a new one from the scrambled partitions. */
    twostate predicate Keyed(scrambled: Parts)
      reads this, key, key.repr, pool, pool.list, pool.all
    {
      && pool.Extends()
      && key.Held() == Some(Ensure(cr, old(key.Held()), scrambled))
      && (old(key.Held()).Some? ==> key == old(key))
      && (old(key.Held()).None? ==> fresh({key, key.left, key.right, key.rand}) && fresh(key.repr))
    }

    /** The buffers that a key made on demand adds to the list. */
    twostate function KeyBuffers(): seq<Buffer?>
      reads this, key
    {
      if old(key.Held()).Some? then [] else [key.left, key.right, key.rand]
    }

    /** The number of buffers that a key made on demand adds to the list. */
    twostate function KeysMade(): nat
      reads this, key, key.repr
    {
      if old(key.Held()).None? && key.Held().Some? then 3 else 0
    }

    /** The list has `n` new buffers behind those it had. */
    twostate predicate Listed(n: nat)
      reads this, pool, pool.list
    {
      var before, now := old(pool.list.contents), pool.list.contents;
      before <= now && |now| == |before| + n && forall i :: |before| <= i < |now| ==> fresh(now[i])
    }

    /** One new buffer and those of a key made on demand. */
    twostate lemma OneAdded(new b: Buffer, scrambled: Parts)
      requires Keyed(scrambled) && fresh(b)
      requires pool.list.contents == old(pool.list.contents) + [b] + KeyBuffers()
      ensures Listed(KeysMade() + 1)
    {
      hide Coffer.Held, Ensure;
    }

    twostate lemma TwoAdded(new b: Buffer, new c: Buffer, scrambled: Parts)
      requires Keyed(scrambled) && fresh(b) && fresh(c)
      requires pool.list.contents == old(pool.list.contents) + [b] + KeyBuffers() + [c]
      ensures Listed(KeysMade() + 2)
    {
      hide Coffer.Held, Ensure;
    }

    /** A new buffer that has left the list again. */
    twostate lemma Unlisted(n: nat, new list: seq<Buffer>, new b: Buffer)
      requires n >= 1 && fresh(b) && b in list && pool.list.contents == RemoveFirst(list, b)
      requires old(pool.list.contents) <= list && |list| == |old(pool.list.contents)| + n
      requires forall i :: |old(pool.list.contents)| <= i < |list| ==> fresh(list[i])
      ensures Listed(n - 1)
    {
      hide RemoveFirst;
      var before := old(pool.list.contents);
      var more := list[|before|..];
      assert list == before + more;
      RemoveBehind(before, more, b);
      RemoveFirstSize(more, b);
      var now := pool.list.contents;
      forall i | |before| <= i < |now|
        ensures fresh(now[i])
      {
        assert now[i] == RemoveFirst(more, b)[i - |before|] && now[i] in more;
        var j :| 0 <= j < |more| && more[j] == now[i];
        assert more[j] == list[|before| + j];
      }
    }

    twostate lemma NothingAdded()
      requires unchanged(pool.list) && key.Held() == old(key.Held())
      ensures Listed(0) && KeysMade() == 0
    {
    }

    /** The key is the live one, or a new one whose three buffers join the list. */
    method GetOrCreateKey(scrambled: Parts)
      requires Valid()
      modifies this, pool, pool.list, pool.list.backing
      ensures Valid() && Keyed(scrambled)
      ensures pool.list.contents == old(pool.list.contents) + KeyBuffers()
    {
      hide Buffer.Healthy, Buffer.Bytes, Buffer.State, Pool.Valid, Split, Coffer.Held, Coffer.Consistent;
      var expired := key.Destroyed();
      if expired {
        key := NewCoffer(scrambled);
      }
    }

    /** A snapshot of the key in a buffer of its own. */
    method View() returns (r: Result<Buffer>)
      requires Valid()
      modifies pool, pool.list, pool.list.backing
      ensures Valid() && pool.Extends() && key.Held() == old(key.Held())
      ensures key.Held().None? ==>
                r == Err(CofferExpired) && pool.all == old(pool.all) && pool.list.contents == old(pool.list.contents)
      ensures key.Held().Some? ==>
                && r.Ok? && fresh(r.value)
                && pool.all == old(pool.all) + {r.value} && pool.list.contents == old(pool.list.contents) + [r.value]
                && r.value.Healthy() && r.value.alive && r.value.Bytes() == Value(cr, key.Held().value)
    {
      hide Buffer.Healthy, Buffer.Bytes, Buffer.State, Coffer.Held, Coffer.Consistent, Value;
      var expired := key.Destroyed();
      if expired {
        return Err(CofferExpired);
      }
      var b := pool.Allocate(32);
      CombineInPool(b);
      r := Ok(b);
    }

    method CombineInPool(b: Buffer)
      requires Valid() && key.Alive() && User(b) && b.memory != null
      requires b.Healthy() && b.alive && b.mutable && b.data.len == 32
      modifies b.memory
      ensures Valid() && key.Held() == old(key.Held()) && key.Held().Some?
      ensures b.Healthy() && b.Bytes() == Value(cr, key.Held().value)
    {
      hide Buffer.Healthy, Buffer.Bytes, Buffer.State, Value;
      key.CombineInto(cr, b);
      pool.MemoryWritten({b});
    }

    /** Encryption under the session key, made on demand: the temporary view of the key leaves no trace. */
    method EncryptUnderKey(p: Bytes, nonce: Nonce, scrambled: Parts) returns (e: Enclave)
      requires Valid()
      modifies this, pool, pool.list, pool.list.backing
      ensures Valid() && Keyed(scrambled) && e == SealWith(cr, key.Held().value, nonce, p) && nonce <= e.ciphertext
      ensures pool.list.contents == old(pool.list.contents) + KeyBuffers()
    {
      hide Buffer.Healthy, Buffer.Bytes, Buffer.State, Pool.Valid, Coffer.Held, Coffer.Consistent;
      hide Value, Ensure, RemoveFirst;
      GetOrCreateKey(scrambled);
      ghost var before := pool.list.contents;
      var v := View();
      var k := v.value;
      var sealed := Encrypt(cr, p, k.Bytes(), nonce);
      pool.Destroy(k);
      RemoveLast(before, k);
      e := Enclave(sealed.value);
    }

    /** Seals a slice of the caller's memory and wipes it. */
    method NewEnclave(buf: array<Byte>, lo: nat, hi: nat, nonce: Nonce, scrambled: Parts) returns (r: Result<Enclave>)
      requires Valid() && Outside(buf) && lo <= hi <= buf.Length
      modifies this, pool, pool.list, pool.list.backing, buf
      ensures Valid() && Outside(buf)
      ensures lo == hi ==> r == Err(NullEnclave) && unchanged(this, pool, pool.list, buf)
      ensures lo < hi ==>
                && Keyed(scrambled)
                && r == Ok(SealWith(cr, key.Held().value, nonce, old(buf[lo..hi]))) && nonce <= r.value.ciphertext
                && buf[..] == Splice(old(buf[..]), lo, Zeros(hi - lo))
                && pool.list.contents == old(pool.list.contents) + KeyBuffers()
    {
      hide Buffer.Healthy, Buffer.Bytes, Buffer.State, Pool.Valid, Coffer.Held, Coffer.Consistent;
      hide Ensure, SealWith;
      if hi == lo {
        return Err(NullEnclave);
      }
      var e := EncryptUnderKey(buf[lo..hi], nonce, scrambled);
      Wipe(buf, lo, hi);
      r := Ok(e);
    }

    /** `NewEnclave` on a slice of the writable bytes of a buffer of the caller, which is wiped in its place. */
    method NewEnclaveOf(b: Buffer, lo: nat, hi: nat, nonce: Nonce, scrambled: Parts) returns (r: Result<Enclave>)
      requires Valid() && User(b) && b.alive && b.mutable && lo <= hi <= |b.Bytes()|
      modifies this, pool, pool.list, pool.list.backing, b.memory
      ensures Valid() && User(b) && b.Healthy() && b.memory == old(b.memory)
      ensures lo == hi ==> r == Err(NullEnclave) && unchanged(this, pool, pool.list) && b.Bytes() == old(b.Bytes())
      ensures lo < hi ==>
                && Keyed(scrambled)
                && r == Ok(SealWith(cr, key.Held().value, nonce, old(b.Bytes())[lo..hi])) && nonce <= r.value.ciphertext
                && b.Bytes() == Splice(old(b.Bytes()), lo, Zeros(hi - lo))
                && pool.list.contents == old(pool.list.contents) + KeyBuffers()
    {
      hide Buffer.Healthy, Buffer.Bytes, Buffer.State, Pool.Valid, Coffer.Held, Coffer.Consistent;
      hide Ensure, SealWith, Splice;
      pool.OffTheList(b);
      LiveHasBytes(b);
      if lo == hi {
        return Err(NullEnclave);
      }
      var e := EncryptUnderKey(b.Bytes()[lo..hi], nonce, scrambled);
      pool.Put(b, lo, Zeros(hi - lo));
      r := Ok(e);
    }

    /** Consumes a buffer: its bytes become an enclave, and it is wiped and destroyed. */
    method Seal(b: Buffer, nonce: Nonce, scrambled: Parts) returns (r: Result<Enclave>)
      requires Valid() && User(b)
      modifies this, pool, pool.list, pool.list.backing, b, b.memory
      ensures Valid() && !b.alive && b.memory == null
      ensures !old(b.alive) ==> r == Err(BufferExpired) && unchanged(this, pool, pool.list)
      ensures old(b.alive) ==>
                && Keyed(scrambled)
                && r == Ok(SealWith(cr, key.Held().value, nonce, old(b.Bytes()))) && nonce <= r.value.ciphertext
                && pool.list.contents == RemoveFirst(old(pool.list.contents), b) + KeyBuffers()
    {
      hide Buffer.Healthy, Buffer.Bytes, Buffer.State, Pool.Valid, Coffer.Held, Coffer.Consistent;
      hide Ensure, SealWith, RemoveFirst;
      if !b.alive {
        pool.DeadIsFreed(b);
        return Err(BufferExpired);
      }
      pool.LiveIsListed(b);
      pool.Melt(b);
      LiveHasBytes(b);
      ghost var content := b.Bytes();
      assert content[0..|content|] == content;
      var e := NewEnclaveOf(b, 0, |b.Bytes()|, nonce, scrambled);
      ghost var added := pool.list.contents[|old(pool.list.contents)|..];
      RemoveFirstPrefix(old(pool.list.contents), added, b);
      Destroy(b);
      r := e;
    }

    /** Bytes put in a new buffer and sealed at once, under the live key: nothing is left of the buffer. */
    method SealBytes(bytes: Bytes, nonce: Nonce, scrambled: Parts) returns (e: Enclave)
      requires Valid() && key.Held().Some? && bytes != []
      modifies this, pool, pool.list, pool.list.backing
      ensures Valid() && pool.Extends() && key == old(key) && key.Held() == old(key.Held())
      ensures e == SealWith(cr, key.Held().value, nonce, bytes) && nonce <= e.ciphertext
      ensures pool.list.contents == old(pool.list.contents)
    {
      hide Buffer.Healthy, Buffer.Bytes, Buffer.State, Pool.Valid, Coffer.Held, Coffer.Consistent;
      hide SealWith, RemoveFirst;
      ghost var before := pool.list.contents;
      var c := pool.AllocateFilled(bytes);
      var r := Seal(c, nonce, scrambled);
      RemoveLast(before, c);
      e := r.value;
    }

    /** Decryption under the session key; the view of the key is destroyed only on success. */
    method DecryptUnderKey(e: Enclave, capacity: nat, scrambled: Parts) returns (d: Result<Bytes>, ghost view: Buffer)
      requires Valid()
      modifies this, pool, pool.list, pool.list.backing
      ensures Valid() && Keyed(scrambled) && fresh(view)
      ensures d == Decrypt(cr, e.ciphertext, Value(cr, key.Held().value), capacity)
      ensures pool.list.contents == old(pool.list.contents) + KeyBuffers() + if d.Ok? then [] else [view]
    {
      hide Buffer.Healthy, Buffer.Bytes, Buffer.State, Pool.Valid, Coffer.Held, Coffer.Consistent;
      hide Value, Ensure, RemoveFirst, Decrypt;
      GetOrCreateKey(scrambled);
      ghost var before := pool.list.contents;
      var v := View();
      var k := v.value;
      d, view := Decrypt(cr, e.ciphertext, k.Bytes(), capacity), k;
      if d.Ok? {
        pool.Destroy(k);
        RemoveLast(before, k);
      }
    }

    /**
     * Decrypts into a new buffer. On success the only trace is that buffer (and a key made on demand);
     * when decryption fails, the buffer and the view of the key both stay registered.
     */
    method Open(e: Enclave, scrambled: Parts) returns (r: Result<Buffer>, ghost leaked: seq<Buffer>)
      requires Valid() && Lawful(cr)
      modifies this, pool, pool.list, pool.list.backing
      ensures Valid()
      ensures Size(e) < 1 ==> r == Err(NullBuffer) && unchanged(this, pool, pool.list)
      ensures Size(e) >= 1 ==> Keyed(scrambled)
      ensures Size(e) >= 1 ==>
                match OpenWith(cr, key.Held().value, e)
                case Ok(p) =>
                  && r.Ok? && fresh(r.value) && User(r.value) && r.value.alive && r.value.mutable && r.value.Bytes() == p
                  && fresh(r.value.memory)
                  && pool.list.contents == old(pool.list.contents) + [r.value] + KeyBuffers()
                case Err(error) =>
                  && r == Err(error) && |leaked| == 2 && fresh(leaked)
                  && pool.list.contents == old(pool.list.contents) + [leaked[0]] + KeyBuffers() + [leaked[1]]
    {
      hide Buffer.Healthy, Buffer.Bytes, Buffer.State, Pool.Valid, Coffer.Held, Coffer.Consistent;
      hide Ensure, Value;
      leaked := [];
      if Size(e) < 1 {
        return Err(NullBuffer), [];
      }
      var b := pool.Allocate(Size(e));
      var d, view := DecryptUnderKey(e, b.data.len, scrambled);
      if d.Err? {
        return Err(d.error), [b, view];
      }
      pool.Fill(b, d.value);
      r := Ok(b);
    }

    /** What the ticker does twice a second: the key is split anew and keeps its value. */
    method Rekey(mask: Block) returns (r: Result<()>)
      requires Valid()
      modifies if key.left == null then {} else {key.left.memory, key.right.memory, key.rand.memory}
      ensures Valid()
      ensures r == if old(key.Held()).Some? then Ok(()) else Err(CofferExpired)
      ensures key.Held() == if old(key.Held()).Some? then Some(Resplit(cr, old(key.Held()).value, mask)) else None
      ensures r.Ok? ==> key.Held().value.right == Xor(old(key.Held()).value.right, mask)
    {
      hide Buffer.Healthy, Buffer.Bytes, Buffer.State, Resplit;
      r := key.Rekey(cr, mask);
      pool.MemoryWritten(if key.left == null then {} else {key.left, key.right, key.rand});
    }

    /** `Freeze` on a buffer of the caller. */
    method Freeze(b: Buffer)
      requires Valid() && User(b)
      modifies b
      ensures Valid() && User(b) && key.Held() == old(key.Held())
      ensures b.alive == old(b.alive) && !b.mutable && b.Healthy()
      ensures b.memory == old(b.memory) && b.data == old(b.data) && b.Bytes() == old(b.Bytes())
    {
      hide Buffer.Healthy, Buffer.Bytes, Buffer.State, Pool.Valid, Coffer.Held, Coffer.Consistent;
      pool.Freeze(b);
    }

    /** `Open` of the public package: the buffer is frozen, and all that can go wrong is the decryption. */
    method OpenFrozen(e: Enclave, scrambled: Parts) returns (r: Result<Buffer>)
      requires Valid() && Lawful(cr) && Size(e) >= 1
      modifies this, pool, pool.list, pool.list.backing
      ensures Valid() && Keyed(scrambled) && Listed(KeysMade() + if r.Ok? then 1 else 2)
      ensures match OpenWith(cr, key.Held().value, e)
              case Ok(p) =>
                && r.Ok? && fresh(r.value) && User(r.value) && r.value.alive && !r.value.mutable && r.value.Healthy()
                && r.value.Bytes() == p && pool.list.contents == old(pool.list.contents) + [r.value] + KeyBuffers()
              case Err(_) => r == Err(DecryptionFailed)
    {
      hide Valid, Buffer.Healthy, Buffer.Bytes, Buffer.State, Coffer.Held, Coffer.Consistent, Ensure, OpenWith, Lawful;
      hide Listed, KeysMade;
      ghost var leaked;
      r, leaked := Open(e, scrambled);
      OpenErrors(cr, key.Held().value, e);
      if r.Err? {
        TwoAdded(leaked[0], leaked[1], scrambled);
      } else {
        OneAdded(r.value, scrambled);
        Freeze(r.value);
      }
    }

    /** Overwrites the bytes of a writable buffer of the caller. */
    method Write(b: Buffer, content: Bytes)
      requires Valid() && User(b) && b.mutable && |content| == |b.Bytes()|
      modifies b.memory
      ensures Valid() && key.Held() == old(key.Held()) && b.Bytes() == content
    {
      hide Buffer.Bytes, Buffer.State, Pool.Valid, Coffer.Held, Coffer.Consistent;
      LiveHasBytes(b);
      pool.Fill(b, content);
    }

    lemma LiveHasBytes(b: Buffer)
      requires Valid() && User(b)
      ensures b.Healthy() && |b.Bytes()| == b.data.len && (b.alive ==> b.Bytes() != [])
    {
    }

    /** `Destroy` on a buffer of the caller. */
    method Destroy(b: Buffer)
      requires Valid() && User(b)
      modifies pool.list, pool.list.backing, b, b.memory
      ensures Valid() && key.Held() == old(key.Held()) && !b.alive && b.memory == null
      ensures pool.list.backing == old(pool.list.backing)
      ensures pool.list.contents == RemoveFirst(old(pool.list.contents), b)
    {
      hide Buffer.Healthy, Buffer.Bytes, Buffer.State, Pool.Valid, Coffer.Held, Coffer.Consistent, RemoveFirst;
      pool.Destroy(b);
    }

    lemma PageIsPositive()
      requires Valid()
      ensures pool.page >= 1
    {
      pool.PageIsPositive();
    }
  }
}
