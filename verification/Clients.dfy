/** A caller with its buffers and enclaves: every call on the session is the step of the run model. */
module Clients {
  import opened Bytes
  import opened Buffers
  import opened Core
  import opened Crypto
  import opened Pools
  import opened Registry
  import Spec = SessionSpec
  import Teardown

  ghost function Content(b: Buffer): Option<Bytes>
    reads b, b.memory
  {
    if b.alive then Some(b.Bytes()) else None
  }

  ghost function Contents(bs: seq<Buffer>): (s: seq<Option<Bytes>>)
    reads bs, set b | b in bs :: b.memory
    ensures |s| == |bs|
  {
    seq(|bs|, i requires 0 <= i < |bs| reads bs, set b | b in bs :: b.memory => Content(bs[i]))
  }

  lemma ContentsSnoc(bs: seq<Buffer>, b: Buffer)
    ensures Contents(bs + [b]) == Contents(bs) + [Content(b)]
  {
  }

  lemma ContentsAt(bs: seq<Buffer>)
    ensures forall i :: 0 <= i < |bs| ==> Contents(bs)[i] == Content(bs[i])
  {
  }

  /** Only the buffer at `i` differs from what was there before. */
  lemma ContentsUpdate(bs: seq<Buffer>, before: seq<Option<Bytes>>, i: nat)
    requires i < |bs| == |before| && forall j :: 0 <= j < |bs| && j != i ==> Content(bs[j]) == before[j]
    ensures Contents(bs) == before[i := Content(bs[i])]
    ensures before[i] == Content(bs[i]) ==> Contents(bs) == before
  {
  }

  class Client {
    const session: Session
    var buffers: seq<Buffer>
    var enclaves: seq<Spec.Enclave>

    /** The buffers are distinct, writable ones of the session, and the enclaves hold something. */
    ghost predicate Owns()
      reads this, session, session.key, session.pool, session.pool.list, buffers
    {
      && NoDuplicates(buffers)
      && (forall b :: b in buffers ==> session.User(b) && (b.alive ==> b.mutable))
      && (forall b :: b in buffers && b.memory != null ==> b.memory as object != session.pool.list.backing)
      && (forall b, c :: b in buffers && c in buffers && b != c && b.memory != null ==> b.memory != c.memory)
      && (forall i :: 0 <= i < |enclaves| ==> Spec.Size(enclaves[i]) >= 1)
    }

    ghost predicate Valid()
      reads this, session, session.key, session.key.repr, session.pool, session.pool.list, session.pool.list.backing
      reads session.pool.all, (set b | b in session.pool.all :: b.memory), buffers
    {
      session.Valid() && Lawful(session.cr) && Owns() && this !in session.key.repr
    }

    ghost function World(): Spec.World
      reads this, session, session.key, session.key.repr, buffers, set b | b in buffers :: b.memory
    {
      Spec.World(session.key.Held(), false, Contents(buffers), enclaves)
    }

    constructor (session: Session)
      requires session.Valid() && Lawful(session.cr)
      ensures Valid() && World() == Spec.World(session.key.Held(), false, [], [])
    {
      this.session, buffers, enclaves := session, [], [];
    }

    /** A new buffer of the session becomes one of the caller's. */
    method Adopt(b: Buffer)
      requires Valid() && session.User(b) && b.alive && b.mutable && b !in buffers
      requires b.memory != null && forall c :: c in buffers ==> c.memory != b.memory
      modifies this`buffers
      ensures Valid() && World() == old(World()).(buffers := old(World()).buffers + [Some(b.Bytes())])
    {
      hide Buffer.Healthy, Buffer.Bytes, Buffer.State, Pool.Valid, Coffer.Held, Coffer.Consistent, Lawful, Contents;
      session.pool.OffTheList(b);
      ContentsSnoc(buffers, b);
      buffers := buffers + [b];
    }

    /** A new enclave becomes one of the caller's. */
    method Keep(e: Spec.Enclave)
      requires Valid() && Spec.Size(e) >= 1
      modifies this`enclaves
      ensures Valid() && World() == old(World()).(enclaves := old(enclaves) + [e])
    {
      hide Buffer.Healthy, Buffer.Bytes, Buffer.State, Pool.Valid, Coffer.Held, Coffer.Consistent, Lawful, Contents;
      hide Session.Valid, Session.User, Spec.Size, NoDuplicates;
      enclaves := enclaves + [e];
    }

    method NewBuffer(content: Bytes)
      requires Valid()
      modifies this, session.pool, session.pool.list, session.pool.list.backing
      ensures Valid() && World() == Spec.Step(session.cr, old(World()), Spec.NewBuffer(content))
    {
      hide Buffer.Healthy, Buffer.Bytes, Buffer.State, Pool.Valid, Coffer.Held, Coffer.Consistent, Lawful, Contents;
      if content != [] {
        var b := session.pool.AllocateFilled(content);
        Adopt(b);
      }
    }

    method DestroyBuffer(i: nat)
      requires Valid()
      modifies session.pool.list, session.pool.list.backing
      modifies if i < |buffers| then {buffers[i], buffers[i].memory} else {}
      ensures Valid() && World() == Spec.Step(session.cr, old(World()), Spec.DestroyBuffer(i))
    {
      hide Buffer.Healthy, Buffer.Bytes, Buffer.State, Pool.Valid, Coffer.Held, Coffer.Consistent;
      hide Lawful, Contents, RemoveFirst;
      if i < |buffers| {
        ContentsAt(buffers);
        ghost var before := Contents(buffers);
        session.Destroy(buffers[i]);
        ContentsUpdate(buffers, before, i);
      }
    }

    method WriteBuffer(i: nat, content: Bytes)
      requires Valid()
      modifies if i < |buffers| then {buffers[i].memory} else {}
      ensures Valid() && World() == Spec.Step(session.cr, old(World()), Spec.WriteBuffer(i, content))
    {
      hide Buffer.Healthy, Buffer.Bytes, Buffer.State, Pool.Valid, Coffer.Held, Coffer.Consistent, Lawful, Contents;
      ContentsAt(buffers);
      ghost var before := Contents(buffers);
      if i < |buffers| && buffers[i].alive && |content| == |buffers[i].Bytes()| {
        session.Write(buffers[i], content);
        ContentsUpdate(buffers, before, i);
      }
    }

    method SealBuffer(i: nat, nonce: Nonce, scrambled: Spec.Parts)
      requires Valid()
      modifies this, session, session.pool, session.pool.list, session.pool.list.backing
      modifies if i < |buffers| then {buffers[i], buffers[i].memory} else {}
      ensures Valid() && World() == Spec.Step(session.cr, old(World()), Spec.SealBuffer(i, nonce, scrambled))
    {
      hide Buffer.Healthy, Buffer.Bytes, Buffer.State, Pool.Valid, Coffer.Held, Coffer.Consistent;
      hide Lawful, Contents, RemoveFirst;
      hide Spec.Ensure, Spec.SealWith, Spec.Size;
      ContentsAt(buffers);
      ghost var before := Contents(buffers);
      if i < |buffers| && buffers[i].alive {
        session.LiveHasBytes(buffers[i]);
        ghost var p := buffers[i].Bytes();
        var r := session.Seal(buffers[i], nonce, scrambled);
        Spec.SealedSize(session.cr, session.key.Held().value, nonce, p);
        Keep(r.value);
        ContentsUpdate(buffers, before, i);
      }
    }

    method NewEnclave(buf: array<Byte>, nonce: Nonce, scrambled: Spec.Parts)
      requires Valid() && session.Outside(buf)
      modifies this, session, session.pool, session.pool.list, session.pool.list.backing, buf
      ensures Valid() && World() == Spec.Step(session.cr, old(World()), Spec.NewEnclave(old(buf[..]), nonce, scrambled))
    {
      hide Buffer.Healthy, Buffer.Bytes, Buffer.State, Pool.Valid, Coffer.Held, Coffer.Consistent;
      hide Lawful, Contents, RemoveFirst;
      hide Spec.Ensure, Spec.SealWith, Spec.Size;
      ghost var p := buf[..];
      assert buf[0..buf.Length] == p;
      var r := session.NewEnclave(buf, 0, buf.Length, nonce, scrambled);
      if r.Ok? {
        Spec.SealedSize(session.cr, session.key.Held().value, nonce, p);
        Keep(r.value);
      }
    }

    method OpenEnclave(e: nat, scrambled: Spec.Parts)
      requires Valid()
      modifies this, session, session.pool, session.pool.list, session.pool.list.backing
      ensures Valid() && World() == Spec.Step(session.cr, old(World()), Spec.OpenEnclave(e, scrambled))
    {
      hide Buffer.Healthy, Buffer.Bytes, Buffer.State, Pool.Valid, Coffer.Held, Coffer.Consistent;
      hide Lawful, Contents, RemoveFirst;
      hide Spec.Ensure, Spec.OpenWith, Spec.Size;
      if e < |enclaves| {
        var r, leaked := session.Open(enclaves[e], scrambled);
        if r.Ok? {
          Adopt(r.value);
        }
      }
    }

    method Rekey(mask: Block)
      requires Valid()
      modifies
        if session.key.left == null then {}
        else {session.key.left.memory, session.key.right.memory, session.key.rand.memory}
      ensures Valid() && World() == Spec.Step(session.cr, old(World()), Spec.Rekey(mask))
    {
      hide Buffer.Healthy, Buffer.Bytes, Buffer.State, Pool.Valid, Lawful;
      var r := session.Rekey(mask);
    }

    /** System calls succeed; `Teardown.PurgeSession` is the purge under failures. */
    method Purge()
      requires Valid()
      modifies session.pool.list, session.pool.list.contents, set b | b in session.pool.list.contents :: b.memory
      ensures Valid() && World() == Spec.Step(session.cr, old(World()), Spec.Purge(false, _ => None))
    {
      hide Buffer.Healthy, Buffer.Bytes, Buffer.State, Pool.Valid, Coffer.Held, Coffer.Consistent, Lawful, Contents;
      Teardown.Purge(session);
      forall b | b in buffers ensures b.memory == null {
        session.pool.DeadIsFreed(b);
      }
      ContentsAt(buffers);
    }
  }
}
