/** The global list of buffers, kept in a backing array that `Remove` shifts in place. */
module Registry {
  import opened Buffers

  predicate NoDuplicates<T(==)>(s: seq<T>) {
    forall i, j :: 0 <= i < j < |s| ==> s[i] != s[j]
  }

  /** `s` without the first occurrence of `x`. */
  function RemoveFirst<T(==)>(s: seq<T>, x: T): seq<T> {
    if s == [] then [] else if s[0] == x then s[1..] else [s[0]] + RemoveFirst(s[1..], x)
  }

  lemma {:induction false} RemoveFirstAt<T>(s: seq<T>, x: T, i: nat)
    requires i < |s| && s[i] == x && forall j :: 0 <= j < i ==> s[j] != x
    ensures RemoveFirst(s, x) == s[..i] + s[i + 1..]
  {
    if i > 0 {
      RemoveFirstAt(s[1..], x, i - 1);
    }
  }

  lemma {:induction false} RemoveFirstAbsent<T>(s: seq<T>, x: T)
    requires x !in s
    ensures RemoveFirst(s, x) == s
  {
    if s != [] {
      RemoveFirstAbsent(s[1..], x);
    }
  }

  /** Without duplicates, deleting the first match deletes the element and nothing else, keeping the order. */
  lemma RemoveFirstIsDeletion<T>(s: seq<T>, x: T)
    requires NoDuplicates(s)
    ensures NoDuplicates(RemoveFirst(s, x))
    ensures forall y :: y in RemoveFirst(s, x) <==> y in s && y != x
    ensures |RemoveFirst(s, x)| == |s| - if x in s then 1 else 0
  {
    if x in s {
      var i :| 0 <= i < |s| && s[i] == x;
      RemoveFirstAt(s, x, i);
      forall y
        ensures y in RemoveFirst(s, x) <==> y in s && y != x
      {
        if y in s && y != x {
          var j :| 0 <= j < |s| && s[j] == y;
          assert if j < i then y in s[..i] else y in s[i + 1..];
        }
      }
    } else {
      RemoveFirstAbsent(s, x);
    }
  }

  lemma {:induction false} RemoveFirstPrefix<T>(s: seq<T>, t: seq<T>, x: T)
    requires x in s
    ensures RemoveFirst(s + t, x) == RemoveFirst(s, x) + t
  {
    assert (s + t)[1..] == s[1..] + t;
    if s[0] != x {
      RemoveFirstPrefix(s[1..], t, x);
    }
  }

  /** Deleting an element behind a prefix leaves the prefix alone. */
  lemma {:induction false} RemoveBehind<T>(s: seq<T>, t: seq<T>, x: T)
    requires x !in s
    ensures RemoveFirst(s + t, x) == s + RemoveFirst(t, x)
  {
    if s == [] {
      assert s + t == t;
    } else {
      assert (s + t)[1..] == s[1..] + t;
      RemoveBehind(s[1..], t, x);
    }
  }

  lemma {:induction false} RemoveFirstSize<T>(s: seq<T>, x: T)
    requires x in s
    ensures |RemoveFirst(s, x)| == |s| - 1 && forall y :: y in RemoveFirst(s, x) ==> y in s
  {
    if s[0] != x {
      RemoveFirstSize(s[1..], x);
    }
  }

  lemma RemoveLast<T>(s: seq<T>, x: T)
    requires x !in s
    ensures RemoveFirst(s + [x], x) == s
  {
    RemoveFirstAt(s + [x], x, |s|);
  }

  class BufferList {
    var backing: array<Buffer?>
    var n: nat
    ghost var contents: seq<Buffer>

    ghost predicate Valid()
      reads this, backing
    {
      n == |contents| <= backing.Length && forall i :: 0 <= i < n ==> backing[i] == contents[i]
    }

    constructor ()
      ensures Valid() && contents == [] && fresh(backing)
    {
      backing := new Buffer?[0];
      n := 0;
      contents := [];
    }

    /** `append` of one element: in place while there is room, else into a larger array. */
    method Add(b: Buffer)
      requires Valid()
      modifies this, backing
      ensures Valid() && contents == old(contents) + [b]
      ensures backing == old(backing) || fresh(backing)
    {
      if n == backing.Length {
        var larger := new Buffer?[2 * n + 1](_ => null);
        for i := 0 to n
          invariant Valid() && contents == old(contents) && backing == old(backing)
          invariant forall j :: 0 <= j < i ==> larger[j] == contents[j]
        {
          larger[i] := backing[i];
        }
        backing := larger;
      }
      backing[n] := b;
      n := n + 1;
      contents := contents + [b];
    }

    /** A snapshot in an array of its own. */
    method Snapshot() returns (list: array<Buffer?>)
      requires Valid()
      ensures fresh(list) && list.Length == |contents|
      ensures forall i :: 0 <= i < |contents| ==> list[i] == contents[i]
    {
      list := new Buffer?[n](_ => null);
      for i := 0 to n
        invariant forall j :: 0 <= j < i ==> list[j] == contents[j]
      {
        list[i] := backing[i];
      }
    }

    method Flush() returns (list: array<Buffer?>)
      requires Valid()
      modifies this
      ensures Valid() && contents == [] && fresh(backing)
      ensures fresh(list) && list.Length == |old(contents)|
      ensures forall i :: 0 <= i < |old(contents)| ==> list[i] == old(contents)[i]
    {
      list := Snapshot();
      backing := new Buffer?[0];
      n := 0;
      contents := [];
    }

    method Exists(b: Buffer) returns (found: bool)
      requires Valid()
      ensures found <==> b in contents
    {
      for i := 0 to n
        invariant forall j :: 0 <= j < i ==> contents[j] != b
      {
        if backing[i] == b {
          assert contents[i] == b;
          return true;
        }
      }
      found := false;
    }

    /** Deletes the first match by shifting the rest of the backing array one place to the front. */
    method Remove(b: Buffer?)
      requires Valid()
      modifies this, backing
      ensures Valid() && backing == old(backing)
      ensures contents == if b == null then old(contents) else RemoveFirst<Buffer>(old(contents), b)
    {
      for i := 0 to n
        invariant Valid() && contents == old(contents) && backing == old(backing) && n == old(n)
        invariant forall j :: 0 <= j < i ==> contents[j] != b
      {
        if backing[i] == b {
          RemoveFirstAt<Buffer>(contents, b, i);
          for k := i + 1 to n
            invariant contents == old(contents) && backing == old(backing) && n == old(n)
            invariant forall j :: 0 <= j < i ==> backing[j] == contents[j]
            invariant forall j :: i <= j < k - 1 ==> backing[j] == contents[j + 1]
            invariant forall j :: k <= j < n ==> backing[j] == contents[j]
          {
            backing[k - 1] := backing[k];
          }
          contents := contents[..i] + contents[i + 1..];
          n := n - 1;
          return;
        }
      }
      if b != null {
        RemoveFirstAbsent<Buffer>(contents, b);
      }
    }
  }
}
