/** The message recycler (include/core/pool/MessagePool.hpp). */
module MessagePools {
  /** A message object; recycling reconstructs its contents, of type `T`, in place. */
  class PooledMessage<T> {
    var contents: T

    constructor (m: T)
      ensures contents == m
    {
      contents := m;
    }
  }

  // ---------------------------------------------------------------- how many objects a run needs

  datatype Request = Acquire | Release

  /** Sizes of the pool: recycled objects waiting, objects held by users, and objects ever allocated. */
  datatype Sizes = Sizes(pooled: nat, live: nat, made: nat)

  /** A release with nothing live does not occur: each is the end of an acquired object. */
  function Serve(z: Sizes, r: Request): Sizes {
    match r
    case Acquire =>
      if z.pooled == 0 then Sizes(0, z.live + 1, z.made + 1) else Sizes(z.pooled - 1, z.live + 1, z.made)
    case Release => if z.live == 0 then z else Sizes(z.pooled + 1, z.live - 1, z.made)
  }

  function ServeAll(rs: seq<Request>): Sizes {
    if rs == [] then Sizes(0, 0, 0) else Serve(ServeAll(rs[..|rs| - 1]), rs[|rs| - 1])
  }

  /** Objects in use after the requests, whatever pool serves them. */
  function InUse(rs: seq<Request>): nat {
    if rs == [] then 0
    else
      var n := InUse(rs[..|rs| - 1]);
      if rs[|rs| - 1].Acquire? then n + 1 else if n == 0 then 0 else n - 1
  }

  /** The most objects in use at any time during the requests. */
  function Peak(rs: seq<Request>): nat {
    if rs == [] then 0
    else
      var p := Peak(rs[..|rs| - 1]);
      if InUse(rs) > p then InUse(rs) else p
  }

  /** The pool never allocates more than it must: as many objects as were ever in use at once. */
  lemma {:induction false} AllocatesPeak(rs: seq<Request>)
    ensures var z := ServeAll(rs);
            z.live == InUse(rs) && z.made == z.pooled + z.live && z.made == Peak(rs)
  {
    if rs != [] {
      AllocatesPeak(rs[..|rs| - 1]);
    }
  }

  // ---------------------------------------------------------------- the pool object

  /** The stack `pool` and the objects in use are disjoint, without repetition, and together all that were ever made. */
  ghost predicate Owned<M>(pool: seq<M>, live: set<M>, made: set<M>) {
    && (forall i, j :: 0 <= i < j < |pool| ==> pool[i] != pool[j])
    && (forall i :: 0 <= i < |pool| ==> pool[i] !in live && pool[i] in made)
    && live <= made
    && (forall m :: m in made && m !in live ==> m in pool)
  }

  lemma OwnedMade<M>(live: set<M>, made: set<M>, m: M)
    requires Owned([], live, made) && m !in made
    ensures Owned([], live + {m}, made + {m})
    ensures |live + {m}| == |live| + 1 && |made + {m}| == |made| + 1
  {
  }

  lemma OwnedPopped<M>(pool: seq<M>, live: set<M>, made: set<M>)
    requires Owned(pool, live, made) && pool != []
    ensures var m := pool[|pool| - 1];
            Owned(pool[..|pool| - 1], live + {m}, made) && m !in live && m in made && |live + {m}| == |live| + 1
  {
  }

  lemma OwnedPushed<M>(pool: seq<M>, live: set<M>, made: set<M>, m: M)
    requires Owned(pool, live, made) && m in live
    ensures Owned(pool + [m], live - {m}, made) && |live - {m}| == |live| - 1
  {
    forall x | x in made && x !in live - {m}
      ensures x in pool + [m]
    {
      if x != m {
        assert x in pool;
      }
    }
  }

  class MessagePool<T> {
    /** Used as a stack. */
    var pool: seq<PooledMessage<T>>

    ghost var live: set<PooledMessage<T>>
    ghost var made: set<PooledMessage<T>>

    ghost predicate Valid()
      reads this
    {
      Owned(pool, live, made)
    }

    ghost function Counts(): Sizes
      reads this
    {
      Sizes(|pool|, |live|, |made|)
    }

    constructor ()
      ensures Valid() && Counts() == ServeAll([]) && made == {}
    {
      pool, live, made := [], {}, {};
    }

    /** acquire: a recycled object if there is one, else a new one; never one that is in use. */
    method AcquireMessage(m: T) returns (r: PooledMessage<T>)
      requires Valid()
      modifies this, pool
      ensures Valid() && Counts() == Serve(old(Counts()), Acquire)
      ensures r !in old(live) && live == old(live) + {r} && r.contents == m
      ensures if old(pool) == [] then fresh(r) && made == old(made) + {r}
              else r == old(pool)[|old(pool)| - 1] && made == old(made)
      ensures forall x :: x in old(live) ==> x.contents == old(x.contents)
    {
      hide Owned;
      if pool == [] {
        r := new PooledMessage(m);
        OwnedMade(live, made, r);
        made := made + {r};
      } else {
        r := pool[|pool| - 1];
        OwnedPopped(pool, live, made);
        pool := pool[..|pool| - 1];
        r.contents := m;
      }
      live := live + {r};
    }

    /** release: run once for each acquired object, when its last owner lets go of it. */
    method ReleaseMessage(p: PooledMessage<T>)
      requires Valid() && p in live
      modifies this
      ensures Valid() && Counts() == Serve(old(Counts()), Release)
      ensures live == old(live) - {p} && made == old(made) && pool == old(pool) + [p]
    {
      hide Owned;
      OwnedPushed(pool, live, made, p);
      pool := pool + [p];
      live := live - {p};
    }
  }
}
