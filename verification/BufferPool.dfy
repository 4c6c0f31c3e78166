/** The pool of reference-counted frame buffers of an input stream in ffmpeg: a free list
    through the buffers themselves, shared by the decoder and the filters. */
module BufferPool {

  /** A frame or a filter reference that may hold a buffer. */
  type Holder = nat

  class FrameBuffer {
    const w: int
    const h: int
    const pixFmt: int
    var refcount: int
    var next: FrameBuffer?

    constructor (w: int, h: int, pixFmt: int)
      ensures this.w == w && this.h == h && this.pixFmt == pixFmt && refcount == 0 && next == null
    {
      this.w, this.h, this.pixFmt := w, h, pixFmt;
      refcount, next := 0, null;
    }
  }

  ghost predicate Distinct(bs: seq<FrameBuffer>) {
    forall i, j :: 0 <= i < j < |bs| ==> bs[i] != bs[j]
  }

  lemma DistinctConcat(a: seq<FrameBuffer>, b: seq<FrameBuffer>)
    requires Distinct(a) && Distinct(b) && forall x :: x in b ==> x !in a
    ensures Distinct(a + b)
  {
    var c := a + b;
    forall i, j | 0 <= i < j < |c|
      ensures c[i] != c[j]
    {
      if i < |a| <= j { assert b[j - |a|] in b && a[i] in a; }
    }
  }

  /** Buffer i of the list points to the next one, the last one to nothing. */
  ghost predicate LinkAt(pool: seq<FrameBuffer>, i: nat)
    requires i < |pool|
    reads pool`next
  {
    pool[i].next == if i + 1 < |pool| then pool[i + 1] else null
  }

  /** pool is the chain of distinct buffers from first to the end of the list. */
  ghost predicate Linked(pool: seq<FrameBuffer>, first: FrameBuffer?)
    reads pool`next
  {
    && Distinct(pool)
    && first == (if pool == [] then null else pool[0])
    && forall i :: 0 <= i < |pool| ==> LinkAt(pool, i)
  }

  /** Without its head the list goes on. */
  lemma TailLinked(pool: seq<FrameBuffer>, first: FrameBuffer?)
    requires Linked(pool, first) && pool != []
    ensures first == pool[0] && first !in pool[1..] && Linked(pool[1..], first.next)
  {
    assert LinkAt(pool, 0);
    forall i | 0 <= i < |pool[1..]| ensures LinkAt(pool[1..], i) { assert LinkAt(pool, i + 1); }
  }

  lemma HeadLinked(pool: seq<FrameBuffer>, first: FrameBuffer?, buf: FrameBuffer)
    requires Linked(pool, first) && buf !in pool && buf.next == first
    ensures Linked([buf] + pool, buf)
  {
    var longer := [buf] + pool;
    forall i | 0 <= i < |longer| ensures LinkAt(longer, i) { if i > 0 { assert LinkAt(pool, i - 1); } }
  }

  /** Who holds buf. */
  ghost function HeldBy(holders: map<Holder, FrameBuffer>, buf: FrameBuffer): set<Holder> {
    set h | h in holders && holders[h] == buf
  }

  lemma HolderJoins(holders: map<Holder, FrameBuffer>, h: Holder, buf: FrameBuffer, other: FrameBuffer)
    requires h !in holders
    ensures |HeldBy(holders[h := buf], other)| == |HeldBy(holders, other)| + if other == buf then 1 else 0
  {
    if other == buf {
      assert HeldBy(holders[h := buf], other) == HeldBy(holders, other) + {h};
    } else {
      assert HeldBy(holders[h := buf], other) == HeldBy(holders, other);
    }
  }

  lemma HolderLeaves(holders: map<Holder, FrameBuffer>, h: Holder, other: FrameBuffer)
    requires h in holders
    ensures |HeldBy(holders - {h}, other)| == |HeldBy(holders, other)| - if other == holders[h] then 1 else 0
  {
    if other == holders[h] {
      assert HeldBy(holders, other) == HeldBy(holders - {h}, other) + {h};
    } else {
      assert HeldBy(holders - {h}, other) == HeldBy(holders, other);
    }
  }

  /** Each live buffer counts its holders, and is in the list exactly when it has none. */
  ghost predicate Counted(live: set<FrameBuffer>, pool: seq<FrameBuffer>, holders: map<Holder, FrameBuffer>)
    reads live`refcount
  {
    && (forall b :: b in live ==> b.refcount == |HeldBy(holders, b)|)
    && (forall b :: b in pool ==> b in live)
    && (forall b :: b in live ==> (b in pool <==> b.refcount == 0))
    && (forall h :: h in holders ==> holders[h] in live)
  }

  predicate Fits(buf: FrameBuffer, w: int, h: int, pixFmt: int) {
    buf.w == w && buf.h == h && buf.pixFmt == pixFmt
  }

  class InputStream {
    var bufferPool: FrameBuffer?

    ghost var pool: seq<FrameBuffer>
    /** Allocated and not freed. */
    ghost var live: set<FrameBuffer>
    /** Every buffer given back to the allocator, in order. */
    ghost var freed: seq<FrameBuffer>
    /** Every buffer ever allocated. */
    ghost var made: set<FrameBuffer>
    ghost var holders: map<Holder, FrameBuffer>

    ghost predicate Valid()
      reads this, live, pool
    {
      && Linked(pool, bufferPool)
      && Counted(live, pool, holders)
      && Distinct(freed)
      && (forall b :: b in freed ==> b !in live)
      && made == live + (set b | b in freed)
    }

    constructor ()
      ensures Valid() && pool == [] && live == {} && freed == [] && made == {} && holders == map[]
    {
      bufferPool, pool, live, freed, made, holders := null, [], {}, [], {}, map[];
    }

    /** alloc_buffer into the empty pool. */
    method Refill(w: int, ht: int, pixFmt: int)
      requires Valid() && bufferPool == null
      modifies `bufferPool, `pool, `live, `made
      ensures Valid() && bufferPool != null && fresh(bufferPool) && pool == [bufferPool]
      ensures bufferPool.w == w && bufferPool.h == ht && bufferPool.pixFmt == pixFmt
      ensures live == old(live) + {bufferPool}
    {
      var buf := new FrameBuffer(w, ht, pixFmt);
      assert buf !in live && buf !in freed && buf !in made;
      assert HeldBy(holders, buf) == {};
      bufferPool := buf;
      pool := [buf];
      live := live + {buf};
      made := made + {buf};
    }

    /** The head of the pool goes to h. */
    method Take(ghost h: Holder) returns (buf: FrameBuffer)
      requires Valid() && bufferPool != null && h !in holders
      modifies `bufferPool, `pool, `holders, bufferPool
      ensures Valid() && buf == old(bufferPool) && holders == old(holders)[h := buf]
      ensures buf.refcount == 1 && buf.next == null
      ensures live == old(live)
    {
      hide Linked;
      buf := bufferPool;
      HeadOfPool();
      TailLinked(pool, bufferPool);
      bufferPool := buf.next;
      buf.next := null;
      assert buf.refcount == 0;
      buf.refcount := buf.refcount + 1;
      forall b { HolderJoins(holders, h, buf, b); }
      pool := pool[1..];
      holders := holders[h := buf];
    }

    /** The head of the pool is live and nobody holds it. */
    lemma HeadOfPool()
      requires Valid() && bufferPool != null
      ensures pool != [] && pool[0] == bufferPool && bufferPool in live
      ensures bufferPool.refcount == 0 && bufferPool !in freed
      ensures forall h :: h in holders ==> holders[h] != bufferPool
      ensures forall b :: b in live && b != bufferPool ==> (b in pool <==> b in pool[1..])
    {
      assert bufferPool in pool && HeldBy(holders, bufferPool) == {};
      assert forall h :: h in holders && holders[h] == bufferPool ==> h in HeldBy(holders, bufferPool);
      assert pool == [pool[0]] + pool[1..];
    }

    /** A head of another size or format is freed. */
    method Drop()
      requires Valid() && bufferPool != null
      modifies `bufferPool, `pool, `live, `freed, bufferPool`next
      ensures Valid() && holders == old(holders) && freed == old(freed) + [old(bufferPool)]
      ensures live == old(live) - {old(bufferPool)} && pool == old(pool)[1..]
    {
      hide Linked;
      var buf := bufferPool;
      HeadOfPool();
      TailLinked(pool, bufferPool);
      bufferPool := buf.next;
      buf.next := null;
      pool := pool[1..];
      live := live - {buf};
      freed := freed + [buf];
    }

    /** A new buffer goes straight to h. */
    method Replace(ghost h: Holder, w: int, ht: int, pixFmt: int) returns (buf: FrameBuffer)
      requires Valid() && h !in holders
      modifies `live, `made, `holders
      ensures Valid() && fresh(buf) && holders == old(holders)[h := buf] && buf.refcount == 1 && buf.next == null
      ensures buf.w == w && buf.h == ht && buf.pixFmt == pixFmt && live == old(live) + {buf}
    {
      buf := new FrameBuffer(w, ht, pixFmt);
      assert buf !in live && buf !in freed && buf !in pool;
      assert HeldBy(holders, buf) == {};
      assert buf.refcount == 0;
      buf.refcount := buf.refcount + 1;
      forall b { HolderJoins(holders, h, buf, b); }
      live := live + {buf};
      made := made + {buf};
      holders := holders[h := buf];
    }

    /** codec_get_buffer for a new holder.  sizeOk is the check of the picture size; memory
        tells whether the first and the second allocation succeed. */
    method GetBuffer(ghost h: Holder, w: int, ht: int, pixFmt: int, sizeOk: bool, memory: (bool, bool))
      returns (r: FrameBuffer?)
      requires Valid() && h !in holders
      modifies this, live
      ensures Valid()
      ensures r == null ==> holders == old(holders)
      ensures r != null ==> holders == old(holders)[h := r] && r.refcount == 1
      ensures r != null ==> r.w == w && r.h == ht && r.pixFmt == pixFmt
      ensures r != null ==> forall other :: other in old(holders) ==> old(holders)[other] != r
      ensures r != null ==> r !in freed && r.next == null
      ensures sizeOk && pixFmt >= 0 ==>
        (r == null <==>
         if old(bufferPool) == null then !memory.0 else !Fits(old(bufferPool), w, ht, pixFmt) && !memory.1)
      ensures !sizeOk || pixFmt < 0 ==> r == null
      ensures r != null && old(bufferPool) != null ==>
        if Fits(old(bufferPool), w, ht, pixFmt) then r == old(bufferPool) && freed == old(freed)
        else fresh(r) && freed == old(freed) + [old(bufferPool)]
    {
      r := null;
      if !sizeOk || pixFmt < 0 {
        return;
      }
      if bufferPool == null {
        if !memory.0 {
          return;
        }
        Refill(w, ht, pixFmt);
      }
      var buf := bufferPool;
      if buf.w != w || buf.h != ht || buf.pixFmt != pixFmt {
        Drop();
        if !memory.1 {
          return;
        }
        r := Replace(h, w, ht, pixFmt);
      } else {
        HeadOfPool();
        r := Take(h);
      }
    }

    /** decode_video gives a filter its own reference to the buffer of a decoded frame. */
    method Share(ghost frame: Holder, buf: FrameBuffer, ghost filter: Holder)
      requires Valid() && frame in holders && holders[frame] == buf && filter !in holders
      modifies `holders, buf`refcount
      ensures Valid() && holders == old(holders)[filter := buf] && buf.refcount == old(buf.refcount) + 1
    {
      assert frame in HeldBy(holders, buf);
      assert buf.refcount > 0;
      buf.refcount := buf.refcount + 1;
      forall b { HolderJoins(holders, filter, buf, b); }
      holders := holders[filter := buf];
    }

    /** codec_release_buffer and filter_release_buffer: unref_buffer on what h holds. */
    method Release(ghost h: Holder, buf: FrameBuffer)
      requires Valid() && h in holders && holders[h] == buf
      modifies `bufferPool, `pool, `holders, buf
      ensures Valid() && holders == old(holders) - {h} && buf.refcount == old(buf.refcount) - 1
      ensures pool == if buf.refcount == 0 then [buf] + old(pool) else old(pool)
    {
      assert h in HeldBy(holders, buf);
      assert buf.refcount > 0 && buf !in pool;
      forall b { HolderLeaves(holders, h, b); }
      buf.refcount := buf.refcount - 1;
      holders := holders - {h};
      if buf.refcount == 0 {
        Push(buf);
      }
    }

    /** The buffer goes to the head of the list after the check that it is not in it. */
    method Push(buf: FrameBuffer)
      requires Linked(pool, bufferPool) && buf !in pool
      modifies `bufferPool, `pool, buf`next
      ensures Linked(pool, bufferPool) && pool == [buf] + old(pool)
    {
      ghost var k := 0;
      var tmp := bufferPool;
      while tmp != null
        modifies {}
        invariant 0 <= k <= |pool| && Linked(pool[k..], tmp)
        decreases |pool| - k
      {
        TailLinked(pool[k..], tmp);
        assert tmp != buf;
        tmp := tmp.next;
        assert pool[k..][1..] == pool[k + 1..];
        k := k + 1;
      }
      buf.next := bufferPool;
      HeadLinked(pool, bufferPool, buf);
      bufferPool := buf;
      pool := [buf] + pool;
    }

    /** free_buffer_pool: everything in the list is freed once, and nothing else. */
    method FreePool()
      requires Valid()
      modifies `bufferPool, `pool, `live, `freed
      ensures Valid() && bufferPool == null && pool == [] && holders == old(holders)
      ensures freed == old(freed) + old(pool)
      ensures live == old(live) - set b | b in old(pool)
      ensures old(holders) == map[] ==> live == {}
    {
      FreeAllowed();
      ghost var start, alive := freed, live;
      ghost var k := 0;
      var buf := bufferPool;
      while buf != null
        modifies `bufferPool, `live, `freed
        invariant 0 <= k <= |pool| && bufferPool == buf && Linked(pool[k..], buf)
        invariant freed == start + pool[..k] && live == alive - set b | b in pool[..k]
        decreases |pool| - k
      {
        TailLinked(pool[k..], buf);
        assert pool[k..][1..] == pool[k + 1..];
        bufferPool := buf.next;
        freed := freed + [buf];
        live := live - {buf};
        buf := bufferPool;
        k := k + 1;
      }
      assert pool[..k] == pool;
      DistinctConcat(start, pool);
      pool := [];
    }

    /** What freeing the list leaves alone. */
    lemma FreeAllowed()
      requires Valid()
      ensures forall h :: h in holders ==> holders[h] !in pool
      ensures forall b :: b in live && b !in pool ==> b.refcount != 0
      ensures forall b :: b in pool ==> b in live && b !in freed
      ensures holders == map[] ==> forall b :: b in live ==> b in pool
    {
      forall h | h in holders ensures holders[h] !in pool { assert h in HeldBy(holders, holders[h]); }
      if holders == map[] {
        forall b | b in live ensures b in pool { assert HeldBy(holders, b) == {}; }
      }
    }
  }
}
