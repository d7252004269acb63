/** The slab allocator: batches of memory handed out in slots of a fixed number of
    objects, and a free list threaded through the released slots. */
module BatchAllocator {
  import opened Optional
  import opened Alignment

  /** A pointer handed out: the batch, by the order batches were created in, and the
      offset of the object in its buffer. */
  datatype Slot = Slot(batch: nat, offset: nat)

  /** `used_` and `end_` of a `BatchInfo`, as offsets. */
  datatype Batch = Batch(used: nat, end: nat)

  /** `objectPerAllocation` and `objectsPerPage`. */
  datatype Sizes = Sizes(perSlot: pos, perPage: nat)

  predicate ValidSizes(z: Sizes) {
    z.perPage >= 16
  }

  /** The allocator's state: the batches from the head of their list on, the position
      of the current one, the free list, and the slots the caller holds. */
  datatype Pool = Pool(batches: seq<Batch>, current: nat, free: seq<Slot>, live: set<Slot>)

  predicate Full(b: Batch) {
    b.used == b.end
  }

  /** The first batch from position `i` on that is not full. */
  function Search(batches: seq<Batch>, i: nat): (k: nat)
    requires i <= |batches|
    ensures i <= k <= |batches|
    ensures forall j :: i <= j < k ==> Full(batches[j])
    ensures k < |batches| ==> !Full(batches[k])
    decreases |batches| - i
  {
    if i < |batches| && Full(batches[i]) then Search(batches, i + 1) else i
  }

  /** The dummy batch the constructor makes. */
  const EMPTY := Pool([Batch(0, 0)], 0, [], {})

  /** The pool with a batch that has room as its current one. */
  function WithRoom(z: Sizes, p: Pool): (r: Pool)
    requires p.current < |p.batches|
    ensures r.current < |r.batches|
  {
    var k := Search(p.batches, p.current);
    if k < |p.batches| then p.(current := k)
    else p.(batches := [Batch(0, z.perPage)] + p.batches, current := 0)
  }

  /** The slot at `used_` of the current batch. */
  function NextSlot(p: Pool): Slot
    requires p.current < |p.batches|
  {
    Slot(|p.batches| - 1 - p.current, p.batches[p.current].used)
  }

  function TakeNext(z: Sizes, p: Pool): Pool
    requires p.current < |p.batches|
  {
    var b := p.batches[p.current];
    p.(batches := p.batches[p.current := b.(used := b.used + z.perSlot)], live := p.live + {NextSlot(p)})
  }

  /** The slot `allocate` returns. */
  function Allocated(z: Sizes, p: Pool): Slot
    requires p.current < |p.batches|
  {
    if p.free != [] then p.free[0] else NextSlot(WithRoom(z, p))
  }

  function Allocate(z: Sizes, p: Pool): (r: Pool)
    requires p.current < |p.batches|
    ensures r.current < |r.batches|
  {
    if p.free != [] then p.(free := p.free[1..], live := p.live + {p.free[0]})
    else TakeNext(z, WithRoom(z, p))
  }

  function Release(p: Pool, s: Slot): Pool {
    p.(free := [s] + p.free, live := p.live - {s})
  }

  // ---------- what every run keeps ----------

  /** The slot was handed out at some time. */
  predicate HandedOut(z: Sizes, batches: seq<Batch>, s: Slot) {
    && s.batch < |batches| && Aligned(s.offset, z.perSlot)
    && s.offset < batches[|batches| - 1 - s.batch].used
  }

  predicate NoDuplicates(slots: seq<Slot>) {
    slots != [] ==> slots[0] !in slots[1..] && NoDuplicates(slots[1..])
  }

  /** A page batch, or the dummy one, not filled beyond its end. */
  predicate Bounded(z: Sizes, b: Batch) {
    b.used <= b.end && (b.end == 0 || b.end == z.perPage)
  }

  predicate AllBounded(z: Sizes, p: Pool) {
    forall i :: 0 <= i < |p.batches| ==> Bounded(z, p.batches[i])
  }

  /** The current batch is the newest and all others are full; the slots handed out are
      in use or on the free list, never both. */
  ghost predicate Sound(z: Sizes, p: Pool) {
    && p.current < |p.batches|
    && (forall i :: 0 <= i < |p.batches| ==> Aligned(p.batches[i].used, z.perSlot))
    && (forall i :: p.current < i < |p.batches| ==> Full(p.batches[i]))
    && p.current == 0
    && NoDuplicates(p.free)
    && (forall s :: s in p.free ==> s !in p.live)
    && (forall s :: HandedOut(z, p.batches, s) <==> s in p.free || s in p.live)
  }

  /** The two slots share no object. */
  predicate Apart(z: Sizes, s: Slot, t: Slot) {
    s.batch != t.batch || s.offset + z.perSlot <= t.offset || t.offset + z.perSlot <= s.offset
  }

  /** The slot lies before the `end_` of its batch. */
  predicate Inside(z: Sizes, batches: seq<Batch>, s: Slot) {
    s.batch < |batches| && s.offset + z.perSlot <= batches[|batches| - 1 - s.batch].end
  }

  lemma FitsBeforeEnd(z: Sizes, b: Batch)
    requires ValidSizes(z) && Aligned(z.perPage, z.perSlot)
    requires Bounded(z, b) && Aligned(b.used, z.perSlot) && !Full(b)
    ensures Bounded(z, b.(used := b.used + z.perSlot))
  {
    AlignedApart(b.used, b.end, z.perSlot);
  }

  lemma WithRoomSound(z: Sizes, p: Pool)
    requires ValidSizes(z) && Sound(z, p)
    ensures var r := WithRoom(z, p);
            && Sound(z, r) && !Full(r.batches[r.current]) && r.free == p.free && r.live == p.live
            && (AllBounded(z, p) ==> AllBounded(z, r))
            && (|r.batches| > |p.batches| ==> forall i :: 0 <= i < |p.batches| ==> Full(p.batches[i]))
  {
    var r := WithRoom(z, p);
    if |r.batches| > |p.batches| {
      forall s ensures HandedOut(z, r.batches, s) <==> HandedOut(z, p.batches, s) {
      }
    }
  }

  lemma TakeNextSound(z: Sizes, p: Pool)
    requires ValidSizes(z) && Sound(z, p) && !Full(p.batches[p.current])
    ensures Sound(z, TakeNext(z, p))
    ensures NextSlot(p) !in p.live && NextSlot(p) !in p.free
  {
    var r, slot := TakeNext(z, p), NextSlot(p);
    assert !HandedOut(z, p.batches, slot);
    forall s ensures HandedOut(z, r.batches, s) <==> HandedOut(z, p.batches, s) || s == slot {
      if s.batch == slot.batch && Aligned(s.offset, z.perSlot) && slot.offset < s.offset {
        AlignedApart(slot.offset, s.offset, z.perSlot);
      }
    }
  }

  lemma TakeNextBounded(z: Sizes, p: Pool)
    requires ValidSizes(z) && Sound(z, p) && !Full(p.batches[p.current])
    requires Aligned(z.perPage, z.perSlot) && AllBounded(z, p)
    ensures AllBounded(z, TakeNext(z, p))
  {
    FitsBeforeEnd(z, p.batches[p.current]);
  }

  /** One `allocate`: the slot was not in use and lies away from every slot in use; a new
      batch is made only when every slot is in use; and where slots divide the page, no
      batch is filled beyond its end. */
  lemma AllocateSound(z: Sizes, p: Pool)
    requires ValidSizes(z) && Sound(z, p)
    ensures var r, slot := Allocate(z, p), Allocated(z, p);
            && Sound(z, r) && r.live == p.live + {slot} && slot !in p.live
            && (forall t :: t in p.live ==> Apart(z, slot, t))
            && (Aligned(z.perPage, z.perSlot) && AllBounded(z, p) ==> AllBounded(z, r))
    ensures |Allocate(z, p).batches| > |p.batches| ==>
              && (forall i :: 0 <= i < |p.batches| ==> Full(p.batches[i]))
              && (forall s :: HandedOut(z, p.batches, s) ==> s in p.live)
  {
    var r, slot := Allocate(z, p), Allocated(z, p);
    if p.free == [] {
      WithRoomSound(z, p);
      TakeNextSound(z, WithRoom(z, p));
      if Aligned(z.perPage, z.perSlot) && AllBounded(z, p) {
        TakeNextBounded(z, WithRoom(z, p));
      }
    } else {
      assert p.free[0] in p.free;
      assert p.free == [p.free[0]] + p.free[1..];
    }
    forall t | t in p.live ensures Apart(z, slot, t) {
      HandedOutApart(z, r, slot, t);
    }
  }

  lemma HandedOutInside(z: Sizes, p: Pool, s: Slot)
    requires ValidSizes(z) && Sound(z, p) && AllBounded(z, p) && HandedOut(z, p.batches, s)
    ensures Inside(z, p.batches, s) && s.offset + z.perSlot <= z.perPage
  {
    var i := |p.batches| - 1 - s.batch;
    assert Bounded(z, p.batches[i]) && Aligned(p.batches[i].used, z.perSlot);
    AlignedApart(s.offset, p.batches[i].used, z.perSlot);
  }

  lemma HandedOutApart(z: Sizes, p: Pool, s: Slot, t: Slot)
    requires ValidSizes(z) && s != t && HandedOut(z, p.batches, s) && HandedOut(z, p.batches, t)
    ensures Apart(z, s, t)
  {
    if s.batch == t.batch && s.offset < t.offset {
      AlignedApart(s.offset, t.offset, z.perSlot);
    } else if s.batch == t.batch {
      AlignedApart(t.offset, s.offset, z.perSlot);
    }
  }

  /** One `release` of a slot in use. */
  lemma ReleaseSound(z: Sizes, p: Pool, s: Slot)
    requires ValidSizes(z) && Sound(z, p) && s in p.live
    ensures Sound(z, Release(p, s)) && s !in p.free
  {
    var r := Release(p, s);
    assert r.free[1..] == p.free;
    assert forall t :: t in r.free <==> t == s || t in p.free;
  }

  /** A slot that was released is the next to be handed out, and doing so undoes the
      release: slots come back in the reverse order of their release. */
  lemma ReleaseThenAllocate(z: Sizes, p: Pool, s: Slot)
    requires p.current < |p.batches| && s in p.live
    ensures Allocated(z, Release(p, s)) == s && Allocate(z, Release(p, s)) == p
  {
    assert Release(p, s).free[1..] == p.free;
    assert p.live - {s} + {s} == p.live;
  }

  // ---------- runs ----------

  datatype Op = Get | Put(slot: Slot)

  /** The pool after some operations, if every release was of a slot in use. */
  function Run(z: Sizes, ops: seq<Op>): (r: Option<Pool>)
    ensures r.Some? ==> r.value.current < |r.value.batches|
  {
    if ops == [] then Some(EMPTY)
    else
      var before, op := Run(z, ops[..|ops| - 1]), ops[|ops| - 1];
      if before.None? then None
      else if op.Get? then Some(Allocate(z, before.value))
      else if op.slot in before.value.live then Some(Release(before.value, op.slot))
      else None
  }

  lemma {:induction false} RunsAreSound(z: Sizes, ops: seq<Op>)
    requires ValidSizes(z) && Run(z, ops).Some?
    ensures Sound(z, Run(z, ops).value)
    ensures Aligned(z.perPage, z.perSlot) ==> AllBounded(z, Run(z, ops).value)
  {
    if ops != [] {
      hide Sound, Allocate;
      var before, op := ops[..|ops| - 1], ops[|ops| - 1];
      RunsAreSound(z, before);
      if op.Get? {
        AllocateSound(z, Run(z, before).value);
      } else {
        ReleaseSound(z, Run(z, before).value, op.slot);
      }
    } else {
      assert EMPTY.batches == [Batch(0, 0)];
    }
  }

  /** In every run, slots in use are apart from each other, what was ever handed out is
      either in use or on the free list, and where slots divide the page they lie inside
      their batches. */
  lemma RunsKeepSlotsApart(z: Sizes, ops: seq<Op>)
    requires ValidSizes(z) && Run(z, ops).Some?
    ensures var p := Run(z, ops).value;
            && (forall s, t :: s in p.live && t in p.live && s != t ==> Apart(z, s, t))
            && (forall s :: HandedOut(z, p.batches, s) <==> s in p.live || s in p.free)
            && (forall s :: s in p.free ==> s !in p.live) && NoDuplicates(p.free)
            && (Aligned(z.perPage, z.perSlot) ==> forall s :: s in p.live ==> Inside(z, p.batches, s))
  {
    hide Run;
    var p := Run(z, ops).value;
    RunsAreSound(z, ops);
    forall s, t | s in p.live && t in p.live && s != t ensures Apart(z, s, t) {
      HandedOutApart(z, p, s, t);
    }
    if Aligned(z.perPage, z.perSlot) {
      forall s | s in p.live ensures Inside(z, p.batches, s) {
        HandedOutInside(z, p, s);
      }
    }
  }

  // ---------- when slots stay inside the memory of their batch ----------

  /** The memory of a page holds `perSlot * perPage` objects. */
  predicate InMemory(z: Sizes, s: Slot) {
    s.offset + z.perSlot <= z.perSlot * z.perPage
  }

  predicate AllInMemory(z: Sizes, p: Pool) {
    forall s :: s in p.live ==> InMemory(z, s)
  }

  ghost predicate StaysInMemory(z: Sizes) {
    forall ops :: Run(z, ops).Some? ==> AllInMemory(z, Run(z, ops).value)
  }

  function Gets(n: nat): (ops: seq<Op>)
    ensures |ops| == n
  {
    if n == 0 then [] else Gets(n - 1) + [Get]
  }

  /** Without releases and with slots that do not divide the page, `used_` runs past
      `end_` for ever. */
  lemma {:induction false} GetsOverrun(z: Sizes, n: nat)
    requires ValidSizes(z) && !Aligned(z.perPage, z.perSlot) && n > 0
    ensures Run(z, Gets(n)).Some?
    ensures var p := Run(z, Gets(n)).value;
            && p.batches == [Batch(n * z.perSlot, z.perPage), Batch(0, 0)] && p.current == 0 && p.free == []
            && Slot(1, (n - 1) * z.perSlot) in p.live
  {
    assert Gets(n)[..n - 1] == Gets(n - 1);
    assert n * z.perSlot == (n - 1) * z.perSlot + z.perSlot;
    hide Aligned, Allocate, Search;
    if n == 1 {
      FirstGet(z);
    } else {
      GetsOverrun(z, n - 1);
      AlignedMultiple(n - 1, z.perSlot);
      OverrunStep(z, Run(z, Gets(n - 1)).value, (n - 1) * z.perSlot);
    }
  }

  lemma OverrunStep(z: Sizes, p: Pool, used: nat)
    requires ValidSizes(z) && !Aligned(z.perPage, z.perSlot) && Aligned(used, z.perSlot)
    requires p.batches == [Batch(used, z.perPage), Batch(0, 0)] && p.current == 0 && p.free == []
    ensures Allocate(z, p) ==
            p.(batches := [Batch(used + z.perSlot, z.perPage), Batch(0, 0)], live := p.live + {Slot(1, used)})
  {
    hide Aligned;
  }

  lemma FirstGet(z: Sizes)
    requires ValidSizes(z)
    ensures Run(z, Gets(0)) == Some(EMPTY)
    ensures Allocate(z, EMPTY) == Pool([Batch(z.perSlot, z.perPage), Batch(0, 0)], 0, [], {Slot(1, 0)})
  {
    assert Search([Batch(0, 0)], 0) == 1;
    assert [Batch(0, z.perPage)] + [Batch(0, 0)] == [Batch(0, z.perPage), Batch(0, 0)];
  }

  lemma PageProducts(z: Sizes)
    requires ValidSizes(z)
    ensures z.perPage <= z.perSlot * z.perPage == z.perPage * z.perSlot
  {
    assert z.perSlot * z.perPage == (z.perSlot - 1) * z.perPage + z.perPage;
  }

  /** No run hands out memory its batch does not have, exactly when the slots divide the
      page: fullness is tested with `used_ == end_`. */
  lemma StaysInMemoryIff(z: Sizes)
    requires ValidSizes(z)
    ensures StaysInMemory(z) <==> Aligned(z.perPage, z.perSlot)
  {
    hide Run, Aligned;
    PageProducts(z);
    if Aligned(z.perPage, z.perSlot) {
      forall ops | Run(z, ops).Some? ensures AllInMemory(z, Run(z, ops).value) {
        var p := Run(z, ops).value;
        RunsAreSound(z, ops);
        forall s | s in p.live ensures InMemory(z, s) {
          assert HandedOut(z, p.batches, s);
          HandedOutInside(z, p, s);
        }
      }
    } else {
      GetsOverrun(z, z.perPage + 1);
      var p := Run(z, Gets(z.perPage + 1)).value;
      var s := Slot(1, z.perPage * z.perSlot);
      assert s in p.live && !InMemory(z, s);
      assert !AllInMemory(z, p);
    }
  }

  // ---------- the allocator ----------

  /** The free list as it lies in memory: each released slot holds the address of the
      next one. */
  predicate Chain(head: Option<Slot>, links: map<Slot, Option<Slot>>, free: seq<Slot>)
    decreases |free|
  {
    if free == [] then head.None?
    else head == Some(free[0]) && free[0] in links && Chain(links[free[0]], links, free[1..])
  }

  /** What is written elsewhere does not matter to the list. */
  lemma {:induction false} ChainIgnores(
    head: Option<Slot>, links: map<Slot, Option<Slot>>, after: map<Slot, Option<Slot>>, free: seq<Slot>)
    requires Chain(head, links, free)
    requires forall s :: s in free ==> s in links && s in after && after[s] == links[s]
    ensures Chain(head, after, free)
    decreases |free|
  {
    if free != [] {
      ChainIgnores(links[free[0]], links, after, free[1..]);
    }
  }

  lemma {:induction false} ChainLinks(head: Option<Slot>, links: map<Slot, Option<Slot>>, free: seq<Slot>, s: Slot)
    requires Chain(head, links, free) && s in free
    ensures s in links
    decreases |free|
  {
    if s != free[0] {
      ChainLinks(links[free[0]], links, free[1..], s);
    }
  }

  class BatchAllocator {
    const sizes: Sizes
    var batches: seq<Batch>
    var currentBatch: nat
    var freeHead: Option<Slot>
    /** What the released slots hold. */
    var links: map<Slot, Option<Slot>>
    ghost var pool: Pool

    ghost predicate Valid()
      reads this
    {
      && ValidSizes(sizes) && Sound(sizes, pool)
      && pool.batches == batches && pool.current == currentBatch
      && Chain(freeHead, links, pool.free)
    }

    constructor (sizes: Sizes)
      requires ValidSizes(sizes)
      ensures Valid() && pool == EMPTY && this.sizes == sizes
    {
      this.sizes := sizes;
      batches, currentBatch := [Batch(0, 0)], 0;
      freeHead, links := None, map[];
      pool := EMPTY;
      new;
      assert Run(sizes, []) == Some(EMPTY);
      RunsAreSound(sizes, []);
    }

    /** `allocate`. The caller may write to the slot, so its link is forgotten. */
    method Get() returns (slot: Slot)
      requires Valid()
      modifies this
      ensures Valid() && pool == Allocate(sizes, old(pool)) && slot == Allocated(sizes, old(pool))
    {
      AllocateSound(sizes, pool);
      hide Sound, Search;
      ghost var before := pool;
      pool := Allocate(sizes, before);
      if freeHead.Some? {
        slot := freeHead.value;
        freeHead := links[slot];
        AfterPop(before.free, links, slot);
        links := links - {slot};
      } else {
        FindRoom();
        var b := batches[currentBatch];
        slot := Slot(|batches| - 1 - currentBatch, b.used);
        batches := batches[currentBatch := b.(used := b.used + sizes.perSlot)];
      }
    }

    /** The part of `allocate` that looks for a batch that is not full. */
    method FindRoom()
      requires currentBatch < |batches|
      modifies this`batches, this`currentBatch
      ensures var p := WithRoom(sizes, old(Pool(batches, currentBatch, [], {})));
              batches == p.batches && currentBatch == p.current
    {
      if batches[currentBatch].used == batches[currentBatch].end {
        currentBatch := currentBatch + 1;
        while currentBatch < |batches| && batches[currentBatch].used == batches[currentBatch].end
          invariant currentBatch <= |batches| && batches == old(batches)
          invariant Search(batches, old(currentBatch)) == Search(batches, currentBatch)
        {
          currentBatch := currentBatch + 1;
        }
        if currentBatch == |batches| {
          batches := [Batch(0, sizes.perPage)] + batches;
          currentBatch := 0;
        }
      }
    }

    lemma AfterPop(free: seq<Slot>, links: map<Slot, Option<Slot>>, slot: Slot)
      requires NoDuplicates(free) && Chain(Some(slot), links, free)
      ensures free != [] && free[0] == slot && slot in links && Chain(links[slot], links - {slot}, free[1..])
    {
      forall s | s in free[1..] ensures s in links {
        ChainLinks(links[slot], links, free[1..], s);
      }
      ChainIgnores(links[slot], links, links - {slot}, free[1..]);
    }

    /** `release` of a slot in use. */
    method Put(slot: Slot)
      requires Valid() && slot in pool.live
      modifies this
      ensures Valid() && pool == Release(old(pool), slot)
    {
      ReleaseSound(sizes, pool, slot);
      AfterPush(freeHead, links, pool.free, slot);
      hide Sound;
      links := links[slot := freeHead];
      freeHead := Some(slot);
      pool := Release(pool, slot);
    }

    lemma AfterPush(head: Option<Slot>, links: map<Slot, Option<Slot>>, free: seq<Slot>, slot: Slot)
      requires Chain(head, links, free) && slot !in free
      ensures Chain(Some(slot), links[slot := head], [slot] + free)
    {
      forall s | s in free ensures s in links {
        ChainLinks(head, links, free, s);
      }
      ChainIgnores(head, links, links[slot := head], free);
      assert ([slot] + free)[1..] == free;
    }
  }
}
