/** Allocation as a single step of the collector. */
module GcAlloc {
  import opened Memory
  import opened GcState
  import opened GcOnce
  import opened GcSteps
  import opened GcMoves

  // ---------- Allocation as one step ----------

  /** From s to t, n words at b have been allocated for objects of meta page id. */
  ghost predicate Allocated(h0: Heap, cg: nat, s: St, t: St, id: MetaId, b: nat, n: nat) {
    && Inv(h0, cg, t)
    && Later(cg, s, t)
    && Reserved(h0, t, b, n)
    && PagesAre(t.segs, b, b + n, Tagged(cg, MetaType(id), false))
    && t.raw == s.raw + Block(b, n)
    && (forall w {:trigger w in s.raw} :: w in s.raw ==> w < b || b + n <= w)
    && t.fwd == s.fwd && t.src == s.src && Extends(s.segs, t.segs)
    && t.todo.work == s.todo.work && t.todo.workId == s.todo.workId
    && t.todo.meta[id].aq <= b && b + n == t.todo.meta[id].ap
    && Whites(h0, cg, t.segs, t.fwd) == Whites(h0, cg, s.segs, s.fwd)
  }

  lemma AllocatedPage(h0: Heap, cg: nat, s: St, t: St, id: MetaId, b: nat, n: nat)
    requires Allocated(h0, cg, s, t, id, b, n) && 0 < n
    ensures b < 512 * |t.segs| && SegOf(t.segs, b) == Tagged(cg, MetaType(id), false)
  {
    hide Inv, Later, Reserved;
  }

  lemma LargePage(h0: Heap, cg: nat, s: St, t: St, b: nat, n: nat)
    requires AllocatedLarge(h0, cg, s, t, b, n) && 0 < n
    ensures b < 512 * |t.segs| && SegOf(t.segs, b) == Tagged(cg, Pointers, true) && b % 512 == 0
  {
    hide Inv, Later, Reserved;
    AlignOk(n);
  }

  lemma BumpFacts(h0: Heap, cg: nat, s: St, id: MetaId, n: nat)
    requires Inv(h0, cg, s) && 0 < n && n % 2 == 0 && s.todo.meta[id].ap + n <= s.todo.meta[id].ep
    ensures var b := s.todo.meta[id].ap;
            && s.todo.meta[id].base > 0 && s.todo.meta[id].aq <= b
            && (forall w {:trigger w in s.raw} :: w in s.raw ==> w < b || b + n <= w)
            && Reserved(h0, Bump(s, id, n), b, n) && PagesAre(s.segs, b, b + n, Tagged(cg, MetaType(id), false))
  {
    hide WellFormed, PlacesOk, MarksOk, CopiesApart, WhiteIntact, OldIntact, ObjectsWhole, CopiesTraced, PromotedTraced, SrcInCopies, ColoursOk, RangesOk, NewPagesOk, SourcesOk,
      Reserved, PagesAre;
    var b := s.todo.meta[id].ap;
    assert MetaOk(h0, cg, s.segs, id, s.todo.meta[id]);
    forall w | w in s.raw ensures w < b || b + n <= w { assert !Free(s.todo.meta, id, w); }
    BumpReserves(h0, cg, s, id, n);
  }

  lemma BumpLater(h0: Heap, cg: nat, s: St, id: MetaId, n: nat)
    requires s.todo.Ok() && FreeOk(h0, s.fwd, s.src, s.raw, s.todo.meta) && SourcesOk(h0, cg, s.segs, s.src, s.raw)
    requires |s.mem| == 512 * |s.segs| && s.todo.meta[id].ap + n <= s.todo.meta[id].ep
    ensures Later(cg, s, Bump(s, id, n))
  {
    hide DoneStays, FreeOk;
    forall w | w in s.src ensures w < |s.mem| { assert Older(cg, s.segs, w); }
    BumpDone(h0, cg, s, id, n);
  }

  lemma InvBumpLater(h0: Heap, cg: nat, s: St, id: MetaId, n: nat)
    requires Inv(h0, cg, s) && s.todo.meta[id].ap + n <= s.todo.meta[id].ep
    ensures Later(cg, s, Bump(s, id, n))
  {
    hide Later;
    BumpLater(h0, cg, s, id, n);
  }

  lemma BumpAllocates(h0: Heap, cg: nat, s: St, id: MetaId, n: nat)
    requires Inv(h0, cg, s) && 0 < n && n % 2 == 0
    requires s.todo.meta[id].ap + n <= s.todo.meta[id].ep
    ensures Allocated(h0, cg, s, Bump(s, id, n), id, s.todo.meta[id].ap, n)
  {
    hide Inv, Later, Reserved, PagesAre, Whites;
    BumpFacts(h0, cg, s, id, n);
    BumpKeepsInv(h0, cg, s, id, n);
    InvBumpLater(h0, cg, s, id, n);
  }

  lemma ExtendsWhites(h0: Heap, cg: nat, segs: seq<Seg>, segs': seq<Seg>, fwd: map<nat, nat>)
    requires WellFormed(h0) && |h0.mem| <= 512 * |segs| && Extends(segs, segs')
    ensures Whites(h0, cg, segs', fwd) == Whites(h0, cg, segs, fwd)
  {
    forall a | a in h0.objs ensures Older(cg, segs', a) <==> Older(cg, segs, a) { assert ObjectOk(h0, a); }
  }

  lemma MmapMetaAllocates(h0: Heap, cg: nat, s: St, id: MetaId, n: nat, junk: seq<Word>, pages: nat)
    requires Inv(h0, cg, s) && 0 < n <= 512 * pages && n % 2 == 0 && |junk| == 512 * pages && s.todo.meta[id] == NO_META
    ensures Allocated(h0, cg, s, MmapMeta(s, cg, id, n, junk, pages), id, |s.mem|, n)
  {
    hide Inv, Reserved, PagesAre, Untouched, Extends, Later, Whites;
    MmapAll(h0, cg, s, junk, pages, MetaType(id), false);
    MmapMetaKeepsInv(h0, cg, s, id, n, junk, pages);
    MmapMetaReserves(h0, cg, s, id, n, junk, pages);
    MmapMetaLater(h0, cg, s, id, n, junk, pages);
    InvMmapMetaWhites(h0, cg, s, id, n, junk, pages);
  }

  lemma InvMmapMetaWhites(h0: Heap, cg: nat, s: St, id: MetaId, n: nat, junk: seq<Word>, pages: nat)
    requires Inv(h0, cg, s) && n <= 512 * pages && |junk| == 512 * pages
    ensures var t := MmapMeta(s, cg, id, n, junk, pages); Whites(h0, cg, t.segs, t.fwd) == Whites(h0, cg, s.segs, s.fwd)
  {
    hide Whites;
    MmapMetaWhites(h0, cg, s, id, n, junk, pages);
  }

  lemma MmapMetaWhites(h0: Heap, cg: nat, s: St, id: MetaId, n: nat, junk: seq<Word>, pages: nat)
    requires WellFormed(h0) && s.todo.Ok() && SegsStep(h0, cg, |s.mem|, s.segs) && n <= 512 * pages && |junk| == 512 * pages
    ensures var t := MmapMeta(s, cg, id, n, junk, pages); Whites(h0, cg, t.segs, t.fwd) == Whites(h0, cg, s.segs, s.fwd)
  {
    MmapSegs(h0, cg, s, junk, pages, MetaType(id), false);
    ExtendsWhites(h0, cg, s.segs, MmapMeta(s, cg, id, n, junk, pages).segs, s.fwd);
  }

  lemma LaterTrans(cg: nat, s: St, t: St, u: St)
    requires Later(cg, s, t) && Later(cg, t, u)
    ensures Later(cg, s, u)
  {
    forall p {:trigger u.segs[p]} | 0 <= p < |s.segs| ensures u.segs[p] == s.segs[p] || (s.segs[p].gen <= cg < u.segs[p].gen) {
      assert t.segs[p] == t.segs[p];
    }
  }

  lemma LaterRefl(h0: Heap, cg: nat, s: St)
    requires Inv(h0, cg, s)
    ensures Later(cg, s, s)
  {
    forall w | w in s.src ensures w < |s.mem| { assert Older(cg, s.segs, w); }
  }

  lemma AllocatedAfter(h0: Heap, cg: nat, s: St, t: St, u: St, id: MetaId, b: nat, n: nat)
    requires Later(cg, s, t) && Allocated(h0, cg, t, u, id, b, n)
    requires t.raw == s.raw && t.fwd == s.fwd && t.src == s.src && t.segs == s.segs && t.todo.work == s.todo.work && t.todo.workId == s.todo.workId
    ensures Allocated(h0, cg, s, u, id, b, n)
  {
    LaterTrans(cg, s, t, u);
  }

  lemma MetaBounds(h0: Heap, cg: nat, s: St, id: MetaId)
    requires Inv(h0, cg, s)
    ensures s.todo.Ok() && |s.mem| == 512 * |s.segs|
    ensures s.todo.meta[id].aq <= s.todo.meta[id].ap <= s.todo.meta[id].ep <= 512 * |s.segs|
    ensures s.todo.meta[id].base == 0 ==> s.todo.meta[id] == NO_META
  {
    assert MetaOk(h0, cg, s.segs, id, s.todo.meta[id]);
  }

  // ---------- Weak pairs ----------

  /** A full page of weak pairs is simply left behind. */
  lemma LeaveWeakPage(h0: Heap, cg: nat, s: St, n: nat, junk: seq<Word>, pages: nat)
    requires s.todo.Ok() && MetasOk(h0, cg, s.segs, s.todo.meta) && |s.mem| == 512 * |s.segs|
    requires s.todo.meta[MetaWeak].ap + 2 > s.todo.meta[MetaWeak].ep && n <= 512 * pages
    ensures s.todo.meta[MetaWeak].ap == s.todo.meta[MetaWeak].ep <= |s.mem|
    ensures MmapMeta(Retire(s, MetaWeak), cg, MetaWeak, n, junk, pages) == MmapMeta(s, cg, MetaWeak, n, junk, pages)
  {
    assert MetaOk(h0, cg, s.segs, MetaWeak, s.todo.meta[MetaWeak]);
    hide MetasOk, MetaOk;
    LeaveEqual(s, cg, n, junk, pages);
  }

  lemma LeaveEqual(s: St, cg: nat, n: nat, junk: seq<Word>, pages: nat)
    requires s.todo.Ok() && s.todo.meta[MetaWeak].ap <= s.todo.meta[MetaWeak].ep <= |s.mem| && n <= 512 * pages
    ensures Retire(s, MetaWeak).todo.Ok()
    ensures MmapMeta(Retire(s, MetaWeak), cg, MetaWeak, n, junk, pages) == MmapMeta(s, cg, MetaWeak, n, junk, pages)
  {
    var seg, todo := Tagged(cg, MetaType(MetaWeak), false), s.todo.(meta := s.todo.meta[MetaWeak := NO_META]);
    assert Retire(s, MetaWeak) == s.(todo := todo);
    MmapAgenda(s, todo, junk, pages, seg);
    AdoptTwice(Mmap(s, junk, pages, seg), MetaWeak, NO_META, |s.mem|, |s.mem| + 512 * pages, n);
    assert Mmap(s, junk, pages, seg).todo == s.todo;
    hide Mmap, Adopt, Retire, Tagged;
  }

  lemma MmapAgenda(s: St, todo: Agenda, junk: seq<Word>, pages: nat, seg: Seg)
    ensures Mmap(s.(todo := todo), junk, pages, seg) == Mmap(s, junk, pages, seg).(todo := todo)
  {
  }

  /** A current page that is replaced at once does not matter. */
  lemma AdoptTwice(s: St, id: MetaId, m: Meta, base: nat, end: nat, n: nat)
    requires base + n <= end
    ensures Adopt(s.(todo := s.todo.(meta := s.todo.meta[id := m])), id, base, end, n) == Adopt(s, id, base, end, n)
  {
    assert s.todo.meta[id := m][id := Meta(base + n, base, end, base)] == s.todo.meta[id := Meta(base + n, base, end, base)];
  }

  lemma WeakPageAllocates(h0: Heap, cg: nat, s: St, junk: seq<Word>)
    requires Inv(h0, cg, s) && s.todo.meta[MetaWeak].ap + 2 > s.todo.meta[MetaWeak].ep && |junk| == 512
    ensures Allocated(h0, cg, s, MmapMeta(s, cg, MetaWeak, 2, junk, 1), MetaWeak, |s.mem|, 2)
  {
    LeaveWeakPage(h0, cg, s, 2, junk, 1);
    RetireKeepsInv(h0, cg, s, MetaWeak);
    WeakPageAfterRetire(h0, cg, s, Retire(s, MetaWeak), junk);
  }

  lemma WeakPageAfterRetire(h0: Heap, cg: nat, s: St, t: St, junk: seq<Word>)
    requires Inv(h0, cg, s) && Inv(h0, cg, t) && Later(cg, s, t) && t == s.(todo := t.todo)
    requires t.todo.work == s.todo.work && t.todo.workId == s.todo.workId
    requires t.todo.meta[MetaWeak] == NO_META && |junk| == 512
    requires MmapMeta(t, cg, MetaWeak, 2, junk, 1) == MmapMeta(s, cg, MetaWeak, 2, junk, 1)
    ensures Allocated(h0, cg, s, MmapMeta(s, cg, MetaWeak, 2, junk, 1), MetaWeak, |s.mem|, 2)
  {
    hide Inv, Later, Reserved, PagesAre, Whites, Extends;
    MetaBounds(h0, cg, t, MetaWeak);
    MmapMetaAllocates(h0, cg, t, MetaWeak, 2, junk, 1);
    AllocatedAfter(h0, cg, s, t, MmapMeta(t, cg, MetaWeak, 2, junk, 1), MetaWeak, |s.mem|, 2);
  }

  // ---------- Large vectors ----------

  /** gc_alloc_new_large_ptr: pages of their own, queued for scanning; n words are used. */
  function MmapLarge(s: St, cg: nat, n: nat, junk: seq<Word>, pages: nat): St
    requires s.todo.Ok() && n <= 512 * pages && |junk| == 512 * pages
  {
    AlignFits(n, pages);
    var m := Mmap(s, junk, pages, Tagged(cg, Pointers, true));
    var base, end := |s.mem|, |s.mem| + 512 * pages;
    m.(mem := Zeroed(m.mem, base + n, end),
       raw := m.raw - Block(base + Align(n), 512 * pages - Align(n)),
       todo := m.todo.(queues := m.todo.queues[MetaPtrs := [Range(base, base + n)] + m.todo.queues[MetaPtrs]]))
  }

  /** Words at b are reserved on pages of the given description and will be scanned. */
  ghost predicate AllocatedLarge(h0: Heap, cg: nat, s: St, t: St, b: nat, n: nat) {
    && Inv(h0, cg, t)
    && Later(cg, s, t)
    && Reserved(h0, t, b, Align(n))
    && PagesAre(t.segs, b, b + Align(n), Tagged(cg, Pointers, true))
    && b % 512 == 0
    && t.raw == s.raw + Block(b, Align(n))
    && (forall w {:trigger w in s.raw} :: w in s.raw ==> w < b)
    && t.fwd == s.fwd && t.src == s.src && Extends(s.segs, t.segs)
    && t.todo.work == s.todo.work && t.todo.workId == s.todo.workId
    && (forall w: nat {:trigger t.todo.Waiting(w)} :: b <= w < b + n ==> t.todo.Waiting(w))
    && Whites(h0, cg, t.segs, t.fwd) == Whites(h0, cg, s.segs, s.fwd)
  }

  lemma LargeRanges(h0: Heap, cg: nat, m: St, base: nat, n: nat)
    requires m.todo.Ok() && SegsStep(h0, cg, |m.mem|, m.segs) && cg <= OLDEST
    requires RangesOk(h0, cg, m.segs, m.src, m.todo) && Untouched(h0, m, base) && |h0.mem| <= base
    requires PagesAre(m.segs, base, base + n, Tagged(cg, Pointers, true))
    ensures RangesOk(h0, cg, m.segs, m.src, m.todo.(queues := m.todo.queues[MetaPtrs := [Range(base, base + n)] + m.todo.queues[MetaPtrs]]))
  {
    forall w | base <= w < base + n ensures Older(cg, m.segs, w) && SegOf(m.segs, w).typ == Pointers {
      assert SegOf(m.segs, w) == Tagged(cg, Pointers, true);
    }
    assert RangeOk(h0, cg, m.segs, m.src, m.todo.meta, MetaPtrs, Range(base, base + n));
  }

  lemma LargeNewPages(h0: Heap, m: St, lo: nat, hi: nat, raw': set<nat>)
    requires m.todo.Ok() && |m.mem| == 512 * |m.segs| && lo <= hi <= |m.mem|
    requires NewPagesOk(h0, m.mem, m.segs, m.src, m.raw, m.todo.meta)
    requires raw' <= m.raw && forall w {:trigger w in raw'} :: w in m.raw && w !in raw' ==> lo <= w < hi
    ensures NewPagesOk(h0, Zeroed(m.mem, lo, hi), m.segs, m.src, raw', m.todo.meta)
  {
    var mem' := Zeroed(m.mem, lo, hi);
    forall w {:trigger mem'[w]} | |h0.mem| <= w < |mem'| && Scannable(SegOf(m.segs, w).typ)
      ensures w in m.src || mem'[w].Imm? || w in raw' || FreeWord(m.todo.meta, w)
    {
      assert w in m.src || m.mem[w].Imm? || w in m.raw || FreeWord(m.todo.meta, w);
    }
  }

  lemma LargeColours(h0: Heap, cg: nat, m: St, lo: nat, hi: nat, r: Range)
    requires m.todo.Ok() && lo <= hi <= |m.mem|
    requires forall w {:trigger w in m.src} :: w in m.src ==> w < lo
    requires ColoursOk(h0, cg, m.mem, m.segs, m.fwd, m.src, m.todo)
    ensures m.todo.(queues := m.todo.queues[MetaPtrs := [r] + m.todo.queues[MetaPtrs]]).Ok()
    ensures ColoursOk(h0, cg, Zeroed(m.mem, lo, hi), m.segs, m.fwd, m.src,
                      m.todo.(queues := m.todo.queues[MetaPtrs := [r] + m.todo.queues[MetaPtrs]]))
  {
    forall w | w in m.src
      ensures m.todo.Waiting(w) ==> m.todo.(queues := m.todo.queues[MetaPtrs := [r] + m.todo.queues[MetaPtrs]]).Waiting(w)
    {
      PushWaiting(m.todo, r, w);
    }
  }

  lemma LargeRaw(h0: Heap, cg: nat, m: St, base: nat, raw': set<nat>)
    requires m.todo.Ok() && Untouched(h0, m, base) && PlacesOk(h0, cg, m.segs, m.fwd)
    requires CopiesTraced(h0, m.fwd, m.src, m.raw) && SourcesOk(h0, cg, m.segs, m.src, m.raw)
    requires FreeOk(h0, m.fwd, m.src, m.raw, m.todo.meta)
    requires raw' <= m.raw && forall w {:trigger w in raw'} :: w in m.raw && w !in raw' ==> base <= w
    ensures CopiesTraced(h0, m.fwd, m.src, raw') && SourcesOk(h0, cg, m.segs, m.src, raw') && FreeOk(h0, m.fwd, m.src, raw', m.todo.meta)
  {
    forall a, w | a in m.fwd && m.fwd[a] <= w < m.fwd[a] + UsedOf(h0, a) && w !in raw' ensures w !in m.raw {
      assert m.fwd[a] + SizeOf(h0, a) <= base;
    }
  }

  lemma LargeOldPart(h0: Heap, cg: nat, m: St, lo: nat, hi: nat)
    requires WellFormed(h0) && |h0.mem| <= lo <= hi <= |m.mem| && PlacesOk(h0, cg, m.segs, m.fwd)
    requires MarksOk(h0, m.mem, m.fwd) && WhiteIntact(h0, cg, m.mem, m.segs, m.fwd) && OldIntact(h0, cg, m.mem, m.src)
    ensures MarksOk(h0, Zeroed(m.mem, lo, hi), m.fwd) && WhiteIntact(h0, cg, Zeroed(m.mem, lo, hi), m.segs, m.fwd)
    ensures OldIntact(h0, cg, Zeroed(m.mem, lo, hi), m.src)
  {
    OldPartKept(h0, cg, m.mem, Zeroed(m.mem, lo, hi), m.segs, m.fwd);
    OldIntactKept(h0, cg, m.mem, Zeroed(m.mem, lo, hi), m.src, m.src);
  }

  /** From the new pages to the queued vector. */
  lemma QueueLargeKeepsInv(h0: Heap, cg: nat, m: St, base: nat, n: nat, end: nat, raw': set<nat>)
    requires Inv(h0, cg, m) && Untouched(h0, m, base) && |h0.mem| <= base && base + n <= end == |m.mem|
    requires PagesAre(m.segs, base, base + n, Tagged(cg, Pointers, true))
    requires raw' <= m.raw && forall w {:trigger w in raw'} :: w in m.raw && w !in raw' ==> base + n <= w < end
    ensures Inv(h0, cg, m.(mem := Zeroed(m.mem, base + n, end), raw := raw',
                           todo := m.todo.(queues := m.todo.queues[MetaPtrs := [Range(base, base + n)] + m.todo.queues[MetaPtrs]])))
  {
    LargeRanges(h0, cg, m, base, n);
    LargeNewPages(h0, m, base + n, end, raw');
    LargeColours(h0, cg, m, base + n, end, Range(base, base + n));
    LargeRaw(h0, cg, m, base, raw');
    LargeOldPart(h0, cg, m, base + n, end);
    LargeOnce(h0, cg, m, base, n);
  }

  lemma LargeOnce(h0: Heap, cg: nat, m: St, base: nat, n: nat)
    requires m.todo.Ok() && Untouched(h0, m, base) && MetasOk(h0, cg, m.segs, m.todo.meta) && m.todo.Once()
    ensures Pushed(m.todo, Range(base, base + n)).Once()
  {
    forall w: nat | In(Range(base, base + n), w) ensures m.todo.Times(w) == 0 {
      forall i ensures !InMeta(m.todo.meta[i], w) { assert MetaOk(h0, cg, m.segs, i, m.todo.meta[i]); }
      NotCounted(m.todo, w);
    }
    PushOnce(m.todo, Range(base, base + n));
  }

  lemma MmapLargeKeepsInv(h0: Heap, cg: nat, s: St, n: nat, junk: seq<Word>, pages: nat)
    requires Inv(h0, cg, s) && 0 < n <= 512 * pages && |junk| == 512 * pages
    ensures Inv(h0, cg, MmapLarge(s, cg, n, junk, pages))
  {
    hide Inv, Untouched, Extends;
    MmapAll(h0, cg, s, junk, pages, Pointers, true);
    var m := Mmap(s, junk, pages, Tagged(cg, Pointers, true));
    var t := MmapLarge(s, cg, n, junk, pages);
    MmapKeepsInv(h0, cg, s, junk, pages, Pointers, true);
    assert forall w {:trigger w in t.raw} :: w in m.raw && w !in t.raw ==> |s.mem| + n <= w < |m.mem|;
    QueueLargeKeepsInv(h0, cg, m, |s.mem|, n, |m.mem|, t.raw);
  }

  lemma MmapLargeLater(h0: Heap, cg: nat, s: St, n: nat, junk: seq<Word>, pages: nat)
    requires Inv(h0, cg, s) && 0 < n <= 512 * pages && |junk| == 512 * pages
    ensures Later(cg, s, MmapLarge(s, cg, n, junk, pages))
  {
    hide WellFormed, PlacesOk, MarksOk, CopiesApart, WhiteIntact, OldIntact, ObjectsWhole, PromotedTraced, SrcInCopies, RangesOk, ColoursOk, NewPagesOk, CopiesTraced, MetasOk,
      FreeOk, DoneStays;
    forall w | w in s.src ensures w < |s.mem| { assert Older(cg, s.segs, w); }
    PushDone(s, MmapLarge(s, cg, n, junk, pages), Range(|s.mem|, |s.mem| + n));
  }

  lemma MmapLargeReserves(h0: Heap, cg: nat, s: St, n: nat, junk: seq<Word>, pages: nat)
    requires Inv(h0, cg, s) && 0 < n <= 512 * pages && |junk| == 512 * pages
    ensures Reserved(h0, MmapLarge(s, cg, n, junk, pages), |s.mem|, Align(n))
    ensures PagesAre(MmapLarge(s, cg, n, junk, pages).segs, |s.mem|, |s.mem| + Align(n), Tagged(cg, Pointers, true))
    ensures MmapLarge(s, cg, n, junk, pages).raw == s.raw + Block(|s.mem|, Align(n))
  {
    hide Inv, Extends;
    MmapAll(h0, cg, s, junk, pages, Pointers, true);
    EvenPages(|s.segs|, pages);
  }

  lemma MmapLargeWhites(h0: Heap, cg: nat, s: St, n: nat, junk: seq<Word>, pages: nat)
    requires Inv(h0, cg, s) && 0 < n <= 512 * pages && |junk| == 512 * pages
    ensures var t := MmapLarge(s, cg, n, junk, pages); Whites(h0, cg, t.segs, t.fwd) == Whites(h0, cg, s.segs, s.fwd)
  {
    MmapSegs(h0, cg, s, junk, pages, Pointers, true);
    ExtendsWhites(h0, cg, s.segs, MmapLarge(s, cg, n, junk, pages).segs, s.fwd);
  }

  lemma MmapLargeAllocates(h0: Heap, cg: nat, s: St, n: nat, junk: seq<Word>, pages: nat)
    requires Inv(h0, cg, s) && 0 < n <= 512 * pages && |junk| == 512 * pages
    ensures AllocatedLarge(h0, cg, s, MmapLarge(s, cg, n, junk, pages), |s.mem|, n)
  {
    hide Inv, Reserved, PagesAre, Untouched, Extends, Later, Whites;
    MmapAll(h0, cg, s, junk, pages, Pointers, true);
    var t := MmapLarge(s, cg, n, junk, pages);
    MmapLargeKeepsInv(h0, cg, s, n, junk, pages);
    MmapLargeReserves(h0, cg, s, n, junk, pages);
    MmapLargeLater(h0, cg, s, n, junk, pages);
    MmapLargeWhites(h0, cg, s, n, junk, pages);
    LargeWaits(s, cg, n, junk, pages);
  }

  lemma LargeWaits(s: St, cg: nat, n: nat, junk: seq<Word>, pages: nat)
    requires s.todo.Ok() && n <= 512 * pages && |junk| == 512 * pages
    ensures MmapLarge(s, cg, n, junk, pages).todo.Ok()
    ensures forall w: nat {:trigger MmapLarge(s, cg, n, junk, pages).todo.Waiting(w)} :: |s.mem| <= w < |s.mem| + n ==> MmapLarge(s, cg, n, junk, pages).todo.Waiting(w)
  {
    forall w: nat | |s.mem| <= w < |s.mem| + n ensures MmapLarge(s, cg, n, junk, pages).todo.Waiting(w) {
      PushWaiting(s.todo, Range(|s.mem|, |s.mem| + n), w);
    }
  }
}
