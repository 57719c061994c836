/** A whole collection. */
module GcCollect {
  import opened Memory
  import opened GcState
  import opened GcSteps
  import opened GcMoves
  import opened GcReach
  import opened GcGather
  import opened GcLoop
  import opened GcDirty
  import opened GcWeak
  import opened GcFinish
  import opened GcRoots
  import opened GcGuardians
  import opened GcReachable
  import opened Collector

  const NO_METAS := map[MetaPtrs := NO_META, MetaData := NO_META, MetaWeak := NO_META, MetaPair := NO_META]
  const NO_QUEUES: map<MetaId, seq<Range>> := map[MetaPtrs := [], MetaData := [], MetaWeak := [], MetaPair := []]

  /** The state when a collection begins: nothing is moved, nothing is allocated. */
  ghost function StartState(h0: Heap): St {
    St(h0.mem, h0.segs, map[], map[], {}, Agenda(NO_METAS, NO_QUEUES, [], MetaPtrs))
  }

  lemma StartIds()
    ensures HasIds(NO_METAS) && HasIds(NO_QUEUES)
    ensures forall id {:trigger NO_METAS[id]} :: NO_METAS[id] == NO_META
    ensures forall id {:trigger NO_QUEUES[id]} :: NO_QUEUES[id] == []
  {
    forall id: MetaId ensures id in NO_METAS && NO_METAS[id] == NO_META && id in NO_QUEUES && NO_QUEUES[id] == [] {
      match id
      case MetaPtrs =>
      case MetaData =>
      case MetaWeak =>
      case MetaPair =>
    }
  }

  lemma StartInv(h0: Heap, cg: nat)
    requires WellFormed(h0) && cg <= OLDEST
    ensures Inv(h0, cg, StartState(h0))
  {
    StartIds();
    var s := StartState(h0);
    assert SegsStep(h0, cg, |s.mem|, s.segs);
    assert PlacesOk(h0, cg, s.segs, s.fwd) && MarksOk(h0, s.mem, s.fwd) && CopiesApart(h0, s.fwd);
    assert WhiteIntact(h0, cg, s.mem, s.segs, s.fwd) && OldIntact(h0, cg, s.mem, s.src);
    StartWhole(h0, cg);
    assert CopiesTraced(h0, s.fwd, s.src, s.raw) && PromotedTraced(h0, cg, s.segs, s.src) && SourcesOk(h0, cg, s.segs, s.src, s.raw);
    assert SrcInCopies(h0, s.fwd, s.src) && ColoursOk(h0, cg, s.mem, s.segs, s.fwd, s.src, s.todo);
    assert MetasOk(h0, cg, s.segs, s.todo.meta) && FreeOk(h0, s.fwd, s.src, s.raw, s.todo.meta);
    assert RangesOk(h0, cg, s.segs, s.src, s.todo) && NewPagesOk(h0, s.mem, s.segs, s.src, s.raw, s.todo.meta);
  }

  lemma StartWhole(h0: Heap, cg: nat)
    requires WellFormed(h0)
    ensures ObjectsWhole(h0, cg, h0.segs)
  {
    forall a, w | 0 <= a <= w && a in h0.objs && w < a + UsedOf(h0, a) && Older(cg, h0.segs, w) ensures Older(cg, h0.segs, a) {
      assert ObjectOk(h0, a);
      assert SegOf(h0.segs, w) == SegOf(h0.segs, a);
    }
  }

  lemma StartKept(h0: Heap, cg: nat, keep: set<nat>)
    ensures KeptOk(h0, cg, h0.segs, map[], map[], keep)
  {
  }

  // ---------- The last steps ----------

  /** deallocate_unused_pages */
  method DeallocateUnusedPages(gc: Gc)
    requires |gc.dirty| == |gc.segs|
    modifies gc`segs, gc`dirty
    ensures |gc.segs| == |old(gc.segs)| && forall p {:trigger gc.segs[p]} :: 0 <= p < |gc.segs| ==> gc.segs[p] == Freed(gc.collectGen, old(gc.segs)[p])
    ensures gc.dirty == FinalDirty(gc.collectGen, old(gc.segs), old(gc.dirty))
    ensures forall p {:trigger gc.segs[p]} {:trigger gc.dirty[p]} :: 0 <= p < |gc.segs| ==>
              var seg := old(gc.segs)[p];
              if (seg.typ == Pointers || seg.typ == Data || seg.typ == WeakPairs) && seg.gen <= gc.collectGen && seg.gen < NEW_GEN_TAG
              then gc.segs[p] == HOLE_SEG && (seg == HOLE_SEG || gc.dirty[p] == PURE_PAGE)
              else gc.segs[p] == seg && gc.dirty[p] == old(gc.dirty)[p]
  {
    ghost var segs, dirty := gc.segs, gc.dirty;
    var p := 0;
    while p < |gc.segs|
      invariant p <= |gc.segs| == |segs| == |gc.dirty|
      invariant forall q {:trigger gc.segs[q]} :: 0 <= q < |segs| ==> gc.segs[q] == if q < p then Freed(gc.collectGen, segs[q]) else segs[q]
      invariant forall q {:trigger gc.dirty[q]} :: 0 <= q < |segs| ==> gc.dirty[q] == if q < p && Freed(gc.collectGen, segs[q]) != segs[q] then PURE_PAGE else dirty[q]
    {
      if Generational(gc.segs[p].typ) && gc.segs[p].gen % 8 <= gc.collectGen && gc.segs[p].gen < NEW_GEN_TAG {
        gc.segs := gc.segs[p := HOLE_SEG];
        gc.dirty := gc.dirty[p := PURE_PAGE];
      }
      p := p + 1;
    }
  }

  /** fix_new_pages */
  method FixNewPages(gc: Gc)
    modifies gc`segs
    ensures |gc.segs| == |old(gc.segs)| && forall p {:trigger gc.segs[p]} :: 0 <= p < |gc.segs| ==> gc.segs[p] == Untagged(old(gc.segs)[p])
    ensures forall p {:trigger gc.segs[p]} :: 0 <= p < |gc.segs| ==>
              gc.segs[p].typ == old(gc.segs)[p].typ && gc.segs[p].nib == old(gc.segs)[p].nib && gc.segs[p].large == old(gc.segs)[p].large
  {
    ghost var segs := gc.segs;
    var p := 0;
    while p < |gc.segs|
      invariant p <= |gc.segs| == |segs|
      invariant forall q {:trigger gc.segs[q]} :: 0 <= q < |segs| ==> gc.segs[q] == if q < p then Untagged(segs[q]) else segs[q]
    {
      var seg := gc.segs[p];
      gc.segs := gc.segs[p := seg.(gen := if seg.gen >= NEW_GEN_TAG then seg.gen - NEW_GEN_TAG else seg.gen)];
      p := p + 1;
    }
  }

  // ---------- The collection ----------

  /** What there is between collections: the heap, the dirty vector, the words outside the heap that refer to it, and
      for each generation the list of its guardian entries. */
  datatype World = World(h: Heap, dirty: seq<seq<bv4>>, roots: seq<Word>, lists: seq<seq<seq<Word>>>)

  ghost function WorldOf(gc: Gc): World
    reads gc
  {
    World(gc.Heap(), gc.dirty, gc.roots, gc.protectedList)
  }

  /** What a collection of generation cg may count on: a well-formed heap, a sound dirty vector, roots and
      protected entries that refer to objects of the heap. */
  ghost predicate Ready(w: World, cg: nat) {
    && WellFormed(w.h) && CardsSound(w.h, w.dirty) && cg <= OLDEST
    && RootsOk(w.h, w.roots)
    && |w.lists| == GENERATIONS && OlderLists(w.h, cg, w.lists)
    && EntriesOk(w.h, Protected(w.lists, cg + 1)) && Private(w.h, Protected(w.lists, cg + 1))
  }

  /** What the dirty scan established stays established. */
  lemma Carry(h0: Heap, cg: nat, s: St, t: St, d: seq<seq<bv4>>, e: seq<seq<bv4>>)
    requires Inv(h0, cg, s) && Inv(h0, cg, t) && Onward(cg, s, t) && Grown(d, e) && Shaped(d)
    requires |h0.mem| == 512 * |h0.segs| && PagesDone(h0, cg, s, d, |h0.segs|)
    ensures Shaped(e) && PagesDone(h0, cg, t, e, |h0.segs|)
  {
    hide Inv, Onward, PageDone, Shaped;
    GrownShaped(d, e);
    PagesDoneKept(h0, cg, s, t, d, e, |h0.segs|);
  }

  /** Tracing from the dirty pages and the roots. */
  method TraceRoots(gc: Gc)
    requires gc.Good() && gc.Now() == StartState(gc.h0) && |gc.stray| == 8
    requires CardsSound(gc.h0, gc.dirty) && |gc.h0.mem| == 512 * |gc.h0.segs|
    requires PagesWanted(gc.h0, gc.collectGen, gc.keep) && RootsGood(gc.h0, gc.collectGen, gc.keep, gc.roots)
    modifies gc`mem, gc`segs, gc`dirty, gc`meta, gc`queues, gc`fwd, gc`src, gc`raw, gc`work, gc`workId, gc`roots
    ensures gc.Good() && AtRest(gc.h0, gc.collectGen, gc.Now()) && gc.Rested() && Shaped(gc.dirty)
    ensures PagesDone(gc.h0, gc.collectGen, gc.Now(), gc.dirty, |gc.h0.segs|)
    ensures RootsDone(gc.collectGen, gc.Now(), old(gc.roots), gc.roots, |gc.roots|)
  {
    hide Inv, Closed, KeptOk, Grown, Onward, Turn, PagesDone, RootsDone, PagesWanted, CardsSound, RootsGood, Shaped;
    gc.ScanDirtyPages();
    ghost var s1, d1 := gc.Now(), gc.dirty;
    ScanRoots(gc);
    ghost var s2, d2 := gc.Now(), gc.dirty;
    Carry(gc.h0, gc.collectGen, s1, s2, d1, d2);
    gc.CollectLoop();
    ghost var s3 := gc.Now();
    TurnOnward(gc.h0, gc.collectGen, s2, s3);
    Carry(gc.h0, gc.collectGen, s2, s3, d2, gc.dirty);
    RootsKept(gc.h0, gc.collectGen, s2, s3, old(gc.roots), gc.roots, |gc.roots|);
  }

  /** handle_guardians, and the scan loop once more. */
  method TraceGuardians(gc: Gc, ghost before: seq<Word>) returns (ghost kept: seq<Word>, ghost forwarded: seq<Word>, ghost dropped: seq<Word>)
    requires gc.Good() && AtRest(gc.h0, gc.collectGen, gc.Now()) && gc.Rested() && Shaped(gc.dirty)
    requires |gc.protectedList| == GENERATIONS && OlderLists(gc.h0, gc.collectGen, gc.protectedList)
    requires Private(gc.h0, Protected(gc.protectedList, gc.collectGen + 1))
    requires EntriesWanted(gc.h0, gc.collectGen, gc.keep, Protected(gc.protectedList, gc.collectGen + 1))
    requires |gc.h0.mem| == 512 * |gc.h0.segs| && PagesDone(gc.h0, gc.collectGen, gc.Now(), gc.dirty, |gc.h0.segs|)
    requires RootsDone(gc.collectGen, gc.Now(), before, gc.roots, |gc.roots|)
    modifies gc`mem, gc`segs, gc`dirty, gc`meta, gc`queues, gc`fwd, gc`src, gc`raw, gc`work, gc`workId, gc`keep, gc`protectedList, gc`forwardList
    ensures gc.Good() && gc.keep == old(gc.keep) && Traced(gc.h0, gc.collectGen, gc.Now()) && Shaped(gc.dirty)
    ensures PagesDone(gc.h0, gc.collectGen, gc.Now(), gc.dirty, |gc.h0.segs|) && RootsDone(gc.collectGen, gc.Now(), before, gc.roots, |gc.roots|)
    ensures Onward(gc.collectGen, old(gc.Now()), gc.Now())
    ensures Outcome(gc.h0, gc.collectGen, old(gc.Now()), gc.Now(), Protected(old(gc.protectedList), gc.collectGen + 1), kept, forwarded, dropped)
    ensures gc.collectGen <= OLDEST && ListsNext(gc.collectGen, gc.fwd, old(gc.protectedList), gc.protectedList, gc.forwardList, kept, forwarded)
  {
    hide Inv, Closed, KeptOk, Grown, Onward, Turn, PagesDone, RootsDone, OlderLists, EntriesWanted, Private, Protected, Shaped, Outcome, ListsNext;
    ghost var s1, d1, all := gc.Now(), gc.dirty, gc.protectedList;
    kept, forwarded, dropped := HandleGuardians(gc);
    ghost var s2, d2 := gc.Now(), gc.dirty;
    Carry(gc.h0, gc.collectGen, s1, s2, d1, d2);
    RootsKept(gc.h0, gc.collectGen, s1, s2, before, gc.roots, |gc.roots|);
    gc.CollectLoop();
    ghost var s3 := gc.Now();
    TurnOnward(gc.h0, gc.collectGen, s2, s3);
    OnwardTrans(gc.collectGen, s1, s2, s3);
    Carry(gc.h0, gc.collectGen, s2, s3, d2, gc.dirty);
    RootsKept(gc.h0, gc.collectGen, s2, s3, before, gc.roots, |gc.roots|);
    SameOutcome(gc.h0, gc.collectGen, s1, s2, s3, Protected(all, gc.collectGen + 1), kept, forwarded, dropped);
    assert gc.fwd == s2.fwd;
  }

  /** Nothing more was moved. */
  lemma SameOutcome(h0: Heap, cg: nat, r: St, s: St, t: St, all: seq<Word>, kept: seq<Word>, forwarded: seq<Word>, dropped: seq<Word>)
    requires Outcome(h0, cg, r, s, all, kept, forwarded, dropped) && t.fwd == s.fwd && t.segs == s.segs
    ensures Outcome(h0, cg, r, t, all, kept, forwarded, dropped)
  {
  }

  // ---------- What decides the fate of an entry ----------

  /** Word i of the entry refers to an object of keep, or to one that is not collected, or is no reference. */
  ghost predicate Holds(h0: Heap, cg: nat, keep: set<nat>, p: Word, i: nat) {
    p.Ptr? && p.addr + i < |h0.mem| && TargetKept(h0, cg, keep, h0.mem[p.addr + i])
  }

  /** Every protected entry is accounted for once: its object was within the reach of the program or not, and its
      tconc is among what has to be kept or not. */
  ghost predicate GuardiansServed(h0: Heap, cg: nat, reach: set<nat>, keep: set<nat>, entries: seq<Word>, kept: seq<Word>, forwarded: seq<Word>, dropped: seq<Word>) {
    && multiset(kept) + multiset(forwarded) + multiset(dropped) == multiset(entries)
    && (forall p {:trigger p in kept} :: p in kept ==> Holds(h0, cg, reach, p, 1) && Holds(h0, cg, keep, p, 0))
    && (forall p {:trigger p in forwarded} :: p in forwarded ==> !Holds(h0, cg, reach, p, 1) && Holds(h0, cg, keep, p, 0))
    && (forall p {:trigger p in dropped} :: p in dropped ==> !Holds(h0, cg, keep, p, 0))
  }

  lemma LiveHolds(h0: Heap, cg: nat, s: St, p: Word, i: nat)
    requires AtRest(h0, cg, s) && EntryOk(h0, p) && i < 2
    ensures EntryLive(h0, cg, s, p, i) <==> Holds(h0, cg, Survived(h0, cg, s), p, i)
  {
    hide Inv, AtRest, Survived, TargetKept, Live, WellFormed;
    RestInv(h0, cg, s);
    PairGood(h0, p.addr, i);
    LiveIsKept(h0, cg, s, h0.mem[p.addr + i]);
  }

  lemma Served(h0: Heap, cg: nat, reached: St, end: St, entries: seq<Word>, kept: seq<Word>, forwarded: seq<Word>, dropped: seq<Word>)
    requires AtRest(h0, cg, reached) && AtRest(h0, cg, end) && EntriesOk(h0, entries)
    requires Outcome(h0, cg, reached, end, entries, kept, forwarded, dropped)
    ensures GuardiansServed(h0, cg, Survived(h0, cg, reached), Survived(h0, cg, end), entries, kept, forwarded, dropped)
    ensures EntriesSettled(h0, cg, end, entries)
  {
    hide AtRest, EntryLive, Holds, Survived, EntryOk, Live;
    ThreeParts(kept, forwarded, dropped, entries);
    forall p {:trigger p in entries} | p in entries
      ensures EntryLive(h0, cg, reached, p, 1) <==> Holds(h0, cg, Survived(h0, cg, reached), p, 1)
      ensures EntryLive(h0, cg, end, p, 0) <==> Holds(h0, cg, Survived(h0, cg, end), p, 0)
    {
      LiveHolds(h0, cg, reached, p, 1);
      LiveHolds(h0, cg, end, p, 0);
    }
  }

  lemma ThreeParts(a: seq<Word>, b: seq<Word>, c: seq<Word>, all: seq<Word>)
    requires multiset(a) + multiset(b) + multiset(c) == multiset(all)
    ensures forall p {:trigger p in all} :: p in all <==> p in a || p in b || p in c
    ensures forall p {:trigger p in a} :: p in a ==> p in all
    ensures forall p {:trigger p in b} :: p in b ==> p in all
    ensures forall p {:trigger p in c} :: p in c ==> p in all
  {
    forall p ensures p in all <==> p in a || p in b || p in c {
      assert p in multiset(all) <==> p in multiset(a) || p in multiset(b) || p in multiset(c);
    }
  }

  // ---------- The collection ----------

  /** Nothing is moved yet. */
  method Begin(gc: Gc, cg: nat)
    requires WellFormed(gc.Heap()) && |gc.dirty| == |gc.segs| && cg <= OLDEST
    modifies gc`h0, gc`collectGen, gc`fwd, gc`src, gc`raw, gc`meta, gc`queues, gc`work, gc`workId
    ensures gc.h0 == old(gc.Heap()) && gc.collectGen == cg && gc.Now() == StartState(gc.h0) && Inv(gc.h0, cg, gc.Now())
  {
    hide Inv, WellFormed;
    gc.h0, gc.collectGen := gc.Heap(), cg;
    gc.fwd, gc.src, gc.raw := map[], map[], {};
    gc.meta, gc.queues, gc.work, gc.workId := NO_METAS, NO_QUEUES, [], MetaPtrs;
    StartInv(gc.h0, cg);
  }

  /** The program reaches what the state `reached` has kept; with the guardians served, `end` has kept all that has to be. */
  ghost predicate Exact(h0: Heap, cg: nat, reached: St, end: St, roots: seq<Word>, entries: seq<Word>)
    requires |h0.mem| == 512 * |h0.segs|
  {
    && AtRest(h0, cg, reached) && Onward(cg, reached, end)
    && Survived(h0, cg, reached) == Reachable(h0, cg, roots, [])
    && Survived(h0, cg, end) == Reachable(h0, cg, roots, entries)
  }

  /** Everything up to the end of tracing. */
  method Trace(gc: Gc) returns (ghost reached: St, ghost kept: seq<Word>, ghost forwarded: seq<Word>, ghost dropped: seq<Word>)
    requires Inv(gc.h0, gc.collectGen, gc.Now()) && gc.Now() == StartState(gc.h0) && |gc.stray| == 8
    requires Ready(World(gc.h0, gc.dirty, gc.roots, gc.protectedList), gc.collectGen)
    modifies gc`mem, gc`segs, gc`dirty, gc`meta, gc`queues, gc`fwd, gc`src, gc`raw, gc`work, gc`workId, gc`keep, gc`roots, gc`protectedList, gc`forwardList
    ensures Traced(gc.h0, gc.collectGen, gc.Now()) && Shaped(gc.dirty) && |gc.dirty| == |gc.segs| && |gc.h0.mem| == 512 * |gc.h0.segs|
    ensures PagesDone(gc.h0, gc.collectGen, gc.Now(), gc.dirty, |gc.h0.segs|) && RootsDone(gc.collectGen, gc.Now(), old(gc.roots), gc.roots, |gc.roots|)
    ensures |old(gc.protectedList)| == GENERATIONS && gc.collectGen <= OLDEST
    ensures Exact(gc.h0, gc.collectGen, reached, gc.Now(), old(gc.roots), Protected(old(gc.protectedList), gc.collectGen + 1))
    ensures GuardiansServed(gc.h0, gc.collectGen, Survived(gc.h0, gc.collectGen, reached), Survived(gc.h0, gc.collectGen, gc.Now()),
                            Protected(old(gc.protectedList), gc.collectGen + 1), kept, forwarded, dropped)
    ensures ListsNext(gc.collectGen, gc.fwd, old(gc.protectedList), gc.protectedList, gc.forwardList, kept, forwarded)
  {
    hide Inv, Closed, KeptOk, WellFormed, CardsSound, OlderLists, EntriesOk, Private, Protected, PagesDone, PagesWanted, RootsGood, RootsDone, AtRest, EntriesWanted,
      GuardiansServed, ListsNext, Outcome, Shaped, Survived, Reachable, Onward, EntriesSettled;
    ghost var h0, cg, roots, all := gc.h0, gc.collectGen, gc.roots, Protected(gc.protectedList, gc.collectGen + 1);
    StartSizes(h0, gc.dirty);
    gc.keep := Reachable(h0, cg, roots, []);
    NoEntries(h0);
    ReachableEnough(h0, cg, roots, []);
    StartKept(h0, cg, gc.keep);
    StartGood(gc);
    TraceRoots(gc);
    reached := gc.Now();
    NoneSettled(h0, cg, reached);
    SurvivorsReachable(h0, cg, reached, gc.dirty, roots, gc.roots, []);
    ReachableEnough(h0, cg, roots, all);
    ReachableGrows(h0, cg, roots, all);
    KeptMore(h0, cg, gc.Now(), gc.keep, Reachable(h0, cg, roots, all));
    gc.keep := Reachable(h0, cg, roots, all);
    kept, forwarded, dropped := TraceGuardians(gc, roots);
    TracedRests(h0, cg, gc.Now());
    Served(h0, cg, reached, gc.Now(), all, kept, forwarded, dropped);
    SurvivorsReachable(h0, cg, gc.Now(), gc.dirty, roots, gc.roots, all);
  }

  lemma NoEntries(h0: Heap)
    ensures EntriesOk(h0, [])
  {
  }

  lemma NoneSettled(h0: Heap, cg: nat, s: St)
    ensures EntriesSettled(h0, cg, s, [])
  {
  }

  lemma TracedRests(h0: Heap, cg: nat, s: St)
    requires Traced(h0, cg, s)
    ensures AtRest(h0, cg, s)
  {
    hide Inv;
  }

  lemma KeptMore(h0: Heap, cg: nat, s: St, keep: set<nat>, keep': set<nat>)
    requires KeptOk(h0, cg, s.segs, s.fwd, s.src, keep) && keep <= keep'
    ensures KeptOk(h0, cg, s.segs, s.fwd, s.src, keep')
  {
  }

  /** What a collection of generation cg did to the heap h0: the survivors are where end says, and h1 is what is left. */
  ghost predicate Collected(h0: Heap, cg: nat, end: St, dirty: seq<seq<bv4>>, h1: Heap, before: seq<Word>, now: seq<Word>) {
    && Finished(h0, cg, end, h1.mem, dirty)
    && (forall a :: a in end.fwd ==> a in h0.objs) && h1 == NextHeap(h0, cg, end, h1.mem)
    && RootsDone(cg, end, before, now, |now|)
  }

  /** fix_weak_pointers, deallocate_unused_pages and fix_new_pages. */
  method Settle(gc: Gc)
    requires Traced(gc.h0, gc.collectGen, gc.Now()) && |gc.dirty| == |gc.segs| && Shaped(gc.dirty)
    requires |gc.h0.mem| == 512 * |gc.h0.segs| && PagesDone(gc.h0, gc.collectGen, gc.Now(), gc.dirty, |gc.h0.segs|)
    modifies gc`mem, gc`segs, gc`dirty, gc`objs
    ensures WeakFixed(gc.h0, gc.collectGen, old(gc.Now()), gc.mem, |gc.mem|)
    ensures forall a :: a in gc.fwd ==> a in gc.h0.objs
    ensures gc.Heap() == NextHeap(gc.h0, gc.collectGen, old(gc.Now()), gc.mem)
    ensures WellFormed(gc.Heap()) && CardsSound(gc.Heap(), gc.dirty) && gc.dirty == FinalDirty(gc.collectGen, old(gc.segs), old(gc.dirty))
  {
    hide Inv, Traced, WeakFixed, WellFormed, CardsSound, PagesDone;
    ghost var s, d := gc.Now(), gc.dirty;
    FixWeakPointers(gc);
    NextSizes(gc.h0, gc.collectGen, s, gc.mem);
    NextWellFormed(gc.h0, gc.collectGen, s, gc.mem, d);
    NextCardsSound(gc.h0, gc.collectGen, s, gc.mem, d);
    DeallocateUnusedPages(gc);
    FixNewPages(gc);
    assert gc.segs == FinalSegs(gc.collectGen, s.segs);
    gc.objs := NextObjs(gc.h0, gc.collectGen, s.segs, s.fwd);
  }

  /** What there is to tell of a collection: the state when the roots were traced, the state when everything was, the dirty
      vector as the dirty scan left it, and what has become of the protected entries. */
  datatype Report = Report(reached: St, end: St, scanned: seq<seq<bv4>>, kept: seq<Word>, forwarded: seq<Word>, dropped: seq<Word>)

  /** A collection of generation cg took w to x, with the entries whose objects are to be delivered in the list forward. */
  ghost predicate Collection(w: World, cg: nat, r: Report, x: World, forward: seq<seq<Word>>) {
    && |w.h.mem| == 512 * |w.h.segs| && |w.lists| == GENERATIONS && cg <= OLDEST && |r.scanned| == |r.end.segs|
    && Collected(w.h, cg, r.end, r.scanned, x.h, w.roots, x.roots)
    && x.dirty == FinalDirty(cg, r.end.segs, r.scanned)
    && Exact(w.h, cg, r.reached, r.end, w.roots, Protected(w.lists, cg + 1))
    && GuardiansServed(w.h, cg, Survived(w.h, cg, r.reached), Survived(w.h, cg, r.end), Protected(w.lists, cg + 1), r.kept, r.forwarded, r.dropped)
    && ListsNext(cg, r.end.fwd, w.lists, x.lists, forward, r.kept, r.forwarded)
  }

  /** perform_garbage_collection, from the scan of the roots to the removal of the tags of the new pages. */
  method Collect(gc: Gc, cg: nat) returns (ghost r: Report)
    requires |gc.stray| == 8 && Ready(WorldOf(gc), cg)
    modifies gc
    ensures WellFormed(gc.Heap()) && CardsSound(gc.Heap(), gc.dirty)
    ensures Collection(old(WorldOf(gc)), cg, r, WorldOf(gc), gc.forwardList)
  {
    hide Inv, WellFormed, CardsSound, OlderLists, EntriesOk, Private, Protected, PagesDone, Traced, WeakFixed, RootsDone, AtRest, GuardiansServed, ListsNext, FinalDirty, NextHeap,
      Shaped, Exact, Survived, RootsOk;
    StartSizes(gc.Heap(), gc.dirty);
    Begin(gc, cg);
    ghost var reached, kept, forwarded, dropped := Trace(gc);
    r := Report(reached, gc.Now(), gc.dirty, kept, forwarded, dropped);
    Settle(gc);
  }

  lemma StartSizes(h0: Heap, dirty: seq<seq<bv4>>)
    requires WellFormed(h0) && CardsSound(h0, dirty)
    ensures |h0.mem| == 512 * |h0.segs| && |dirty| == |h0.segs| && Shaped(dirty)
  {
  }

  lemma StartGood(gc: Gc)
    requires Inv(gc.h0, gc.collectGen, gc.Now()) && |gc.dirty| == |gc.segs|
    requires Closed(gc.h0, gc.collectGen, gc.keep) && KeptOk(gc.h0, gc.collectGen, gc.segs, gc.fwd, gc.src, gc.keep)
    ensures gc.Good()
  {
    hide Inv, Closed, KeptOk;
  }
}
