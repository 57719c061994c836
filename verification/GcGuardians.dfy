/** Guardians: which of the protected objects are delivered, which stay protected, which are forgotten. */
module GcGuardians {
  import opened Memory
  import opened GcState
  import opened GcSteps
  import opened GcMoves
  import opened GcAlloc
  import opened GcReach
  import opened GcGather
  import opened GcLoop
  import opened GcDirty
  import opened GcWeak
  import opened Collector

  // ---------- Lists of pages of references ----------

  // IK_PTR_PAGE_NUMBER_OF_GUARDIANS_SLOTS: a page less the two words for its count and link.
  const SLOTS: nat := 510

  function Flat(ls: seq<seq<Word>>): seq<Word> {
    if ls == [] then [] else ls[0] + Flat(ls[1..])
  }

  /** move_tconc: the first page of the list gets the reference, or a new page before it. */
  function MoveTconc(tc: Word, ls: seq<seq<Word>>): seq<seq<Word>> {
    if ls == [] || |ls[0]| == SLOTS then [[tc]] + ls else [ls[0] + [tc]] + ls[1..]
  }

  lemma FlatMove(tc: Word, ls: seq<seq<Word>>)
    ensures multiset(Flat(MoveTconc(tc, ls))) == multiset(Flat(ls)) + multiset{tc}
    ensures Flat(MoveTconc(tc, ls)) != []
    ensures forall p {:trigger p in Flat(MoveTconc(tc, ls))} :: p in Flat(MoveTconc(tc, ls)) <==> p in Flat(ls) || p == tc
  {
    var m := MoveTconc(tc, ls);
    if ls == [] || |ls[0]| == SLOTS {
      assert m[1..] == ls && Flat(m) == [tc] + Flat(ls);
    } else {
      assert m[1..] == ls[1..] && Flat(m) == ls[0] + [tc] + Flat(ls[1..]) && Flat(ls) == ls[0] + Flat(ls[1..]);
    }
  }

  // ---------- Entries ----------

  /** An entry is a pair: its car is the tconc, its cdr the object. */
  ghost predicate EntryOk(h0: Heap, p: Word) {
    p.Ptr? && p.kind == PairKind && p.addr in h0.objs && h0.objs[p.addr] == PairKind
  }

  ghost predicate EntriesOk(h0: Heap, es: seq<Word>) {
    forall p {:trigger p in es} :: p in es ==> EntryOk(h0, p)
  }

  predicate Live(cg: nat, segs: seq<Seg>, fwd: map<nat, nat>, v: Word) {
    v.Ptr? ==> v.addr in fwd || Older(cg, segs, v.addr)
  }

  /** Word i of the entry, as it was before the collection, refers to something that is kept. */
  ghost predicate EntryLive(h0: Heap, cg: nat, s: St, p: Word, i: nat) {
    p.Ptr? && p.addr + i < |h0.mem| && Live(cg, s.segs, s.fwd, h0.mem[p.addr + i])
  }

  lemma LiveImage(h0: Heap, cg: nat, s: St, v: Word, x: Word)
    requires Inv(h0, cg, s) && GoodWord(h0.objs, v)
    requires IsImage(cg, s.segs, s.fwd, v, x) || x == v
    ensures Known(h0, s.fwd, x) && (Live(cg, s.segs, s.fwd, x) <==> Live(cg, s.segs, s.fwd, v))
  {
    if x != v && v.Ptr? && v.addr in s.fwd {
      CopyNotObject(h0, cg, s.segs, s.fwd, v.addr);
      MovedKind(h0, cg, s, v.addr);
    }
  }

  /** A word of a pair, read through the forwarding reference when the pair has been moved. */
  lemma EntryWord(h0: Heap, cg: nat, s: St, p: Word, i: nat)
    requires Inv(h0, cg, s) && s.raw == {} && EntryOk(h0, p) && i < 2
    ensures p.addr + 1 < |h0.mem| <= |s.mem| && GoodWord(h0.objs, h0.mem[p.addr + i])
    ensures s.mem[p.addr] == Fwd <==> p.addr in s.fwd
    ensures p.addr in s.fwd ==> s.mem[p.addr + 1] == Ptr(PairKind, s.fwd[p.addr]) && s.fwd[p.addr] + 1 < |s.mem|
    ensures var x := s.mem[(if p.addr in s.fwd then s.fwd[p.addr] else p.addr) + i];
            IsImage(cg, s.segs, s.fwd, h0.mem[p.addr + i], x) || x == h0.mem[p.addr + i]
  {
    hide Inv, WellFormed;
    var a := p.addr;
    FirstWord(h0, cg, s, PairKind, a);
    InvObject(h0, cg, s, a);
    PairGood(h0, a, i);
    if a in s.fwd {
      CopiedWord(h0, cg, s, a, i);
    } else {
      UnmovedWord(h0, cg, s, a, i);
    }
  }

  lemma PairGood(h0: Heap, a: nat, i: nat)
    requires WellFormed(h0) && a in h0.objs && h0.objs[a] == PairKind && i < 2
    ensures a + 1 < |h0.mem| && GoodWord(h0.objs, h0.mem[a + i])
  {
    ObjectWords(h0, a);
    assert i == 0 || i == 1;
  }

  lemma CopiedWord(h0: Heap, cg: nat, s: St, a: nat, i: nat)
    requires Inv(h0, cg, s) && s.raw == {} && a in s.fwd && a in h0.objs && h0.objs[a] == PairKind && i < 2
    ensures s.fwd[a] + 1 < |s.mem| && s.fwd[a] + i in s.src && s.src[s.fwd[a] + i] == a + i && a + 1 < |h0.mem|
    ensures IsImage(cg, s.segs, s.fwd, h0.mem[a + i], s.mem[s.fwd[a] + i]) || s.mem[s.fwd[a] + i] == h0.mem[a + i]
  {
    hide Inv;
    InvObject(h0, cg, s, a);
    PairTrace(h0, cg, s, a, 0);
    PairTrace(h0, cg, s, a, 1);
    SurvivorHolds(h0, cg, s, s.fwd[a] + i);
    SurvivorHolds(h0, cg, s, s.fwd[a] + 1);
  }

  lemma PairTrace(h0: Heap, cg: nat, s: St, a: nat, i: nat)
    requires Inv(h0, cg, s) && s.raw == {} && a in s.fwd && UsedOf(h0, a) == 2 && i < 2
    ensures s.fwd[a] + i in s.src && s.src[s.fwd[a] + i] == a + i
  {
    TracedAt(h0, s.fwd, s.src, s.raw, a, i);
  }

  lemma TracedAt(h0: Heap, fwd: map<nat, nat>, src: map<nat, nat>, raw: set<nat>, a: nat, i: nat)
    requires CopiesTraced(h0, fwd, src, raw) && raw == {} && a in fwd && i < UsedOf(h0, a)
    ensures fwd[a] + i in src && src[fwd[a] + i] == a + i
  {
    assert a in fwd && fwd[a] + i !in raw;
  }

  lemma SurvivorHolds(h0: Heap, cg: nat, s: St, w: nat)
    requires Inv(h0, cg, s) && w in s.src
    ensures w < |s.mem| && s.src[w] < |h0.mem|
    ensures IsImage(cg, s.segs, s.fwd, h0.mem[s.src[w]], s.mem[w]) || s.mem[w] == h0.mem[s.src[w]]
    ensures w < |h0.mem| ==> s.src[w] == w
  {
  }

  lemma PairPage(h0: Heap, cg: nat, s: St, a: nat)
    requires WellFormed(h0) && SegsStep(h0, cg, |s.mem|, s.segs) && a in h0.objs && h0.objs[a] == PairKind
    ensures a < |h0.mem| && SegOf(s.segs, a) == SegOf(h0.segs, a)
  {
    ObjectWords(h0, a);
    assert SegOf(s.segs, a) == s.segs[a / 512];
  }

  lemma UnmovedWord(h0: Heap, cg: nat, s: St, a: nat, i: nat)
    requires Inv(h0, cg, s) && a !in s.fwd && a in h0.objs && h0.objs[a] == PairKind && i < 2
    ensures a + 1 < |h0.mem| <= |s.mem|
    ensures IsImage(cg, s.segs, s.fwd, h0.mem[a + i], s.mem[a + i]) || s.mem[a + i] == h0.mem[a + i]
  {
    hide Inv;
    InvObject(h0, cg, s, a);
    if a + i in s.src {
      SurvivorHolds(h0, cg, s, a + i);
    } else if Older(cg, s.segs, a) {
      OldPairWord(h0, cg, s, a, i);
    } else {
      WhitePairWord(h0, cg, s, a, i);
    }
  }

  lemma OldPairWord(h0: Heap, cg: nat, s: St, a: nat, i: nat)
    requires Inv(h0, cg, s) && Older(cg, s.segs, a) && a in h0.objs && h0.objs[a] == PairKind && i < 2 && a + i !in s.src
    ensures a + i < |h0.mem| <= |s.mem| && s.mem[a + i] == h0.mem[a + i]
  {
    hide WellFormed, PlacesOk, CopiesTraced, WhiteIntact, ColoursOk, SourcesOk, MarksOk, RangesOk, FreeOk, MetasOk, NewPagesOk, CopiesApart;
    InvObject(h0, cg, s, a);
    PairPage(h0, cg, s, a);
    SamePage(a);
    assert Older(cg, h0.segs, a) && Older(cg, h0.segs, a + i);
  }

  lemma WhitePairWord(h0: Heap, cg: nat, s: St, a: nat, i: nat)
    requires Inv(h0, cg, s) && !Older(cg, s.segs, a) && a !in s.fwd && a in h0.objs && h0.objs[a] == PairKind && i < 2
    ensures a + i < |h0.mem| <= |s.mem| && s.mem[a + i] == h0.mem[a + i]
  {
    hide WellFormed, PlacesOk, CopiesTraced, OldIntact, ColoursOk, SourcesOk, MarksOk, RangesOk, FreeOk, MetasOk, NewPagesOk, CopiesApart;
    InvObject(h0, cg, s, a);
    assert White(h0, cg, s.segs, s.fwd, a);
  }

  /** Word i of an entry as the collector reads it. */
  function EntryField(mem: seq<Word>, p: Word, i: nat): (x: Word)
    requires p.Ptr? && p.addr + 1 < |mem| && i < 2
    requires mem[p.addr] == Fwd ==> mem[p.addr + 1].Ptr? && mem[p.addr + 1].addr + 1 < |mem|
  {
    if mem[p.addr] == Fwd then mem[mem[p.addr + 1].addr + i] else mem[p.addr + i]
  }

  /** is_live */
  predicate IsLive(cg: nat, segs: seq<Seg>, mem: seq<Word>, x: Word)
    requires x.Ptr? ==> x.addr < |mem| && x.addr / 512 < |segs|
  {
    !x.Ptr? || mem[x.addr] == Fwd || segs[x.addr / 512].gen > cg
  }

  lemma IsLiveIsLive(h0: Heap, cg: nat, s: St, x: Word)
    requires Inv(h0, cg, s) && Known(h0, s.fwd, x)
    ensures x.Ptr? ==> x.addr < |s.mem| && x.addr / 512 < |s.segs|
    ensures IsLive(cg, s.segs, s.mem, x) <==> Live(cg, s.segs, s.fwd, x)
  {
    hide Inv;
    if x.Ptr? { FirstWord(h0, cg, s, x.kind, x.addr); }
  }

  /** The test that the collector makes on a word of an entry tells whether the word was live. */
  lemma EntryTest(h0: Heap, cg: nat, s: St, p: Word, i: nat)
    requires Inv(h0, cg, s) && s.raw == {} && EntryOk(h0, p) && i < 2
    ensures p.addr + 1 < |s.mem| && (s.mem[p.addr] == Fwd ==> s.mem[p.addr + 1].Ptr? && s.mem[p.addr + 1].addr + 1 < |s.mem|)
    ensures var x := EntryField(s.mem, p, i);
            && (x.Ptr? ==> x.addr < |s.mem| && x.addr / 512 < |s.segs|)
            && (IsLive(cg, s.segs, s.mem, x) <==> EntryLive(h0, cg, s, p, i))
  {
    hide Inv;
    EntryWord(h0, cg, s, p, i);
    var x := EntryField(s.mem, p, i);
    LiveImage(h0, cg, s, h0.mem[p.addr + i], x);
    IsLiveIsLive(h0, cg, s, x);
  }

  lemma LiveKept(h0: Heap, cg: nat, s: St, t: St, p: Word, i: nat)
    requires Onward(cg, s, t) && EntryLive(h0, cg, s, p, i)
    ensures EntryLive(h0, cg, t, p, i)
  {
    var v := h0.mem[p.addr + i];
    if v.Ptr? && v.addr !in s.fwd { assert t.segs[v.addr / 512] == t.segs[v.addr / 512]; }
  }

  // ---------- Sorting a list of entries ----------

  lemma AddOne(a: multiset<Word>, b: multiset<Word>, c: multiset<Word>, d: multiset<Word>, x: Word)
    requires a + b == c + d
    ensures (a + multiset{x}) + b == c + (d + multiset{x}) && a + (b + multiset{x}) == c + (d + multiset{x})
  {
    var m := multiset{x};
    assert (a + m) + b == (a + b) + m;
    assert a + (b + m) == (a + b) + m;
    assert c + (d + m) == (c + d) + m;
  }

  /** Entries whose word i is live go to one list, the others to another. */
  method Sort(gc: Gc, entries: seq<seq<Word>>, i: nat, live0: seq<seq<Word>>, dead0: seq<seq<Word>>)
    returns (live: seq<seq<Word>>, dead: seq<seq<Word>>)
    requires gc.Good() && gc.raw == {} && i < 2 && EntriesOk(gc.h0, Flat(entries))
    requires live0 != [] ==> Flat(live0) != []
    requires forall p {:trigger p in Flat(live0)} :: p in Flat(live0) ==> EntryLive(gc.h0, gc.collectGen, gc.Now(), p, i)
    requires forall p {:trigger p in Flat(dead0)} :: p in Flat(dead0) ==> !EntryLive(gc.h0, gc.collectGen, gc.Now(), p, i)
    ensures multiset(Flat(live)) + multiset(Flat(dead)) == multiset(Flat(live0)) + multiset(Flat(dead0)) + multiset(Flat(entries))
    ensures live != [] ==> Flat(live) != []
    ensures forall p {:trigger p in Flat(live)} :: p in Flat(live) ==> EntryLive(gc.h0, gc.collectGen, gc.Now(), p, i)
    ensures forall p {:trigger p in Flat(dead)} :: p in Flat(dead) ==> !EntryLive(gc.h0, gc.collectGen, gc.Now(), p, i)
  {
    hide Inv, Closed, KeptOk, EntryLive, IsLive;
    live, dead := live0, dead0;
    var ls := entries;
    while ls != []
      invariant EntriesOk(gc.h0, Flat(ls))
      invariant multiset(Flat(live)) + multiset(Flat(dead)) + multiset(Flat(ls)) == multiset(Flat(live0)) + multiset(Flat(dead0)) + multiset(Flat(entries))
      invariant live != [] ==> Flat(live) != []
      invariant forall p {:trigger p in Flat(live)} :: p in Flat(live) ==> EntryLive(gc.h0, gc.collectGen, gc.Now(), p, i)
      invariant forall p {:trigger p in Flat(dead)} :: p in Flat(dead) ==> !EntryLive(gc.h0, gc.collectGen, gc.Now(), p, i)
      decreases |ls|
    {
      FlatSplit(gc.h0, ls);
      live, dead := SortPage(gc, ls[0], i, live, dead);
      ls := ls[1..];
    }
  }

  lemma FlatSplit(h0: Heap, ls: seq<seq<Word>>)
    requires ls != [] && EntriesOk(h0, Flat(ls))
    ensures multiset(Flat(ls)) == multiset(ls[0]) + multiset(Flat(ls[1..]))
    ensures EntriesOk(h0, ls[0]) && EntriesOk(h0, Flat(ls[1..]))
  {
    assert Flat(ls) == ls[0] + Flat(ls[1..]);
    forall p | p in ls[0] ensures p in Flat(ls) {}
    forall p | p in Flat(ls[1..]) ensures p in Flat(ls) {}
  }

  method SortPage(gc: Gc, page: seq<Word>, i: nat, live0: seq<seq<Word>>, dead0: seq<seq<Word>>)
    returns (live: seq<seq<Word>>, dead: seq<seq<Word>>)
    requires gc.Good() && gc.raw == {} && i < 2 && EntriesOk(gc.h0, page)
    requires live0 != [] ==> Flat(live0) != []
    requires forall p {:trigger p in Flat(live0)} :: p in Flat(live0) ==> EntryLive(gc.h0, gc.collectGen, gc.Now(), p, i)
    requires forall p {:trigger p in Flat(dead0)} :: p in Flat(dead0) ==> !EntryLive(gc.h0, gc.collectGen, gc.Now(), p, i)
    ensures multiset(Flat(live)) + multiset(Flat(dead)) == multiset(Flat(live0)) + multiset(Flat(dead0)) + multiset(page)
    ensures live != [] ==> Flat(live) != []
    ensures forall p {:trigger p in Flat(live)} :: p in Flat(live) ==> EntryLive(gc.h0, gc.collectGen, gc.Now(), p, i)
    ensures forall p {:trigger p in Flat(dead)} :: p in Flat(dead) ==> !EntryLive(gc.h0, gc.collectGen, gc.Now(), p, i)
  {
    hide Inv, Closed, KeptOk, EntryLive, IsLive, Flat, MoveTconc;
    live, dead := live0, dead0;
    var n := 0;
    assert page[..0] == [] && page[..|page|] == page;
    while n < |page|
      invariant n <= |page|
      invariant multiset(Flat(live)) + multiset(Flat(dead)) == multiset(Flat(live0)) + multiset(Flat(dead0)) + multiset(page[..n])
      invariant live != [] ==> Flat(live) != []
      invariant forall p {:trigger p in Flat(live)} :: p in Flat(live) ==> EntryLive(gc.h0, gc.collectGen, gc.Now(), p, i)
      invariant forall p {:trigger p in Flat(dead)} :: p in Flat(dead) ==> !EntryLive(gc.h0, gc.collectGen, gc.Now(), p, i)
    {
      var p := page[n];
      assert p in page;
      assert page[..n + 1] == page[..n] + [p];
      ghost var m0 := multiset(Flat(live0)) + multiset(Flat(dead0));
      AddOne(multiset(Flat(live)), multiset(Flat(dead)), m0, multiset(page[..n]), p);
      assert multiset(page[..n + 1]) == multiset(page[..n]) + multiset{p};
      EntryTest(gc.h0, gc.collectGen, gc.Now(), p, i);
      if IsLive(gc.collectGen, gc.segs, gc.mem, EntryField(gc.mem, p, i)) {
        FlatMove(p, live);
        live := MoveTconc(p, live);
      } else {
        FlatMove(p, dead);
        dead := MoveTconc(p, dead);
      }
      n := n + 1;
    }
  }

  // ---------- Keeping entries alive ----------

  /** An entry is kept only if its tconc is: what has to be in any closed set that contains the roots. */
  ghost predicate EntriesWanted(h0: Heap, cg: nat, keep: set<nat>, es: seq<Word>) {
    forall p {:trigger p in es} :: p in es ==>
      EntryOk(h0, p) && (p.addr < |h0.mem| && TargetKept(h0, cg, keep, h0.mem[p.addr]) ==> Wanted(h0, cg, keep, p))
  }

  predicate TargetKept(h0: Heap, cg: nat, keep: set<nat>, v: Word) {
    v.Ptr? ==> v.addr in keep || Older(cg, h0.segs, v.addr)
  }

  lemma LiveWanted(h0: Heap, cg: nat, keep: set<nat>, s: St, es: seq<Word>, p: Word)
    requires Inv(h0, cg, s) && KeptOk(h0, cg, s.segs, s.fwd, s.src, keep) && EntriesWanted(h0, cg, keep, es) && p in es
    requires EntryLive(h0, cg, s, p, 0)
    ensures Known(h0, s.fwd, p) && Wanted(h0, cg, keep, p)
  {
    var v := h0.mem[p.addr];
    PairGood(h0, p.addr, 0);
    assert v.Ptr? && v.addr in s.fwd ==> v.addr in keep;
    assert v.Ptr? ==> v.addr in h0.objs;
  }

  function Images(fwd: map<nat, nat>, es: seq<Word>): (r: seq<Word>)
    ensures |r| == |es| && forall k {:trigger r[k]} :: 0 <= k < |es| ==> r[k] == ImageOf(fwd, es[k])
  {
    seq(|es|, k requires 0 <= k < |es| => ImageOf(fwd, es[k]))
  }

  lemma ImagesAppend(fwd: map<nat, nat>, a: seq<Word>, b: seq<Word>)
    ensures Images(fwd, a + b) == Images(fwd, a) + Images(fwd, b)
  {
  }

  /** The list holds the images of the entries. */
  ghost predicate ForwardOk(cg: nat, s: St, forward: seq<seq<Word>>, sources: seq<Word>) {
    && multiset(Flat(forward)) == multiset(Images(s.fwd, sources))
    && (forall k {:trigger sources[k]} :: 0 <= k < |sources| ==> IsImage(cg, s.segs, s.fwd, sources[k], ImageOf(s.fwd, sources[k])))
  }

  lemma ForwardKept(h0: Heap, cg: nat, s: St, t: St, forward: seq<seq<Word>>, sources: seq<Word>)
    requires Inv(h0, cg, t) && Onward(cg, s, t) && ForwardOk(cg, s, forward, sources)
    ensures ForwardOk(cg, t, forward, sources)
  {
    hide WellFormed, SegsStep, PlacesOk, CopiesTraced, PromotedTraced, OldIntact, ColoursOk, WhiteIntact, MarksOk, RangesOk, FreeOk, MetasOk, NewPagesOk, CopiesApart, ObjectsWhole,
      SourcesOk, SrcInCopies, Onward, IsImage, Flat, ImageOf, Agenda.Once;
    forall k | 0 <= k < |sources|
      ensures ImageOf(t.fwd, sources[k]) == ImageOf(s.fwd, sources[k])
      ensures IsImage(cg, t.segs, t.fwd, sources[k], ImageOf(t.fwd, sources[k]))
    {
      ImageKept(h0, cg, s, t, sources[k], ImageOf(s.fwd, sources[k]));
      ImageIsImageOf(cg, t.segs, t.fwd, sources[k], ImageOf(s.fwd, sources[k]));
    }
    assert Images(t.fwd, sources) == Images(s.fwd, sources);
  }

  lemma ForwardAdds(cg: nat, s: St, forward: seq<seq<Word>>, sources: seq<Word>, p: Word, y: Word)
    requires ForwardOk(cg, s, forward, sources) && IsImage(cg, s.segs, s.fwd, p, y)
    ensures ForwardOk(cg, s, MoveTconc(y, forward), sources + [p])
  {
    hide Flat, MoveTconc, IsImage;
    ImageIsImageOf(cg, s.segs, s.fwd, p, y);
    FlatMove(y, forward);
    assert Images(s.fwd, sources + [p]) == Images(s.fwd, sources) + [y];
  }

  /** One entry is gathered and put into the list. */
  method ForwardEntry(gc: Gc, p: Word, forward0: seq<seq<Word>>, ghost sources0: seq<Word>) returns (forward: seq<seq<Word>>)
    requires gc.Good() && Known(gc.h0, gc.fwd, p) && Wanted(gc.h0, gc.collectGen, gc.keep, p) && ForwardOk(gc.collectGen, gc.Now(), forward0, sources0)
    modifies gc`mem, gc`segs, gc`dirty, gc`meta, gc`queues, gc`fwd, gc`src, gc`raw
    ensures gc.Good() && gc.raw == old(gc.raw) && gc.work == old(gc.work) && Grown(old(gc.dirty), gc.dirty)
    ensures Onward(gc.collectGen, old(gc.Now()), gc.Now()) && ForwardOk(gc.collectGen, gc.Now(), forward, sources0 + [p])
  {
    hide Inv, Closed, KeptOk, Flat, MoveTconc, Grown, Onward, ForwardOk, IsImage, Later, Known, Wanted;
    ghost var s := gc.Now();
    var y := gc.Gather(p);
    LaterOnward(gc.collectGen, s, gc.Now());
    ForwardKept(gc.h0, gc.collectGen, s, gc.Now(), forward0, sources0);
    ForwardAdds(gc.collectGen, gc.Now(), forward0, sources0, p, y);
    forward := MoveTconc(y, forward0);
  }

  /** The first n entries of the page have gone to a or to b. */
  ghost predicate Parted(page: seq<Word>, n: nat, a: seq<Word>, b: seq<Word>)
    requires n <= |page|
  {
    multiset(a) + multiset(b) == multiset(page[..n])
  }

  lemma PartedStart(page: seq<Word>)
    ensures Parted(page, 0, [], [])
  {
    assert page[..0] == [];
  }

  lemma PartedStep(page: seq<Word>, n: nat, a: seq<Word>, b: seq<Word>)
    requires n < |page| && Parted(page, n, a, b)
    ensures Parted(page, n + 1, a + [page[n]], b) && Parted(page, n + 1, a, b + [page[n]])
  {
    assert page[..n + 1] == page[..n] + [page[n]];
    AddOne(multiset(a), multiset(b), multiset{}, multiset(page[..n]), page[n]);
  }

  lemma PartedEnd(page: seq<Word>, a: seq<Word>, b: seq<Word>)
    requires Parted(page, |page|, a, b)
    ensures multiset(a) + multiset(b) == multiset(page)
  {
    assert page[..|page|] == page;
  }

  /** The entries of a page are gathered, those whose tconc is not live only if all is set. */
  method GatherPage(gc: Gc, page: seq<Word>, forward0: seq<seq<Word>>, ghost sources0: seq<Word>, test: bool)
    returns (forward: seq<seq<Word>>, ghost added: seq<Word>, ghost dropped: seq<Word>)
    requires gc.Good() && gc.raw == {} && EntriesWanted(gc.h0, gc.collectGen, gc.keep, page)
    requires !test ==> forall p {:trigger p in page} :: p in page ==> EntryLive(gc.h0, gc.collectGen, gc.Now(), p, 0)
    requires ForwardOk(gc.collectGen, gc.Now(), forward0, sources0)
    modifies gc`mem, gc`segs, gc`dirty, gc`meta, gc`queues, gc`fwd, gc`src, gc`raw
    ensures gc.Good() && gc.raw == {} && gc.work == old(gc.work) && Grown(old(gc.dirty), gc.dirty)
    ensures Onward(gc.collectGen, old(gc.Now()), gc.Now())
    ensures ForwardOk(gc.collectGen, gc.Now(), forward, sources0 + added)
    ensures multiset(added) + multiset(dropped) == multiset(page)
    ensures !test ==> dropped == []
    ensures forall p {:trigger p in added} :: p in added ==> p in page && EntryLive(gc.h0, gc.collectGen, gc.Now(), p, 0)
    ensures forall p {:trigger p in dropped} :: p in dropped ==> p in page && !EntryLive(gc.h0, gc.collectGen, old(gc.Now()), p, 0)
  {
    hide Inv, Closed, KeptOk, EntryLive, IsLive, Flat, MoveTconc, Grown, Onward, ForwardOk, EntriesWanted, IsImage, Later, Known, Wanted, Parted, EntryField;
    ghost var s0 := gc.Now();
    forward, added, dropped := forward0, [], [];
    assert sources0 + [] == sources0;
    GrownRefl(gc.dirty);
    OnwardRefl(gc.collectGen, s0);
    PartedStart(page);
    var n := 0;
    while n < |page|
      invariant n <= |page| && gc.Good() && gc.raw == {} && gc.work == old(gc.work) && Grown(old(gc.dirty), gc.dirty)
      invariant Onward(gc.collectGen, s0, gc.Now())
      invariant ForwardOk(gc.collectGen, gc.Now(), forward, sources0 + added)
      invariant Parted(page, n, added, dropped)
      invariant !test ==> dropped == []
      invariant forall p {:trigger p in added} :: p in added ==> p in page && EntryLive(gc.h0, gc.collectGen, gc.Now(), p, 0)
      invariant forall p {:trigger p in dropped} :: p in dropped ==> p in page && !EntryLive(gc.h0, gc.collectGen, s0, p, 0)
    {
      ghost var s, d := gc.Now(), gc.dirty;
      var p := page[n];
      assert p in page;
      PartedStep(page, n, added, dropped);
      PageEntry(gc.h0, gc.collectGen, gc.keep, page, p);
      EntryTest(gc.h0, gc.collectGen, s, p, 0);
      if !test || IsLive(gc.collectGen, gc.segs, gc.mem, EntryField(gc.mem, p, 0)) {
        if !test { LiveKept(gc.h0, gc.collectGen, s0, s, p, 0); }
        LiveWanted(gc.h0, gc.collectGen, gc.keep, s, page, p);
        forward := ForwardEntry(gc, p, forward, sources0 + added);
        ghost var t := gc.Now();
        GrownTrans(old(gc.dirty), d, gc.dirty);
        OnwardTrans(gc.collectGen, s0, s, t);
        assert sources0 + added + [p] == sources0 + (added + [p]);
        added := added + [p];
        forall q {:trigger q in added} | q in added ensures q in page && EntryLive(gc.h0, gc.collectGen, t, q, 0) {
          LiveKept(gc.h0, gc.collectGen, s, t, q, 0);
        }
      } else {
        NotLiveBefore(gc.h0, gc.collectGen, s0, s, p);
        dropped := dropped + [p];
      }
      n := n + 1;
    }
    PartedEnd(page, added, dropped);
  }

  lemma PageEntry(h0: Heap, cg: nat, keep: set<nat>, es: seq<Word>, p: Word)
    requires EntriesWanted(h0, cg, keep, es) && p in es
    ensures EntryOk(h0, p)
  {
  }

  lemma NotLiveBefore(h0: Heap, cg: nat, s: St, t: St, p: Word)
    requires Onward(cg, s, t) && !EntryLive(h0, cg, t, p, 0)
    ensures !EntryLive(h0, cg, s, p, 0)
  {
    if EntryLive(h0, cg, s, p, 0) { LiveKept(h0, cg, s, t, p, 0); }
  }

  /** All the pages of a list. */
  method GatherAll(gc: Gc, list: seq<seq<Word>>, forward0: seq<seq<Word>>, ghost sources0: seq<Word>, test: bool)
    returns (forward: seq<seq<Word>>, ghost added: seq<Word>, ghost dropped: seq<Word>)
    requires gc.Good() && gc.raw == {} && EntriesWanted(gc.h0, gc.collectGen, gc.keep, Flat(list))
    requires !test ==> forall p {:trigger p in Flat(list)} :: p in Flat(list) ==> EntryLive(gc.h0, gc.collectGen, gc.Now(), p, 0)
    requires ForwardOk(gc.collectGen, gc.Now(), forward0, sources0)
    modifies gc`mem, gc`segs, gc`dirty, gc`meta, gc`queues, gc`fwd, gc`src, gc`raw
    ensures gc.Good() && gc.raw == {} && gc.work == old(gc.work) && Grown(old(gc.dirty), gc.dirty)
    ensures Onward(gc.collectGen, old(gc.Now()), gc.Now())
    ensures ForwardOk(gc.collectGen, gc.Now(), forward, sources0 + added)
    ensures multiset(added) + multiset(dropped) == multiset(Flat(list))
    ensures !test ==> dropped == []
    ensures forall p {:trigger p in added} :: p in added ==> p in Flat(list) && EntryLive(gc.h0, gc.collectGen, gc.Now(), p, 0)
    ensures forall p {:trigger p in dropped} :: p in dropped ==> p in Flat(list) && !EntryLive(gc.h0, gc.collectGen, old(gc.Now()), p, 0)
    decreases |list|
  {
    hide Inv, Closed, KeptOk, EntryLive, MoveTconc, Grown, Onward, ForwardOk, EntriesWanted;
    if list == [] {
      GrownRefl(gc.dirty);
      OnwardRefl(gc.collectGen, gc.Now());
      assert sources0 + [] == sources0;
      return forward0, [], [];
    }
    ghost var s0 := gc.Now();
    WantedSplit(gc.h0, gc.collectGen, gc.keep, list);
    ghost var drop1, drop2, add1, add2;
    forward, add1, drop1 := GatherPage(gc, list[0], forward0, sources0, test);
    ghost var s, d := gc.Now(), gc.dirty;
    forall p {:trigger p in Flat(list[1..])} | p in Flat(list[1..]) && !test ensures EntryLive(gc.h0, gc.collectGen, s, p, 0) {
      LiveKept(gc.h0, gc.collectGen, s0, s, p, 0);
    }
    forward, add2, drop2 := GatherAll(gc, list[1..], forward, sources0 + add1, test);
    GrownTrans(old(gc.dirty), d, gc.dirty);
    OnwardTrans(gc.collectGen, s0, s, gc.Now());
    added, dropped := add1 + add2, drop1 + drop2;
    assert sources0 + add1 + add2 == sources0 + added;
    TwoParts(multiset(add1), multiset(drop1), multiset(add2), multiset(drop2));
    forall p {:trigger p in added} | p in added ensures p in Flat(list) && EntryLive(gc.h0, gc.collectGen, gc.Now(), p, 0) {
      if p in add1 { LiveKept(gc.h0, gc.collectGen, s, gc.Now(), p, 0); }
    }
    forall p {:trigger p in dropped} | p in dropped ensures p in Flat(list) && !EntryLive(gc.h0, gc.collectGen, s0, p, 0) {
      if p !in drop1 { NotLiveBefore(gc.h0, gc.collectGen, s0, s, p); }
    }
  }

  lemma WantedSplit(h0: Heap, cg: nat, keep: set<nat>, ls: seq<seq<Word>>)
    requires ls != [] && EntriesWanted(h0, cg, keep, Flat(ls))
    ensures multiset(Flat(ls)) == multiset(ls[0]) + multiset(Flat(ls[1..]))
    ensures EntriesWanted(h0, cg, keep, ls[0]) && EntriesWanted(h0, cg, keep, Flat(ls[1..]))
    ensures forall p {:trigger p in Flat(ls)} {:trigger p in ls[0]} {:trigger p in Flat(ls[1..])} :: p in Flat(ls) <==> p in ls[0] || p in Flat(ls[1..])
  {
    assert Flat(ls) == ls[0] + Flat(ls[1..]);
    forall p | p in ls[0] ensures p in Flat(ls) {}
    forall p | p in Flat(ls[1..]) ensures p in Flat(ls) {}
  }

  lemma TwoParts(a: multiset<Word>, b: multiset<Word>, c: multiset<Word>, d: multiset<Word>)
    ensures (a + c) + (b + d) == (a + b) + (c + d)
  {
  }

  lemma Halves(a: seq<Word>, b: seq<Word>, c: seq<Word>)
    requires multiset(a) + multiset(b) == multiset(Flat([])) + multiset(Flat([])) + multiset(c)
    ensures multiset(a) + multiset(b) == multiset(c) && |a| + |b| == |c|
    ensures forall p {:trigger p in a} :: p in a ==> p in c
    ensures forall p {:trigger p in b} :: p in b ==> p in c
  {
    assert multiset(Flat([])) + multiset(Flat([])) + multiset(c) == multiset(c);
    assert |multiset(a)| + |multiset(b)| == |multiset(a) + multiset(b)|;
    PartOf(a, b, c);
  }

  lemma Regroup(s1: multiset<Word>, s0: multiset<Word>, f: multiset<Word>, r: multiset<Word>, b: multiset<Word>)
    requires s1 == s0 + f && f + r == b
    ensures s1 + r == s0 + b
  {
    assert (s0 + f) + r == s0 + (f + r);
  }

  lemma AddedAll(added: seq<Word>, dropped: seq<Word>, all: seq<Word>)
    requires multiset(added) + multiset(dropped) == multiset(all) && dropped == []
    ensures multiset(added) == multiset(all)
  {
  }

  lemma NothingForwarded(cg: nat, s: St)
    ensures ForwardOk(cg, s, [], []) && Flat([]) == []
  {
    assert Images(s.fwd, []) == [];
  }

  lemma TurnOnward(h0: Heap, cg: nat, s: St, t: St)
    requires Turn(h0, cg, s, t)
    ensures Onward(cg, s, t)
  {
  }

  // ---------- The fixpoint ----------

  ghost predicate AllLive(h0: Heap, cg: nat, s: St, es: seq<Word>, i: nat) {
    forall p {:trigger p in es} :: p in es ==> EntryLive(h0, cg, s, p, i)
  }

  ghost predicate AllDead(h0: Heap, cg: nat, s: St, es: seq<Word>, i: nat) {
    forall p {:trigger p in es} :: p in es ==> !EntryLive(h0, cg, s, p, i)
  }

  lemma AllLiveKept(h0: Heap, cg: nat, s: St, t: St, es: seq<Word>, i: nat)
    requires Onward(cg, s, t) && AllLive(h0, cg, s, es, i)
    ensures AllLive(h0, cg, t, es, i)
  {
    hide Onward, EntryLive;
    forall p {:trigger p in es} | p in es ensures EntryLive(h0, cg, t, p, i) { LiveKept(h0, cg, s, t, p, i); }
  }

  lemma SomeWanted(h0: Heap, cg: nat, keep: set<nat>, all: seq<Word>, es: seq<Word>)
    requires EntriesWanted(h0, cg, keep, all) && forall p {:trigger p in es} :: p in es ==> p in all
    ensures EntriesWanted(h0, cg, keep, es) && EntriesOk(h0, es)
  {
  }

  lemma PartOf(a: seq<Word>, b: seq<Word>, c: seq<Word>)
    requires multiset(a) + multiset(b) == multiset(c)
    ensures forall p {:trigger p in a} :: p in a ==> p in c
    ensures forall p {:trigger p in b} :: p in b ==> p in c
  {
    forall p | p in a ensures p in c { assert p in multiset(a); assert p in multiset(c); }
    forall p | p in b ensures p in c { assert p in multiset(b); assert p in multiset(c); }
  }

  /** Dead objects whose tconcs are live are made live, again and again until no more tconcs become live. */
  method Resurrect(gc: Gc, pendFinal: seq<seq<Word>>) returns (pend: seq<seq<Word>>, forward: seq<seq<Word>>, ghost sources: seq<Word>)
    requires gc.Good() && gc.raw == {} && gc.work == [] && EntriesWanted(gc.h0, gc.collectGen, gc.keep, Flat(pendFinal))
    modifies gc`mem, gc`segs, gc`dirty, gc`meta, gc`queues, gc`fwd, gc`src, gc`raw, gc`work, gc`workId
    ensures gc.Good() && gc.raw == {} && gc.work == [] && Grown(old(gc.dirty), gc.dirty)
    ensures Onward(gc.collectGen, old(gc.Now()), gc.Now())
    ensures ForwardOk(gc.collectGen, gc.Now(), forward, sources)
    ensures multiset(sources) + multiset(Flat(pend)) == multiset(Flat(pendFinal))
    ensures AllLive(gc.h0, gc.collectGen, gc.Now(), sources, 0) && AllDead(gc.h0, gc.collectGen, gc.Now(), Flat(pend), 0)
    ensures old(gc.Rested()) ==> gc.Rested()
  {
    hide Inv, Closed, KeptOk, EntryLive, MoveTconc, Grown, Onward, ForwardOk, EntriesWanted, Turn, Flat;
    ghost var s0 := gc.Now();
    forward, sources, pend := [], [], pendFinal;
    GrownRefl(gc.dirty);
    OnwardRefl(gc.collectGen, s0);
    NothingForwarded(gc.collectGen, s0);
    assert multiset([]) + multiset(Flat(pend)) == multiset(Flat(pendFinal));
    var done := false;
    while !done
      invariant gc.Good() && gc.raw == {} && gc.work == [] && Grown(old(gc.dirty), gc.dirty) && Onward(gc.collectGen, s0, gc.Now())
      invariant ForwardOk(gc.collectGen, gc.Now(), forward, sources)
      invariant multiset(sources) + multiset(Flat(pend)) == multiset(Flat(pendFinal))
      invariant AllLive(gc.h0, gc.collectGen, gc.Now(), sources, 0)
      invariant done ==> AllDead(gc.h0, gc.collectGen, gc.Now(), Flat(pend), 0)
      invariant old(gc.Rested()) ==> gc.Rested()
      decreases |Flat(pend)|, if done then 0 else 1
    {
      ghost var s, d := gc.Now(), gc.dirty;
      PartOf(sources, Flat(pend), Flat(pendFinal));
      SomeWanted(gc.h0, gc.collectGen, gc.keep, Flat(pendFinal), Flat(pend));
      var final, rest := Sort(gc, pend, 0, [], []);
      ghost var before := Flat(pend);
      Halves(Flat(final), Flat(rest), before);
      pend := rest;
      if final == [] {
        done := true;
      } else {
        SomeWanted(gc.h0, gc.collectGen, gc.keep, Flat(pendFinal), Flat(final));
        ghost var dropped, added;
        forward, added, dropped := GatherAll(gc, final, forward, sources, false);
        ghost var t, e := gc.Now(), gc.dirty;
        gc.CollectLoop();
        TurnOnward(gc.h0, gc.collectGen, t, gc.Now());
        OnwardTrans(gc.collectGen, s, t, gc.Now());
        OnwardTrans(gc.collectGen, s0, s, gc.Now());
        GrownTrans(d, e, gc.dirty);
        GrownTrans(old(gc.dirty), d, gc.dirty);
        ForwardKept(gc.h0, gc.collectGen, t, gc.Now(), forward, sources + added);
        AddedAll(added, dropped, Flat(final));
        AllLiveKept(gc.h0, gc.collectGen, s, t, sources, 0);
        AllLiveKept(gc.h0, gc.collectGen, t, gc.Now(), sources, 0);
        AllLiveKept(gc.h0, gc.collectGen, t, gc.Now(), added, 0);
        sources := sources + added;
        Regroup(multiset(sources), multiset(sources) - multiset(added), multiset(added), multiset(Flat(rest)), multiset(before));
      }
    }
  }

  // ---------- Nothing but the entries is kept for the sake of entries whose objects are live ----------

  /** The objects of the collected generations that have been kept. */
  ghost function Survived(h0: Heap, cg: nat, s: St): (r: set<nat>)
    ensures forall a {:trigger a in r} :: a in r <==> a in h0.objs && !Older(cg, h0.segs, a) && (a in s.fwd || Older(cg, s.segs, a))
  {
    set a | a in h0.objs && !Older(cg, h0.segs, a) && (a in s.fwd || Older(cg, s.segs, a))
  }

  ghost predicate CellsLive(h0: Heap, cg: nat, s: St, cells: set<nat>) {
    forall c {:trigger c in cells} :: c in cells ==>
      EntryOk(h0, Ptr(PairKind, c)) && EntryLive(h0, cg, s, Ptr(PairKind, c), 0) && EntryLive(h0, cg, s, Ptr(PairKind, c), 1)
  }

  /** Tracing has come to an end. */
  ghost predicate AtRest(h0: Heap, cg: nat, s: St) {
    Inv(h0, cg, s) && s.raw == {} && s.todo.work == [] && Idle(s.todo.meta, s.todo.queues)
  }

  lemma LiveIsWanted(h0: Heap, cg: nat, s: St, keep: set<nat>, v: Word)
    requires Survived(h0, cg, s) <= keep && Live(cg, s.segs, s.fwd, v)
    ensures Wanted(h0, cg, keep, v)
  {
    assert v.Ptr? && v.addr in Survived(h0, cg, s) ==> v.addr in keep;
  }

  /** At rest, the words of a survivor are live. */
  lemma RestWord(h0: Heap, cg: nat, s: St, x: nat)
    requires AtRest(h0, cg, s) && x in s.src && !WeakCar(|h0.mem|, s.segs, x)
    ensures s.src[x] < |h0.mem| && Live(cg, s.segs, s.fwd, h0.mem[s.src[x]])
  {
    hide Inv;
    SurvivorRests(h0, cg, s, x);
  }

  lemma SurvivorRests(h0: Heap, cg: nat, s: St, x: nat)
    requires AtRest(h0, cg, s) && x in s.src && !WeakCar(|h0.mem|, s.segs, x)
    ensures x < |s.mem| && s.src[x] < |h0.mem| && IsImage(cg, s.segs, s.fwd, h0.mem[s.src[x]], s.mem[x])
  {
    hide ColoursOk, WeakCar;
    RestColour(h0, cg, s, x);
  }

  lemma RestColour(h0: Heap, cg: nat, s: St, x: nat)
    requires s.todo.Ok() && ColoursOk(h0, cg, s.mem, s.segs, s.fwd, s.src, s.todo)
    requires s.todo.work == [] && Idle(s.todo.meta, s.todo.queues) && x in s.src && !WeakCar(|h0.mem|, s.segs, x)
    ensures x < |s.mem| && s.src[x] < |h0.mem| && IsImage(cg, s.segs, s.fwd, h0.mem[s.src[x]], s.mem[x])
  {
    assert !s.todo.Waiting(x);
  }

  lemma MovedWordLive(h0: Heap, cg: nat, s: St, a: nat, w: nat)
    requires AtRest(h0, cg, s) && a in s.fwd && a in h0.objs && a <= w < a + UsedOf(h0, a) && !WeakSlot(h0, a, w)
    ensures w < |h0.mem| && Live(cg, s.segs, s.fwd, h0.mem[w])
  {
    hide Inv;
    var x := s.fwd[a] + (w - a);
    MovedWordTrace(h0, cg, s, a, w);
    RestWord(h0, cg, s, x);
  }

  lemma MovedWordTrace(h0: Heap, cg: nat, s: St, a: nat, w: nat)
    requires AtRest(h0, cg, s) && a in s.fwd && a in h0.objs && a <= w < a + UsedOf(h0, a) && !WeakSlot(h0, a, w)
    ensures s.fwd[a] + (w - a) in s.src && s.src[s.fwd[a] + (w - a)] == w && !WeakCar(|h0.mem|, s.segs, s.fwd[a] + (w - a))
  {
    hide WellFormed, SegsStep, PlacesOk, CopiesTraced, PromotedTraced, OldIntact, ColoursOk, WhiteIntact, MarksOk, RangesOk, FreeOk, MetasOk, NewPagesOk, CopiesApart, ObjectsWhole,
      SourcesOk, SrcInCopies, WeakCar, Idle, Agenda.Once;
    TracedAt(h0, s.fwd, s.src, s.raw, a, w - a);
    WeakPlace(h0, cg, s.segs, s.fwd, a, w);
  }

  lemma WeakPlace(h0: Heap, cg: nat, segs: seq<Seg>, fwd: map<nat, nat>, a: nat, w: nat)
    requires WellFormed(h0) && PlacesOk(h0, cg, segs, fwd) && a in fwd && a in h0.objs && a <= w < a + UsedOf(h0, a) && !WeakSlot(h0, a, w)
    ensures !WeakCar(|h0.mem|, segs, fwd[a] + (w - a))
  {
    hide WellFormed;
    assert PlaceOk(h0, cg, segs, a, fwd[a]);
    ObjectWords(h0, a);
    if h0.objs[a] == PairKind && w != a {
      OddWord(fwd[a], w - a);
    } else {
      StrongPlace(h0, cg, segs, a, fwd[a], fwd[a] + (w - a));
    }
  }

  lemma OddWord(b: nat, i: nat)
    requires b % 2 == 0 && i == 1
    ensures (b + i) % 2 != 0
  {
  }

  lemma StrongPlace(h0: Heap, cg: nat, segs: seq<Seg>, a: nat, b: nat, x: nat)
    requires PlaceOk(h0, cg, segs, a, b) && b <= x < b + SizeOf(h0, a)
    requires h0.objs[a] == PairKind ==> SegOf(h0.segs, a).typ != WeakPairs
    ensures !WeakCar(|h0.mem|, segs, x)
  {
    assert SegOf(segs, x) == SegOf(segs, b);
  }

  lemma PromotedWordLive(h0: Heap, cg: nat, s: St, a: nat, w: nat)
    requires AtRest(h0, cg, s) && a in h0.objs && Older(cg, s.segs, a) && !Older(cg, h0.segs, a) && a <= w < a + UsedOf(h0, a)
    ensures w < |h0.mem| && Live(cg, s.segs, s.fwd, h0.mem[w])
  {
    hide Inv;
    InvObject(h0, cg, s, a);
    PromotedWordTrace(h0, cg, s, a, w);
    RestWord(h0, cg, s, w);
  }

  lemma PromotedWordTrace(h0: Heap, cg: nat, s: St, a: nat, w: nat)
    requires Inv(h0, cg, s) && a in h0.objs && Older(cg, s.segs, a) && !Older(cg, h0.segs, a) && a <= w < a + UsedOf(h0, a) && w < |h0.mem|
    ensures w in s.src && s.src[w] == w
  {
    hide WellFormed, PlacesOk, CopiesTraced, OldIntact, ColoursOk, WhiteIntact, MarksOk, RangesOk, FreeOk, MetasOk, NewPagesOk, CopiesApart;
  }

  lemma SurvivedClosed(h0: Heap, cg: nat, s: St, cells: set<nat>)
    requires AtRest(h0, cg, s) && CellsLive(h0, cg, s, cells)
    ensures Closed(h0, cg, Survived(h0, cg, s) + cells)
  {
    hide Inv, AtRest, EntryLive;
    var keep := Survived(h0, cg, s) + cells;
    forall a, w {:trigger a in keep, h0.mem[w]} | 0 <= a <= w < |h0.mem| && a in keep && w < a + UsedOf(h0, a) && !WeakSlot(h0, a, w)
      ensures Wanted(h0, cg, keep, h0.mem[w])
    {
      if a in cells {
        CellWord(h0, cg, s, cells, a, w);
      } else if a in s.fwd {
        MovedWordLive(h0, cg, s, a, w);
      } else {
        PromotedWordLive(h0, cg, s, a, w);
      }
      LiveIsWanted(h0, cg, s, keep, h0.mem[w]);
    }
  }

  lemma CellWord(h0: Heap, cg: nat, s: St, cells: set<nat>, a: nat, w: nat)
    requires AtRest(h0, cg, s) && CellsLive(h0, cg, s, cells) && a in cells && a <= w < a + UsedOf(h0, a) && w < |h0.mem|
    ensures Live(cg, s.segs, s.fwd, h0.mem[w])
  {
    hide Inv;
    assert w == a || w == a + 1;
    assert EntryLive(h0, cg, s, Ptr(PairKind, a), w - a);
  }

  lemma SurvivedKept(h0: Heap, cg: nat, s: St, cells: set<nat>)
    requires AtRest(h0, cg, s)
    ensures KeptOk(h0, cg, s.segs, s.fwd, s.src, Survived(h0, cg, s) + cells)
  {
    hide Inv, AtRest;
    var keep := Survived(h0, cg, s) + cells;
    RestSizes(h0, cg, s);
    forall a {:trigger a in s.fwd} | a in s.fwd ensures a in keep { MovedYoung(h0, cg, s, a); }
    forall w | w in s.src && s.src[w] < |h0.mem| && !WeakCar(|h0.mem|, s.segs, w) ensures Wanted(h0, cg, keep, h0.mem[s.src[w]]) {
      RestWord(h0, cg, s, w);
      LiveIsWanted(h0, cg, s, keep, h0.mem[s.src[w]]);
    }
  }

  lemma MovedYoung(h0: Heap, cg: nat, s: St, a: nat)
    requires Inv(h0, cg, s) && a in s.fwd
    ensures a in h0.objs && !Older(cg, h0.segs, a)
  {
    assert PlaceOk(h0, cg, s.segs, a, s.fwd[a]);
  }

  // ---------- Entries whose objects are live ----------

  /** No entry has another entry for its tconc: entry cells are private to the collector. */
  ghost predicate Private(h0: Heap, es: seq<Word>) {
    forall p, q {:trigger p in es, q in es} :: p in es && q in es && EntryOk(h0, p) && p.addr < |h0.mem| ==> h0.mem[p.addr] != q
  }

  ghost function LiveCells(h0: Heap, cg: nat, s: St, es: seq<Word>): set<nat> {
    set p | p in es && p.Ptr? && EntryLive(h0, cg, s, p, 0) :: p.addr
  }

  lemma LiveCellsLive(h0: Heap, cg: nat, s: St, es: seq<Word>)
    requires EntriesOk(h0, es) && AllLive(h0, cg, s, es, 1)
    ensures CellsLive(h0, cg, s, LiveCells(h0, cg, s, es))
  {
    forall c | c in LiveCells(h0, cg, s, es)
      ensures EntryOk(h0, Ptr(PairKind, c)) && EntryLive(h0, cg, s, Ptr(PairKind, c), 0) && EntryLive(h0, cg, s, Ptr(PairKind, c), 1)
    {
      var p :| p in es && p.Ptr? && EntryLive(h0, cg, s, p, 0) && p.addr == c;
      assert p == Ptr(PairKind, c);
    }
  }

  /** Once tracing is at rest, it is enough to want the survivors and the cells of the entries with live tconcs. */
  lemma HoldWanted(h0: Heap, cg: nat, s: St, es: seq<Word>)
    requires AtRest(h0, cg, s) && EntriesOk(h0, es) && Private(h0, es)
    ensures EntriesWanted(h0, cg, Survived(h0, cg, s) + LiveCells(h0, cg, s, es), es)
  {
    hide Inv;
    var keep := Survived(h0, cg, s) + LiveCells(h0, cg, s, es);
    forall p {:trigger p in es} | p in es
      ensures EntryOk(h0, p) && (p.addr < |h0.mem| && TargetKept(h0, cg, keep, h0.mem[p.addr]) ==> Wanted(h0, cg, keep, p))
    {
      InvSizes(h0, cg, s);
      PairGood(h0, p.addr, 0);
      if EntryLive(h0, cg, s, p, 0) {
        assert p.addr in LiveCells(h0, cg, s, es);
      } else {
        DeadTarget(h0, cg, s, es, p);
      }
    }
  }

  lemma DeadTarget(h0: Heap, cg: nat, s: St, es: seq<Word>, p: Word)
    requires AtRest(h0, cg, s) && EntriesOk(h0, es) && Private(h0, es) && p in es && !EntryLive(h0, cg, s, p, 0)
    requires p.addr < |h0.mem| && GoodWord(h0.objs, h0.mem[p.addr])
    ensures !TargetKept(h0, cg, Survived(h0, cg, s) + LiveCells(h0, cg, s, es), h0.mem[p.addr])
  {
    hide Inv;
    var v := h0.mem[p.addr];
    assert v.Ptr?;
    if Older(cg, h0.segs, v.addr) { OlderStays(h0, cg, s, v.addr); }
    if v.addr in LiveCells(h0, cg, s, es) {
      var q :| q in es && q.Ptr? && EntryLive(h0, cg, s, q, 0) && q.addr == v.addr;
      CellKind(h0, v, q);
    }
  }

  lemma CellKind(h0: Heap, v: Word, q: Word)
    requires v.Ptr? && GoodWord(h0.objs, v) && EntryOk(h0, q) && q.addr == v.addr
    ensures v == q
  {
  }

  /** The wanted set of the hold stage is part of any closed set that the whole collection respects. */
  lemma HoldKeep(h0: Heap, cg: nat, s: St, keep: set<nat>, es: seq<Word>)
    requires AtRest(h0, cg, s) && KeptOk(h0, cg, s.segs, s.fwd, s.src, keep) && EntriesWanted(h0, cg, keep, es)
    ensures forall a {:trigger a in keep} :: a in Survived(h0, cg, s) + LiveCells(h0, cg, s, es) && a in h0.objs && !Older(cg, h0.segs, a) ==> a in keep
  {
    forall a | a in LiveCells(h0, cg, s, es) && a in h0.objs && !Older(cg, h0.segs, a) ensures a in keep {
      var p :| p in es && p.Ptr? && EntryLive(h0, cg, s, p, 0) && p.addr == a;
      LiveWanted(h0, cg, keep, s, es, p);
    }
  }

  lemma KeepBack(h0: Heap, cg: nat, t: St, keep: set<nat>, keep': set<nat>)
    requires Inv(h0, cg, t) && KeptOk(h0, cg, t.segs, t.fwd, t.src, keep')
    requires forall a {:trigger a in keep} :: a in keep' && a in h0.objs && !Older(cg, h0.segs, a) ==> a in keep
    ensures KeptOk(h0, cg, t.segs, t.fwd, t.src, keep)
  {
    hide Inv;
    forall a | a in t.fwd ensures a in h0.objs && !Older(cg, h0.segs, a) { MovedYoung(h0, cg, t, a); }
  }

  /** Nothing has been kept since s but the cells of entries with live tconcs. */
  ghost predicate OnlyCells(h0: Heap, cg: nat, s: St, t: St, es: seq<Word>) {
    Survived(h0, cg, t) <= Survived(h0, cg, s) + LiveCells(h0, cg, s, es)
  }

  lemma OnlyCellsFrom(h0: Heap, cg: nat, s: St, t: St, es: seq<Word>)
    requires Inv(h0, cg, t) && KeptOk(h0, cg, t.segs, t.fwd, t.src, Survived(h0, cg, s) + LiveCells(h0, cg, s, es))
    ensures OnlyCells(h0, cg, s, t, es)
  {
    forall a | a in Survived(h0, cg, t) ensures a in Survived(h0, cg, s) + LiveCells(h0, cg, s, es) {
      if a !in t.fwd { InvSizes(h0, cg, t); assert ObjectOk(h0, a); }
    }
  }

  /** A tconc that was not live stays so. */
  lemma StaysDead(h0: Heap, cg: nat, s: St, t: St, es: seq<Word>, p: Word)
    requires Inv(h0, cg, s) && Inv(h0, cg, t) && OnlyCells(h0, cg, s, t, es) && EntriesOk(h0, es)
    requires EntryOk(h0, p) && !EntryLive(h0, cg, s, p, 0)
    requires p.addr < |h0.mem| ==> forall q {:trigger q in es} :: q in es ==> h0.mem[p.addr] != q
    ensures !EntryLive(h0, cg, t, p, 0)
  {
    hide Inv;
    InvSizes(h0, cg, s);
    PairGood(h0, p.addr, 0);
    var v := h0.mem[p.addr];
    assert v.Ptr? && v.addr !in s.fwd && !Older(cg, s.segs, v.addr);
    TargetSurvives(h0, cg, s, t, v);
    NotACell(h0, cg, s, es, v);
    assert v.addr !in Survived(h0, cg, s);
    assert v.addr !in Survived(h0, cg, t);
  }

  lemma NotACell(h0: Heap, cg: nat, s: St, es: seq<Word>, v: Word)
    requires v.Ptr? && GoodWord(h0.objs, v) && EntriesOk(h0, es) && forall q {:trigger q in es} :: q in es ==> v != q
    ensures v.addr !in LiveCells(h0, cg, s, es)
  {
    forall q | q in es && q.Ptr? ensures q.addr != v.addr { assert q.addr == v.addr ==> v == q; }
  }

  lemma TargetSurvives(h0: Heap, cg: nat, s: St, t: St, v: Word)
    requires Inv(h0, cg, s) && Inv(h0, cg, t) && GoodWord(h0.objs, v)
    requires v.Ptr? ==> v.addr !in s.fwd && !Older(cg, s.segs, v.addr)
    ensures v.Ptr? ==> v.addr in h0.objs && !Older(cg, h0.segs, v.addr)
  {
    if v.Ptr? && Older(cg, h0.segs, v.addr) { OlderStays(h0, cg, s, v.addr); }
  }

  /** Entries with live objects: those with live tconcs are kept for the next generation, the others are dropped. */
  method Hold(gc: Gc, hold: seq<seq<Word>>, target0: seq<seq<Word>>, ghost sources0: seq<Word>)
    returns (target: seq<seq<Word>>, ghost kept: seq<Word>, ghost dropped: seq<Word>)
    requires gc.Good() && AtRest(gc.h0, gc.collectGen, gc.Now()) && gc.Rested()
    requires EntriesWanted(gc.h0, gc.collectGen, gc.keep, Flat(hold)) && Private(gc.h0, Flat(hold))
    requires AllLive(gc.h0, gc.collectGen, gc.Now(), Flat(hold), 1)
    requires ForwardOk(gc.collectGen, gc.Now(), target0, sources0)
    modifies gc`mem, gc`segs, gc`dirty, gc`meta, gc`queues, gc`fwd, gc`src, gc`raw, gc`work, gc`workId, gc`keep
    ensures gc.Good() && AtRest(gc.h0, gc.collectGen, gc.Now()) && gc.Rested() && Grown(old(gc.dirty), gc.dirty) && gc.keep == old(gc.keep)
    ensures Onward(gc.collectGen, old(gc.Now()), gc.Now())
    ensures OnlyCells(gc.h0, gc.collectGen, old(gc.Now()), gc.Now(), Flat(hold))
    ensures ForwardOk(gc.collectGen, gc.Now(), target, sources0 + kept)
    ensures multiset(kept) + multiset(dropped) == multiset(Flat(hold))
    ensures forall p {:trigger p in kept} :: p in kept ==> p in Flat(hold) && EntryLive(gc.h0, gc.collectGen, gc.Now(), p, 0)
    ensures forall p {:trigger p in dropped} :: p in dropped ==> p in Flat(hold) && !EntryLive(gc.h0, gc.collectGen, gc.Now(), p, 0)
  {
    hide Inv, Closed, KeptOk, EntryLive, Flat, MoveTconc, Grown, Onward, ForwardOk, EntriesWanted, Turn, AllLive, Private, OnlyCells, Survived, LiveCells;
    ghost var s, keep0 := gc.Now(), gc.keep;
    ghost var cells := LiveCells(gc.h0, gc.collectGen, s, Flat(hold));
    ghost var keep1 := Survived(gc.h0, gc.collectGen, s) + cells;
    SomeWanted(gc.h0, gc.collectGen, gc.keep, Flat(hold), Flat(hold));
    LiveCellsLive(gc.h0, gc.collectGen, s, Flat(hold));
    SurvivedClosed(gc.h0, gc.collectGen, s, cells);
    SurvivedKept(gc.h0, gc.collectGen, s, cells);
    HoldWanted(gc.h0, gc.collectGen, s, Flat(hold));
    HoldKeep(gc.h0, gc.collectGen, s, keep0, Flat(hold));
    gc.keep := keep1;
    target, kept, dropped := GatherAll(gc, hold, target0, sources0, true);
    ghost var t, d := gc.Now(), gc.dirty;
    gc.CollectLoop();
    ghost var u := gc.Now();
    TurnOnward(gc.h0, gc.collectGen, t, u);
    OnwardTrans(gc.collectGen, s, t, u);
    GrownTrans(old(gc.dirty), d, gc.dirty);
    ForwardKept(gc.h0, gc.collectGen, t, u, target, sources0 + kept);
    OnlyCellsFrom(gc.h0, gc.collectGen, s, u, Flat(hold));
    KeepBack(gc.h0, gc.collectGen, u, keep0, keep1);
    gc.keep := keep0;
    forall p {:trigger p in kept} | p in kept ensures p in Flat(hold) && EntryLive(gc.h0, gc.collectGen, u, p, 0) {
      LiveKept(gc.h0, gc.collectGen, t, u, p, 0);
    }
    forall p {:trigger p in dropped} | p in dropped ensures p in Flat(hold) && !EntryLive(gc.h0, gc.collectGen, u, p, 0) {
      PrivateFrom(gc.h0, Flat(hold), p);
      StaysDead(gc.h0, gc.collectGen, s, u, Flat(hold), p);
    }
  }

  lemma PrivateFrom(h0: Heap, es: seq<Word>, p: Word)
    requires Private(h0, es) && EntriesOk(h0, es) && p in es
    ensures EntryOk(h0, p)
    ensures p.addr < |h0.mem| ==> forall q {:trigger q in es} :: q in es ==> h0.mem[p.addr] != q
  {
  }

  // ---------- The guardians as a whole ----------

  /** The entries of the lists of the first n generations. */
  function Protected(lists: seq<seq<seq<Word>>>, n: nat): (r: seq<Word>)
    requires n <= |lists|
  {
    if n == 0 then [] else Protected(lists, n - 1) + Flat(lists[n - 1])
  }

  /** Entries of generations that are not collected are cells that stay where they are. */
  ghost predicate OlderLists(h0: Heap, cg: nat, lists: seq<seq<seq<Word>>>) {
    forall g, p {:trigger p in Flat(lists[g])} :: cg < g < |lists| && p in Flat(lists[g]) ==>
      p.Ptr? && Older(cg, h0.segs, p.addr)
  }

  lemma ProtectedPart(lists: seq<seq<seq<Word>>>, g: nat, n: nat)
    requires g < n <= |lists|
    ensures forall p {:trigger p in Flat(lists[g])} :: p in Flat(lists[g]) ==> p in Protected(lists, n)
  {
    if g < n - 1 { ProtectedPart(lists, g, n - 1); }
  }

  lemma ProtectedStep(lists: seq<seq<seq<Word>>>, n: nat, live: seq<seq<Word>>, dead: seq<seq<Word>>, live': seq<seq<Word>>, dead': seq<seq<Word>>)
    requires n < |lists|
    requires multiset(Flat(live)) + multiset(Flat(dead)) == multiset(Protected(lists, n))
    requires multiset(Flat(live')) + multiset(Flat(dead')) == multiset(Flat(live)) + multiset(Flat(dead)) + multiset(Flat(lists[n]))
    ensures multiset(Flat(live')) + multiset(Flat(dead')) == multiset(Protected(lists, n + 1))
  {
  }

  lemma ForwardOlder(h0: Heap, cg: nat, s: St, list: seq<seq<Word>>)
    requires Inv(h0, cg, s) && forall p {:trigger p in Flat(list)} :: p in Flat(list) ==> p.Ptr? && Older(cg, h0.segs, p.addr)
    ensures ForwardOk(cg, s, list, Flat(list))
  {
    var es := Flat(list);
    forall k | 0 <= k < |es| ensures IsImage(cg, s.segs, s.fwd, es[k], ImageOf(s.fwd, es[k])) && ImageOf(s.fwd, es[k]) == es[k] {
      assert es[k] in Flat(list);
      OlderStays(h0, cg, s, es[k].addr);
      OldNotMoved(h0, cg, s, es[k].addr);
    }
    assert Images(s.fwd, es) == es;
  }

  /** handle_guardians, first part: the lists of the collected generations are emptied, and their entries
      sorted by whether their objects are live. */
  method SortProtected(gc: Gc) returns (hold: seq<seq<Word>>, final: seq<seq<Word>>)
    requires gc.Good() && gc.raw == {} && |gc.protectedList| == GENERATIONS
    requires EntriesOk(gc.h0, Protected(gc.protectedList, gc.collectGen + 1))
    modifies gc`protectedList
    ensures gc.Good() && |gc.protectedList| == GENERATIONS
    ensures forall g {:trigger gc.protectedList[g]} :: 0 <= g < GENERATIONS ==> gc.protectedList[g] == if g <= gc.collectGen then [] else old(gc.protectedList)[g]
    ensures multiset(Flat(hold)) + multiset(Flat(final)) == multiset(Protected(old(gc.protectedList), gc.collectGen + 1))
    ensures AllLive(gc.h0, gc.collectGen, gc.Now(), Flat(hold), 1) && AllDead(gc.h0, gc.collectGen, gc.Now(), Flat(final), 1)
  {
    hide Inv, Closed, KeptOk, EntryLive, MoveTconc, EntriesOk, Flat, Protected;
    InvSizes(gc.h0, gc.collectGen, gc.Now());
    ghost var lists, n := gc.protectedList, gc.collectGen + 1;
    NothingSorted(lists);
    hold, final := [], [];
    var gen := 0;
    while gen <= gc.collectGen
      invariant gen <= n && gc.Good() && |gc.protectedList| == GENERATIONS
      invariant forall g {:trigger gc.protectedList[g]} :: 0 <= g < GENERATIONS ==> gc.protectedList[g] == if g < gen then [] else lists[g]
      invariant multiset(Flat(hold)) + multiset(Flat(final)) == multiset(Protected(lists, gen))
      invariant hold != [] ==> Flat(hold) != []
      invariant AllLive(gc.h0, gc.collectGen, gc.Now(), Flat(hold), 1) && AllDead(gc.h0, gc.collectGen, gc.Now(), Flat(final), 1)
    {
      var list := gc.protectedList[gen];
      gc.protectedList := gc.protectedList[gen := []];
      ProtectedPart(lists, gen, n);
      SomeOk(gc.h0, Protected(lists, n), Flat(list));
      ghost var hold0, final0 := hold, final;
      hold, final := Sort(gc, list, 1, hold, final);
      ProtectedStep(lists, gen, hold0, final0, hold, final);
      gen := gen + 1;
    }
  }

  lemma NothingSorted(lists: seq<seq<seq<Word>>>)
    ensures Flat([]) == [] && Protected(lists, 0) == []
  {
  }

  lemma SomeOk(h0: Heap, all: seq<Word>, es: seq<Word>)
    requires EntriesOk(h0, all) && forall p {:trigger p in es} :: p in es ==> p in all
    ensures EntriesOk(h0, es)
  {
  }

  /** The entries are live themselves: their cells have been kept. */
  ghost predicate Held(cg: nat, s: St, es: seq<Word>) {
    forall p {:trigger p in es} :: p in es ==> Live(cg, s.segs, s.fwd, p)
  }

  lemma ForwardHeld(cg: nat, s: St, list: seq<seq<Word>>, sources: seq<Word>, es: seq<Word>)
    requires ForwardOk(cg, s, list, sources) && forall p {:trigger p in es} :: p in es ==> p in sources
    ensures Held(cg, s, es)
  {
    hide Flat, Images;
    forall p {:trigger p in es} | p in es ensures Live(cg, s.segs, s.fwd, p) {
      var k :| 0 <= k < |sources| && sources[k] == p;
      assert IsImage(cg, s.segs, s.fwd, sources[k], ImageOf(s.fwd, sources[k]));
    }
  }

  /** The lists of the collected generations are empty, the others as they were. */
  ghost predicate Emptied(cg: nat, before: seq<seq<seq<Word>>>, now: seq<seq<seq<Word>>>) {
    && |now| == |before| == GENERATIONS
    && forall g {:trigger now[g]} :: 0 <= g < GENERATIONS ==> now[g] == if g <= cg then [] else before[g]
  }

  /** The entries are taken from their lists; those whose objects are dead are made live if their tconcs are. */
  method DeliverDead(gc: Gc) returns (hold: seq<seq<Word>>, ghost forwarded: seq<Word>, ghost pend: seq<Word>)
    requires gc.Good() && AtRest(gc.h0, gc.collectGen, gc.Now()) && gc.Rested()
    requires |gc.protectedList| == GENERATIONS
    requires EntriesWanted(gc.h0, gc.collectGen, gc.keep, Protected(gc.protectedList, gc.collectGen + 1))
    modifies gc`mem, gc`segs, gc`dirty, gc`meta, gc`queues, gc`fwd, gc`src, gc`raw, gc`work, gc`workId, gc`protectedList, gc`forwardList
    ensures gc.Good() && AtRest(gc.h0, gc.collectGen, gc.Now()) && gc.Rested() && Grown(old(gc.dirty), gc.dirty)
    ensures Onward(gc.collectGen, old(gc.Now()), gc.Now())
    ensures Emptied(gc.collectGen, old(gc.protectedList), gc.protectedList)
    ensures multiset(Flat(hold)) + (multiset(forwarded) + multiset(pend)) == multiset(Protected(old(gc.protectedList), gc.collectGen + 1))
    ensures AllLive(gc.h0, gc.collectGen, old(gc.Now()), Flat(hold), 1) && AllDead(gc.h0, gc.collectGen, old(gc.Now()), forwarded, 1)
    ensures ForwardOk(gc.collectGen, gc.Now(), gc.forwardList, forwarded)
    ensures AllLive(gc.h0, gc.collectGen, gc.Now(), forwarded, 0) && AllDead(gc.h0, gc.collectGen, gc.Now(), pend, 0)
  {
    hide Inv, Closed, KeptOk, EntryLive, MoveTconc, EntriesWanted, Grown, Onward, EntryOk, AllLive, AllDead, ForwardOk, Flat, Protected, Images;
    InvSizes(gc.h0, gc.collectGen, gc.Now());
    ghost var s0, all := gc.Now(), Protected(gc.protectedList, gc.collectGen + 1);
    SomeWanted(gc.h0, gc.collectGen, gc.keep, all, all);
    var final;
    hold, final := SortProtected(gc);
    PartOf(Flat(hold), Flat(final), all);
    SomeWanted(gc.h0, gc.collectGen, gc.keep, all, Flat(final));
    var left, forward;
    left, forward, forwarded := Resurrect(gc, final);
    gc.forwardList := forward;
    pend := Flat(left);
    PartOf(forwarded, pend, Flat(final));
    SubList(gc.h0, gc.collectGen, s0, Flat(final), forwarded);
  }

  /** Where every entry has gone, and what decided it. */
  ghost predicate Outcome(h0: Heap, cg: nat, s: St, t: St, all: seq<Word>, kept: seq<Word>, forwarded: seq<Word>, dropped: seq<Word>) {
    && multiset(kept) + multiset(forwarded) + multiset(dropped) == multiset(all)
    && AllLive(h0, cg, s, kept, 1) && AllLive(h0, cg, t, kept, 0) && Held(cg, t, kept)
    && AllDead(h0, cg, s, forwarded, 1) && AllLive(h0, cg, t, forwarded, 0) && Held(cg, t, forwarded)
    && AllDead(h0, cg, t, dropped, 0)
  }

  /** The lists after the guardians have been served. */
  ghost predicate ListsNext(cg: nat, fwd: map<nat, nat>, before: seq<seq<seq<Word>>>, now: seq<seq<seq<Word>>>, forward: seq<seq<Word>>, kept: seq<Word>, forwarded: seq<Word>)
    requires |before| == GENERATIONS && cg <= OLDEST
  {
    var next := NextGen(cg);
    && |now| == GENERATIONS
    && multiset(Flat(forward)) == multiset(Images(fwd, forwarded))
    && multiset(Flat(now[next])) == multiset(Images(fwd, kept)) + (if next <= cg then multiset{} else multiset(Flat(before[next])))
    && (forall g {:trigger now[g]} :: 0 <= g < GENERATIONS && g != next ==> now[g] == if g <= cg then [] else before[g])
  }

  /** handle_guardians: every protected entry of the collected generations is forwarded, kept for the next
      generation, or dropped, and what decides is whether its object was live and whether its tconc is. */
  method HandleGuardians(gc: Gc) returns (ghost kept: seq<Word>, ghost forwarded: seq<Word>, ghost dropped: seq<Word>)
    requires gc.Good() && AtRest(gc.h0, gc.collectGen, gc.Now()) && gc.Rested()
    requires |gc.protectedList| == GENERATIONS && OlderLists(gc.h0, gc.collectGen, gc.protectedList)
    requires EntriesWanted(gc.h0, gc.collectGen, gc.keep, Protected(gc.protectedList, gc.collectGen + 1))
    requires Private(gc.h0, Protected(gc.protectedList, gc.collectGen + 1))
    modifies gc`mem, gc`segs, gc`dirty, gc`meta, gc`queues, gc`fwd, gc`src, gc`raw, gc`work, gc`workId, gc`keep, gc`protectedList, gc`forwardList
    ensures gc.Good() && AtRest(gc.h0, gc.collectGen, gc.Now()) && gc.Rested() && Grown(old(gc.dirty), gc.dirty) && gc.keep == old(gc.keep)
    ensures Onward(gc.collectGen, old(gc.Now()), gc.Now())
    ensures Outcome(gc.h0, gc.collectGen, old(gc.Now()), gc.Now(), Protected(old(gc.protectedList), gc.collectGen + 1), kept, forwarded, dropped)
    ensures gc.collectGen <= OLDEST && ListsNext(gc.collectGen, gc.fwd, old(gc.protectedList), gc.protectedList, gc.forwardList, kept, forwarded)
  {
    hide Inv, Closed, KeptOk, EntryLive, MoveTconc, EntriesWanted, Grown, Onward, OnlyCells, Private, EntryOk, AllLive, AllDead, OlderLists, ForwardOk, Flat, Protected, Images,
      Held, Outcome, ListsNext, AtRest;
    RestSizes(gc.h0, gc.collectGen, gc.Now());
    ghost var s0, all, before := gc.Now(), Protected(gc.protectedList, gc.collectGen + 1), gc.protectedList;
    SomeWanted(gc.h0, gc.collectGen, gc.keep, all, all);
    var hold;
    ghost var pend;
    hold, forwarded, pend := DeliverDead(gc);
    ghost var s1, d1, lists := gc.Now(), gc.dirty, gc.protectedList;
    Parts(Flat(hold), forwarded, pend, all);
    SomeWanted(gc.h0, gc.collectGen, gc.keep, all, Flat(hold));
    AllLiveKept(gc.h0, gc.collectGen, s0, s1, Flat(hold), 1);
    SomePrivate(gc.h0, all, Flat(hold));
    var next := NextGen(gc.collectGen);
    assert lists[next] == lists[next];
    ForwardNext(gc.h0, gc.collectGen, s1, before, lists, next);
    ghost var target0 := Flat(lists[next]);
    ghost var drop;
    var target;
    target, kept, drop := Hold(gc, hold, gc.protectedList[next], target0);
    ghost var s2 := gc.Now();
    gc.protectedList := gc.protectedList[next := target];
    dropped := pend + drop;
    OnwardTrans(gc.collectGen, s0, s1, s2);
    GrownTrans(old(gc.dirty), d1, gc.dirty);
    ForwardKept(gc.h0, gc.collectGen, s1, s2, gc.forwardList, forwarded);
    EntriesServed(gc.h0, gc.collectGen, s0, s1, s2, all, Flat(hold), kept, drop, forwarded, pend);
    ForwardHeld(gc.collectGen, s2, gc.forwardList, forwarded, forwarded);
    ForwardHeld(gc.collectGen, s2, target, target0 + kept, kept);
    Settled(gc.h0, gc.collectGen, s0, s2, all, Flat(hold), kept, drop, forwarded, pend);
    ForwardNext(gc.h0, gc.collectGen, s2, before, lists, next);
    NewLists(gc.collectGen, s2, before, lists, target, gc.forwardList, target0, kept, forwarded);
  }

  /** What decided the fate of each entry, in the state at the end. */
  lemma EntriesServed(h0: Heap, cg: nat, s0: St, s1: St, s2: St, all: seq<Word>, hold: seq<Word>, kept: seq<Word>, drop: seq<Word>, forwarded: seq<Word>, pend: seq<Word>)
    requires Inv(h0, cg, s1) && Inv(h0, cg, s2) && Onward(cg, s1, s2) && OnlyCells(h0, cg, s1, s2, hold) && EntriesOk(h0, all) && Private(h0, all)
    requires (forall p {:trigger p in hold} :: p in hold ==> p in all) && (forall p {:trigger p in pend} :: p in pend ==> p in all)
    requires AllLive(h0, cg, s0, hold, 1) && AllLive(h0, cg, s1, forwarded, 0) && AllDead(h0, cg, s1, pend, 0)
    requires forall p {:trigger p in kept} :: p in kept ==> p in hold && EntryLive(h0, cg, s2, p, 0)
    requires forall p {:trigger p in drop} :: p in drop ==> p in hold && !EntryLive(h0, cg, s2, p, 0)
    ensures AllLive(h0, cg, s0, kept, 1) && AllLive(h0, cg, s2, kept, 0) && AllLive(h0, cg, s2, forwarded, 0) && AllDead(h0, cg, s2, pend + drop, 0)
  {
    hide Inv, Onward, OnlyCells, EntriesOk, Private, AllLive, AllDead, EntryLive;
    AllLiveKept(h0, cg, s1, s2, forwarded, 0);
    PendDead(h0, cg, s1, s2, all, hold, pend, drop);
    HeldLive(h0, cg, s0, s2, hold, kept);
  }

  lemma RestSizes(h0: Heap, cg: nat, s: St)
    requires AtRest(h0, cg, s)
    ensures Inv(h0, cg, s) && cg <= OLDEST
  {
    hide Inv;
    InvSizes(h0, cg, s);
  }

  lemma Parts(hold: seq<Word>, forwarded: seq<Word>, pend: seq<Word>, all: seq<Word>)
    requires multiset(hold) + (multiset(forwarded) + multiset(pend)) == multiset(all)
    ensures forall p {:trigger p in hold} :: p in hold ==> p in all
    ensures forall p {:trigger p in pend} :: p in pend ==> p in all
  {
    assert multiset(forwarded + pend) == multiset(forwarded) + multiset(pend);
    PartOf(hold, forwarded + pend, all);
    forall p {:trigger p in pend} | p in pend ensures p in forwarded + pend {}
  }

  lemma HeldLive(h0: Heap, cg: nat, s: St, t: St, hold: seq<Word>, kept: seq<Word>)
    requires AllLive(h0, cg, s, hold, 1) && forall p {:trigger p in kept} :: p in kept ==> p in hold && EntryLive(h0, cg, t, p, 0)
    ensures AllLive(h0, cg, s, kept, 1) && AllLive(h0, cg, t, kept, 0)
  {
    hide EntryLive;
  }

  lemma Settled(h0: Heap, cg: nat, s: St, t: St, all: seq<Word>, hold: seq<Word>, kept: seq<Word>, drop: seq<Word>, forwarded: seq<Word>, pend: seq<Word>)
    requires multiset(hold) + (multiset(forwarded) + multiset(pend)) == multiset(all) && multiset(kept) + multiset(drop) == multiset(hold)
    requires AllLive(h0, cg, s, kept, 1) && AllLive(h0, cg, t, kept, 0) && Held(cg, t, kept)
    requires AllDead(h0, cg, s, forwarded, 1) && AllLive(h0, cg, t, forwarded, 0) && Held(cg, t, forwarded)
    requires AllDead(h0, cg, t, pend + drop, 0)
    ensures Outcome(h0, cg, s, t, all, kept, forwarded, pend + drop)
  {
    hide AllLive, AllDead, Held;
    var final := forwarded + pend;
    assert multiset(final) == multiset(forwarded) + multiset(pend);
    Counted(kept, drop, hold, forwarded, pend, final, all);
  }

  lemma NewLists(cg: nat, s: St, before: seq<seq<seq<Word>>>, lists: seq<seq<seq<Word>>>, target: seq<seq<Word>>, forward: seq<seq<Word>>, target0: seq<Word>,
                 kept: seq<Word>, forwarded: seq<Word>)
    requires cg <= OLDEST && Emptied(cg, before, lists) && target0 == Flat(lists[NextGen(cg)])
    requires ForwardOk(cg, s, target, target0 + kept) && ForwardOk(cg, s, lists[NextGen(cg)], target0) && ForwardOk(cg, s, forward, forwarded)
    ensures ListsNext(cg, s.fwd, before, lists[NextGen(cg) := target], forward, kept, forwarded)
  {
    hide Flat, Images, ForwardOk;
    var next := NextGen(cg);
    assert lists[next] == lists[next];
    NextList(cg, s, target, target0, kept, lists[next], before[next], next <= cg);
    ForwardList(cg, s, forward, forwarded);
  }

  lemma SubList(h0: Heap, cg: nat, s: St, all: seq<Word>, es: seq<Word>)
    requires forall p {:trigger p in es} :: p in es ==> p in all
    ensures AllLive(h0, cg, s, all, 1) ==> AllLive(h0, cg, s, es, 1)
    ensures AllDead(h0, cg, s, all, 1) ==> AllDead(h0, cg, s, es, 1)
  {
  }

  lemma ForwardList(cg: nat, s: St, forward: seq<seq<Word>>, sources: seq<Word>)
    requires ForwardOk(cg, s, forward, sources)
    ensures multiset(Flat(forward)) == multiset(Images(s.fwd, sources))
  {
  }

  lemma NextList(cg: nat, s: St, target: seq<seq<Word>>, target0: seq<Word>, kept: seq<Word>, list: seq<seq<Word>>, before: seq<seq<Word>>, empty: bool)
    requires ForwardOk(cg, s, target, target0 + kept) && target0 == Flat(list) && ForwardOk(cg, s, list, target0)
    requires list == if empty then [] else before
    ensures multiset(Flat(target)) == multiset(Images(s.fwd, kept)) + (if empty then multiset{} else multiset(Flat(before)))
  {
    ForwardSplit(cg, s, target, target0, kept);
    assert empty ==> Flat(list) == [];
  }

  lemma Counted(kept: seq<Word>, drop: seq<Word>, hold: seq<Word>, forwarded: seq<Word>, pend: seq<Word>, final: seq<Word>, all: seq<Word>)
    requires multiset(kept) + multiset(drop) == multiset(hold) && multiset(forwarded) + multiset(pend) == multiset(final)
    requires multiset(hold) + multiset(final) == multiset(all)
    ensures multiset(kept) + multiset(forwarded) + multiset(pend + drop) == multiset(all)
  {
    assert multiset(kept) + multiset(forwarded) + (multiset(pend) + multiset(drop)) == (multiset(kept) + multiset(drop)) + (multiset(forwarded) + multiset(pend));
  }

  lemma SomePrivate(h0: Heap, all: seq<Word>, es: seq<Word>)
    requires Private(h0, all) && forall p {:trigger p in es} :: p in es ==> p in all
    ensures Private(h0, es)
  {
  }

  /** The list of the next generation before the kept entries are added to it. */
  lemma ForwardNext(h0: Heap, cg: nat, s: St, before: seq<seq<seq<Word>>>, lists: seq<seq<seq<Word>>>, next: nat)
    requires Inv(h0, cg, s) && OlderLists(h0, cg, before) && next < |lists| == |before|
    requires lists[next] == if next <= cg then [] else before[next]
    ensures ForwardOk(cg, s, lists[next], Flat(lists[next]))
    ensures next <= cg ==> Flat(lists[next]) == []
  {
    ForwardOlder(h0, cg, s, lists[next]);
  }

  lemma ForwardSplit(cg: nat, s: St, target: seq<seq<Word>>, target0: seq<Word>, kept: seq<Word>)
    requires ForwardOk(cg, s, target, target0 + kept)
    ensures multiset(Flat(target)) == multiset(Images(s.fwd, kept)) + multiset(Images(s.fwd, target0))
  {
    ImagesAppend(s.fwd, target0, kept);
  }

  lemma PendDead(h0: Heap, cg: nat, s: St, t: St, all: seq<Word>, hold: seq<Word>, pend: seq<Word>, drop: seq<Word>)
    requires Inv(h0, cg, s) && Inv(h0, cg, t) && OnlyCells(h0, cg, s, t, hold) && EntriesOk(h0, all) && Private(h0, all)
    requires (forall p {:trigger p in hold} :: p in hold ==> p in all) && (forall p {:trigger p in pend} :: p in pend ==> p in all)
    requires AllDead(h0, cg, s, pend, 0) && forall p {:trigger p in drop} :: p in drop ==> p in hold && !EntryLive(h0, cg, t, p, 0)
    ensures AllDead(h0, cg, t, pend + drop, 0)
  {
    hide Inv, OnlyCells, EntryLive, EntryOk;
    forall p {:trigger p in pend + drop} | p in pend + drop ensures !EntryLive(h0, cg, t, p, 0) {
      if p !in drop {
        assert p in pend;
        PrivateFrom(h0, all, p);
        StaysDead(h0, cg, s, t, hold, p);
      }
    }
  }
}
