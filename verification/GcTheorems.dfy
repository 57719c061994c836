/** What a collection means for the program: the same graph of objects, no more and no less than can be reached. */
module GcTheorems {
  import opened Memory
  import opened GcState
  import opened GcSteps
  import opened GcMoves
  import opened GcReach
  import opened GcGather
  import opened GcLoop
  import opened GcDirty
  import opened GcWeak
  import opened GcFinish
  import opened GcRoots
  import opened GcGuardians
  import opened GcReachable
  import opened GcCollect
  import opened Wrappers

  /** The word v refers to an object that has a slot i, and that slot is not the car of a weak pair. */
  predicate HasSlot(h: Heap, v: Word, i: nat)
    requires |h.mem| == 512 * |h.segs|
    ensures HasSlot(h, v, i) ==> v.Ptr? && v.addr + i < |h.mem|
  {
    v.Ptr? && v.addr in h.objs && v.addr < |h.mem| && i < Used(h.mem, h.objs[v.addr], v.addr)
    && v.addr + i < |h.mem| && !(i == 0 && SegOf(h.segs, v.addr).typ == WeakPairs)
  }

  /** The word found by following slots from v, never through the car of a weak pair. */
  function Follow(h: Heap, v: Word, path: seq<nat>): Option<Word>
    requires |h.mem| == 512 * |h.segs|
    decreases |path|
  {
    if path == [] then Some(v)
    else if HasSlot(h, v, path[0]) then Follow(h, h.mem[v.addr + path[0]], path[1..])
    else None
  }

  /** Where object a is after the collection. */
  function Place(fwd: map<nat, nat>, a: nat): nat {
    if a in fwd then fwd[a] else a
  }

  lemma PlaceOfObject(h0: Heap, cg: nat, s: St, mem: seq<Word>, dirty: seq<seq<bv4>>, a: nat)
    requires Finished(h0, cg, s, mem, dirty) && (forall a :: a in s.fwd ==> a in h0.objs)
    requires a in h0.objs && (a in s.fwd || Older(cg, s.segs, a))
    ensures var h1, b := NextHeap(h0, cg, s, mem), Place(s.fwd, a);
            && b in h1.objs && h1.objs[b] == h0.objs[a] && b < |h1.mem| && a < |h0.mem|
            && Used(h1.mem, h1.objs[b], b) == Used(h0.mem, h0.objs[a], a)
            && b + Used(h1.mem, h1.objs[b], b) <= |h1.mem| && a + Used(h0.mem, h0.objs[a], a) <= |h0.mem|
            && |h1.mem| == 512 * |h1.segs|
  {
    hide Inv, WeakFixed, PagesDone, WellFormed;
    NextSizes(h0, cg, s, mem);
    NextObjsAt(h0, cg, s);
    ObjectWords(h0, a);
    if a in s.fwd {
      CopyHeader(h0, cg, s, mem, a);
      CopyFits(h0, cg, s, a);
    } else {
      StayingHeader(h0, cg, s, mem, a);
    }
  }

  lemma CopyFits(h0: Heap, cg: nat, s: St, a: nat)
    requires Inv(h0, cg, s) && a in s.fwd
    ensures s.fwd[a] + SizeOf(h0, a) <= 512 * |s.segs| && |h0.mem| <= s.fwd[a]
  {
    assert PlaceOk(h0, cg, s.segs, a, s.fwd[a]);
  }

  /** The page of an object holds weak pairs after the collection just when it did before. */
  lemma PlaceWeak(h0: Heap, cg: nat, s: St, mem: seq<Word>, a: nat)
    requires Inv(h0, cg, s) && a in h0.objs && (a in s.fwd || Older(cg, s.segs, a)) && a < |h0.mem| && Place(s.fwd, a) < 512 * |s.segs|
    ensures h0.objs[a] == PairKind && SegOf(h0.segs, a).typ == WeakPairs <==> SegOf(FinalSegs(cg, s.segs), Place(s.fwd, a)).typ == WeakPairs
    ensures a in s.fwd ==> (SegOf(FinalSegs(cg, s.segs), s.fwd[a]).typ == WeakPairs <==> WeakCar(|h0.mem|, s.segs, s.fwd[a]))
  {
    assert ObjectOk(h0, a);
    if a in s.fwd {
      assert PlaceOk(h0, cg, s.segs, a, s.fwd[a]);
      CopyPages(h0, cg, s, a);
    } else {
      StayingPages(h0, cg, s, a);
    }
  }

  /** Strong slots of a survivor hold the images of what they held. */
  lemma SlotImage(h0: Heap, cg: nat, s: St, mem: seq<Word>, dirty: seq<seq<bv4>>, a: nat, i: nat)
    requires Finished(h0, cg, s, mem, dirty) && (forall a :: a in s.fwd ==> a in h0.objs)
    requires a in h0.objs && (a in s.fwd || Older(cg, s.segs, a)) && i < UsedOf(h0, a)
    requires !(i == 0 && a < 512 * |h0.segs| && SegOf(h0.segs, a).typ == WeakPairs && a in s.fwd)
    ensures a + i < |h0.mem| && Place(s.fwd, a) + i < |mem|
    ensures IsImage(cg, s.segs, s.fwd, h0.mem[a + i], mem[Place(s.fwd, a) + i])
  {
    hide Inv, WeakFixed, PagesDone, WellFormed;
    NextSizes(h0, cg, s, mem);
    ObjectWords(h0, a);
    if a in s.fwd {
      MovedWordTrace(h0, cg, s, a, a + i);
      SurvivorWord(h0, cg, s, mem, s.fwd[a] + i);
    } else if a + i in s.src {
      InvSource(h0, cg, s, a + i);
      SurvivorWord(h0, cg, s, mem, a + i);
    } else {
      StayingSlot(h0, cg, s, mem, dirty, a, a + i);
    }
  }

  /** A slot of an object that stays, and that was not looked at: it refers to nothing that was collected. */
  lemma StayingSlot(h0: Heap, cg: nat, s: St, mem: seq<Word>, dirty: seq<seq<bv4>>, a: nat, w: nat)
    requires Finished(h0, cg, s, mem, dirty) && (forall a :: a in s.fwd ==> a in h0.objs)
    requires a in h0.objs && Older(cg, s.segs, a) && a !in s.fwd && a <= w < a + UsedOf(h0, a) && w < |h0.mem| && w !in s.src
    ensures w < |mem| && IsImage(cg, s.segs, s.fwd, h0.mem[w], mem[w])
  {
    hide PagesDone;
    StayingWordIs(h0, cg, s, a, w);
    SameWord(h0, cg, s, mem, w);
    if h0.mem[w].Ptr? {
      OldWordDone(h0, cg, s, mem, dirty, w);
      OlderStays(h0, cg, s, h0.mem[w].addr);
      NotMoved(h0, cg, s, h0.mem[w].addr);
    }
  }

  lemma StayingWordIs(h0: Heap, cg: nat, s: St, a: nat, w: nat)
    requires Inv(h0, cg, s) && a in h0.objs && Older(cg, s.segs, a) && a <= w < a + UsedOf(h0, a) && w < |h0.mem| && w !in s.src
    ensures Older(cg, h0.segs, w) && h0.mem[w] != Fwd
    ensures h0.mem[w].Ptr? ==> Scannable(SegOf(h0.segs, w).typ)
  {
    hide PlacesOk, CopiesTraced, OldIntact, ColoursOk, WhiteIntact, MarksOk, RangesOk, FreeOk, MetasOk, NewPagesOk, CopiesApart;
    assert ObjectOk(h0, a);
    assert SegOf(h0.segs, w) == SegOf(h0.segs, a);
    StaysOld(h0, cg, s, a, w);
    assert a in h0.objs && h0.mem[w] == h0.mem[w];
  }

  /** Following the same slots from a word and from its image leads to a word and its image, or nowhere from both. */
  lemma {:induction false} PathsKept(h0: Heap, cg: nat, s: St, mem: seq<Word>, dirty: seq<seq<bv4>>, v: Word, u: Word, path: seq<nat>)
    requires Finished(h0, cg, s, mem, dirty) && (forall a :: a in s.fwd ==> a in h0.objs)
    requires GoodWord(h0.objs, v) && IsImage(cg, s.segs, s.fwd, v, u)
    ensures |h0.mem| == 512 * |h0.segs| && |mem| == 512 * |NextHeap(h0, cg, s, mem).segs|
    ensures var x, y := Follow(h0, v, path), Follow(NextHeap(h0, cg, s, mem), u, path);
            (x.Some? <==> y.Some?) && (x.Some? ==> IsImage(cg, s.segs, s.fwd, x.value, y.value))
    decreases |path|
  {
    hide Inv, WeakFixed, PagesDone, WellFormed, Finished, HasSlot, IsImage, GoodWord;
    FinishedSizes(h0, cg, s, mem, dirty);
    NextHeapSizes(h0, cg, s, mem);
    if path != [] {
      SlotKept(h0, cg, s, mem, dirty, v, u, path[0]);
      if HasSlot(h0, v, path[0]) {
        PathsKept(h0, cg, s, mem, dirty, h0.mem[v.addr + path[0]], mem[u.addr + path[0]], path[1..]);
      }
    }
  }

  lemma NextHeapSizes(h0: Heap, cg: nat, s: St, mem: seq<Word>)
    requires (forall a :: a in s.fwd ==> a in h0.objs) && |mem| == 512 * |s.segs|
    ensures var h1 := NextHeap(h0, cg, s, mem); h1.mem == mem && |h1.mem| == 512 * |h1.segs|
  {
  }

  /** One slot: the image has it too, and it holds the image of what it held. */
  lemma SlotKept(h0: Heap, cg: nat, s: St, mem: seq<Word>, dirty: seq<seq<bv4>>, v: Word, u: Word, i: nat)
    requires Finished(h0, cg, s, mem, dirty) && (forall a :: a in s.fwd ==> a in h0.objs)
    requires GoodWord(h0.objs, v) && IsImage(cg, s.segs, s.fwd, v, u)
    ensures |h0.mem| == 512 * |h0.segs| && |mem| == 512 * |NextHeap(h0, cg, s, mem).segs|
    ensures HasSlot(h0, v, i) <==> HasSlot(NextHeap(h0, cg, s, mem), u, i)
    ensures HasSlot(h0, v, i) ==> GoodWord(h0.objs, h0.mem[v.addr + i]) && IsImage(cg, s.segs, s.fwd, h0.mem[v.addr + i], mem[u.addr + i])
  {
    hide Inv, WeakFixed, PagesDone, WellFormed, Finished;
    FinishedSizes(h0, cg, s, mem, dirty);
    if v.Ptr? {
      var a := v.addr;
      PlaceOfObject(h0, cg, s, mem, dirty, a);
      PlaceWeak(h0, cg, s, mem, a);
      WeakIsPair(h0, a);
      assert u == Ptr(v.kind, Place(s.fwd, a));
      if HasSlot(h0, v, i) {
        SlotImage(h0, cg, s, mem, dirty, a, i);
        WordGood(h0, a, a + i);
      }
    }
  }

  lemma FinishedSizes(h0: Heap, cg: nat, s: St, mem: seq<Word>, dirty: seq<seq<bv4>>)
    requires Finished(h0, cg, s, mem, dirty)
    ensures Inv(h0, cg, s) && WellFormed(h0) && |h0.mem| == 512 * |h0.segs| && |mem| == 512 * |s.segs|
  {
    hide Inv, PagesDone;
    NextSizes(h0, cg, s, mem);
  }

  lemma WeakIsPair(h0: Heap, a: nat)
    requires WellFormed(h0) && a in h0.objs && a < |h0.mem|
    ensures SegOf(h0.segs, a).typ == WeakPairs ==> h0.objs[a] == PairKind
  {
    assert ObjectOk(h0, a);
  }

  /** The graph of objects seen from the roots is the same before and after a collection. */
  lemma GraphKept(h0: Heap, cg: nat, end: St, dirty: seq<seq<bv4>>, h1: Heap, before: seq<Word>, now: seq<Word>, i: nat, path: seq<nat>)
    requires Collected(h0, cg, end, dirty, h1, before, now) && i < |before| && GoodWord(h0.objs, before[i])
    ensures i < |now| && |h0.mem| == 512 * |h0.segs| && |h1.mem| == 512 * |h1.segs|
    ensures Follow(h0, before[i], path).Some? <==> Follow(h1, now[i], path).Some?
    ensures Follow(h0, before[i], path).Some? ==>
              IsImage(cg, end.segs, end.fwd, Follow(h0, before[i], path).value, Follow(h1, now[i], path).value)
  {
    hide Finished;
    assert now[i] == now[i];
    PathsKept(h0, cg, end, h1.mem, dirty, before[i], now[i], path);
  }

  /** Different objects stay different, and the same object stays the same: eq? gives the same answers. */
  lemma ImagesDistinct(h0: Heap, cg: nat, s: St, v: Word, w: Word, x: Word, y: Word)
    requires Inv(h0, cg, s) && GoodWord(h0.objs, v) && GoodWord(h0.objs, w)
    requires IsImage(cg, s.segs, s.fwd, v, x) && IsImage(cg, s.segs, s.fwd, w, y)
    ensures v == w <==> x == y
  {
    hide Inv;
    if v.Ptr? && w.Ptr? && v != w {
      DistinctPlaces(h0, cg, s, v.addr, w.addr);
    }
  }

  /** The same said of the two heaps alone: along any paths from any roots there are the same immediate values and
      objects of the same kinds, and two paths lead to one object after the collection just when they did before. */
  lemma GraphSame(h0: Heap, cg: nat, end: St, dirty: seq<seq<bv4>>, h1: Heap, before: seq<Word>, now: seq<Word>, i: nat, p: seq<nat>, j: nat, q: seq<nat>)
    requires Collected(h0, cg, end, dirty, h1, before, now) && RootsOk(h0, before) && i < |before| && j < |before|
    ensures |now| == |before| && |h0.mem| == 512 * |h0.segs| && |h1.mem| == 512 * |h1.segs|
    ensures var x, y := Follow(h0, before[i], p), Follow(h1, now[i], p);
            && (x.Some? <==> y.Some?)
            && (x.Some? && x.value.Imm? ==> y.value == x.value)
            && (x.Some? && x.value.Ptr? ==> y.value.Ptr? && y.value.kind == x.value.kind)
    ensures Follow(h0, before[i], p).Some? && Follow(h0, before[j], q).Some? ==>
              (Follow(h0, before[i], p) == Follow(h0, before[j], q) <==> Follow(h1, now[i], p) == Follow(h1, now[j], q))
  {
    hide Finished, Follow, WellFormed, Inv, IsImage;
    CollectedSizes(h0, cg, end, dirty, h1, before, now);
    assert GoodWord(h0.objs, before[i]) && GoodWord(h0.objs, before[j]);
    GraphKept(h0, cg, end, dirty, h1, before, now, i, p);
    GraphKept(h0, cg, end, dirty, h1, before, now, j, q);
    var x, y := Follow(h0, before[i], p), Follow(h1, now[i], p);
    var v, w := Follow(h0, before[j], q), Follow(h1, now[j], q);
    if x.Some? {
      ImageSort(cg, end.segs, end.fwd, x.value, y.value);
      FollowGood(h0, before[i], p);
    }
    if x.Some? && v.Some? {
      FollowGood(h0, before[j], q);
      ImagesDistinct(h0, cg, end, x.value, v.value, y.value, w.value);
    }
  }

  lemma CollectedSizes(h0: Heap, cg: nat, end: St, dirty: seq<seq<bv4>>, h1: Heap, before: seq<Word>, now: seq<Word>)
    requires Collected(h0, cg, end, dirty, h1, before, now)
    ensures Inv(h0, cg, end) && WellFormed(h0) && |now| == |before|
  {
    FinishedSizes(h0, cg, end, h1.mem, dirty);
  }

  lemma ImageSort(cg: nat, segs: seq<Seg>, fwd: map<nat, nat>, v: Word, u: Word)
    requires IsImage(cg, segs, fwd, v, u)
    ensures v.Imm? ==> u == v
    ensures v.Ptr? ==> u.Ptr? && u.kind == v.kind
  {
  }

  /** What is found at the end of a path is a value. */
  lemma {:induction false} FollowGood(h: Heap, v: Word, path: seq<nat>)
    requires WellFormed(h) && |h.mem| == 512 * |h.segs| && GoodWord(h.objs, v) && Follow(h, v, path).Some?
    ensures GoodWord(h.objs, Follow(h, v, path).value)
    decreases |path|
  {
    hide WellFormed;
    if path != [] {
      WordGood(h, v.addr, v.addr + path[0]);
      FollowGood(h, h.mem[v.addr + path[0]], path[1..]);
    }
  }

  lemma DistinctPlaces(h0: Heap, cg: nat, s: St, a: nat, c: nat)
    requires Inv(h0, cg, s) && a in h0.objs && c in h0.objs
    ensures a != c ==> Place(s.fwd, a) != Place(s.fwd, c)
  {
    hide Inv;
    OldPlaces(h0, cg, s, a);
    OldPlaces(h0, cg, s, c);
    if a in s.fwd && c in s.fwd && s.fwd[a] == s.fwd[c] { SameOrigin(h0, cg, s, a, c); }
  }

  lemma OldPlaces(h0: Heap, cg: nat, s: St, a: nat)
    requires Inv(h0, cg, s) && a in h0.objs
    ensures a < |h0.mem| && (a in s.fwd ==> |h0.mem| <= s.fwd[a])
  {
    InvObject(h0, cg, s, a);
    if a in s.fwd { CopyFits(h0, cg, s, a); }
  }

  /** A weak pair that survives: its car is the copy, or the broken weak pointer just when the object was collected and
      not kept, or what it was; its cdr is held strongly. The car of a pair that is not moved is held strongly too. */
  lemma WeakPairKept(h0: Heap, cg: nat, s: St, mem: seq<Word>, dirty: seq<seq<bv4>>, a: nat)
    requires Finished(h0, cg, s, mem, dirty) && (forall a :: a in s.fwd ==> a in h0.objs)
    requires a in h0.objs && (a in s.fwd || Older(cg, s.segs, a)) && a < 512 * |h0.segs| && h0.objs[a] == PairKind && SegOf(h0.segs, a).typ == WeakPairs
    ensures a + 1 < |h0.mem| && Place(s.fwd, a) + 1 < |mem|
    ensures IsWeakImage(cg, s.segs, s.fwd, h0.mem[a], mem[Place(s.fwd, a)])
    ensures a !in s.fwd ==> IsImage(cg, s.segs, s.fwd, h0.mem[a], mem[a])
    ensures IsImage(cg, s.segs, s.fwd, h0.mem[a + 1], mem[Place(s.fwd, a) + 1])
  {
    hide Inv, WeakFixed, PagesDone, WellFormed;
    NextSizes(h0, cg, s, mem);
    ObjectWords(h0, a);
    SlotImage(h0, cg, s, mem, dirty, a, 1);
    if a in s.fwd {
      InvCopyHead(h0, cg, s, a);
      SurvivorWord(h0, cg, s, mem, s.fwd[a]);
    } else {
      SlotImage(h0, cg, s, mem, dirty, a, 0);
      ImageIsWeakImage(cg, s.segs, s.fwd, h0.mem[a], mem[a]);
    }
  }

  // ---------- What can be reached ----------

  /** A word that tracing starts from: a root, or a word of a page of older references. */
  ghost predicate Start(h0: Heap, cg: nat, roots: seq<Word>, v: Word)
    requires |h0.mem| == 512 * |h0.segs|
  {
    v in roots || exists w {:trigger h0.mem[w]} :: 0 <= w < |h0.mem| && Older(cg, h0.segs, w) && Scannable(SegOf(h0.segs, w).typ) && h0.mem[w] == v
  }

  ghost predicate Leads(h0: Heap, cg: nat, roots: seq<Word>, v: Word, path: seq<nat>, a: nat)
    requires |h0.mem| == 512 * |h0.segs|
  {
    Start(h0, cg, roots, v) && a in h0.objs && Follow(h0, v, path) == Some(Ptr(h0.objs[a], a))
  }

  ghost predicate OnPath(h0: Heap, cg: nat, roots: seq<Word>, a: nat)
    requires |h0.mem| == 512 * |h0.segs|
  {
    exists v, path: seq<nat> :: Leads(h0, cg, roots, v, path, a)
  }

  /** A slot that holds a reference, of an object that is wanted, is wanted. */
  lemma SlotWanted(h0: Heap, cg: nat, keep: set<nat>, roots: seq<Word>, v: Word, i: nat)
    requires WellFormed(h0) && |h0.mem| == 512 * |h0.segs| && Enough(h0, cg, keep, roots, [])
    requires v.Ptr? && GoodWord(h0.objs, v) && Wanted(h0, cg, keep, v) && i < UsedOf(h0, v.addr) && !WeakSlot(h0, v.addr, v.addr + i)
    ensures v.addr + i < |h0.mem| && GoodWord(h0.objs, h0.mem[v.addr + i]) && Wanted(h0, cg, keep, h0.mem[v.addr + i])
  {
    hide WellFormed, RootsGood, EntriesWanted;
    var a := v.addr;
    ObjectWords(h0, a);
    WordGood(h0, a, a + i);
    if Older(cg, h0.segs, a) && h0.mem[a + i].Ptr? {
      OlderSlot(h0, cg, a, i);
    } else {
      assert !Older(cg, h0.segs, a) ==> a in keep;
      assert h0.mem[a + i] == h0.mem[a + i];
    }
  }

  lemma OlderSlot(h0: Heap, cg: nat, a: nat, i: nat)
    requires WellFormed(h0) && a in h0.objs && i < UsedOf(h0, a) && a + i < |h0.mem| && Older(cg, h0.segs, a) && h0.mem[a + i].Ptr?
    ensures Older(cg, h0.segs, a + i) && Scannable(SegOf(h0.segs, a + i).typ)
  {
    ObjectWords(h0, a);
    assert ObjectOk(h0, a);
    assert SegOf(h0.segs, a + i) == SegOf(h0.segs, a) == h0.segs[a / 512];
    assert a in h0.objs && h0.mem[a + i] == h0.mem[a + i];
  }

  lemma {:induction false} FollowWanted(h0: Heap, cg: nat, keep: set<nat>, roots: seq<Word>, v: Word, path: seq<nat>)
    requires WellFormed(h0) && |h0.mem| == 512 * |h0.segs| && Enough(h0, cg, keep, roots, [])
    requires GoodWord(h0.objs, v) && Wanted(h0, cg, keep, v) && Follow(h0, v, path).Some?
    ensures Wanted(h0, cg, keep, Follow(h0, v, path).value)
    decreases |path|
  {
    hide WellFormed, Enough, Wanted;
    if path != [] {
      SlotWanted(h0, cg, keep, roots, v, path[0]);
      FollowWanted(h0, cg, keep, roots, h0.mem[v.addr + path[0]], path[1..]);
    }
  }

  lemma {:induction false} FollowMore(h: Heap, v: Word, path: seq<nat>, i: nat)
    requires |h.mem| == 512 * |h.segs| && Follow(h, v, path).Some?
    ensures Follow(h, v, path + [i]) == Follow(h, Follow(h, v, path).value, [i])
    decreases |path|
  {
    if path == [] {
      assert path + [i] == [i];
    } else {
      FollowMore(h, h.mem[v.addr + path[0]], path[1..], i);
      assert (path + [i])[1..] == path[1..] + [i];
    }
  }

  lemma StartWanted(h0: Heap, cg: nat, keep: set<nat>, roots: seq<Word>, v: Word)
    requires WellFormed(h0) && |h0.mem| == 512 * |h0.segs| && Enough(h0, cg, keep, roots, []) && Start(h0, cg, roots, v)
    ensures GoodWord(h0.objs, v) && Wanted(h0, cg, keep, v)
  {
    hide WellFormed, Closed, EntriesWanted;
    if v in roots {
      var i :| 0 <= i < |roots| && roots[i] == v;
    } else {
      var w: nat :| w < |h0.mem| && Older(cg, h0.segs, w) && Scannable(SegOf(h0.segs, w).typ) && h0.mem[w] == v;
      ScannableGood(h0, w);
    }
  }

  ghost function PathObjects(h0: Heap, cg: nat, roots: seq<Word>): (r: set<nat>)
    requires |h0.mem| == 512 * |h0.segs|
    ensures forall a {:trigger a in r} :: a in r <==> a in h0.objs && !Older(cg, h0.segs, a) && OnPath(h0, cg, roots, a)
  {
    set a | a in h0.objs && !Older(cg, h0.segs, a) && OnPath(h0, cg, roots, a)
  }

  lemma FoundWanted(h0: Heap, cg: nat, roots: seq<Word>, v: Word, path: seq<nat>)
    requires |h0.mem| == 512 * |h0.segs| && Start(h0, cg, roots, v) && Follow(h0, v, path).Some? && GoodWord(h0.objs, Follow(h0, v, path).value)
    ensures Wanted(h0, cg, PathObjects(h0, cg, roots), Follow(h0, v, path).value)
  {
    hide Start, Follow;
    var u := Follow(h0, v, path).value;
    if u.Ptr? && u.addr in h0.objs { assert Leads(h0, cg, roots, v, path, u.addr); }
  }

  lemma PathsClosed(h0: Heap, cg: nat, roots: seq<Word>)
    requires WellFormed(h0) && |h0.mem| == 512 * |h0.segs|
    ensures Closed(h0, cg, PathObjects(h0, cg, roots))
  {
    hide WellFormed, Start, Wanted, PathObjects;
    var keep := PathObjects(h0, cg, roots);
    forall a, w {:trigger a in keep, h0.mem[w]} | 0 <= a <= w < |h0.mem| && a in keep && w < a + UsedOf(h0, a) && !WeakSlot(h0, a, w)
      ensures Wanted(h0, cg, keep, h0.mem[w])
    {
      var v, path: seq<nat> :| Leads(h0, cg, roots, v, path, a);
      FollowMore(h0, v, path, w - a);
      assert Follow(h0, h0.mem[w], []) == Some(h0.mem[w]);
      assert [w - a][1..] == [];
      assert Follow(h0, Ptr(h0.objs[a], a), [w - a]) == Some(h0.mem[w]);
      WordGood(h0, a, w);
      FoundWanted(h0, cg, roots, v, path + [w - a]);
    }
  }

  lemma PathsEnough(h0: Heap, cg: nat, roots: seq<Word>)
    requires WellFormed(h0) && |h0.mem| == 512 * |h0.segs| && RootsOk(h0, roots)
    ensures Enough(h0, cg, PathObjects(h0, cg, roots), roots, [])
  {
    hide WellFormed, Wanted, PathObjects, Closed;
    var keep := PathObjects(h0, cg, roots);
    PathsClosed(h0, cg, roots);
    forall w {:trigger h0.mem[w]} | 0 <= w < |h0.mem| && Older(cg, h0.segs, w) && Scannable(SegOf(h0.segs, w).typ)
      ensures Wanted(h0, cg, keep, h0.mem[w])
    {
      ScannableGood(h0, w);
      FoundWanted(h0, cg, roots, h0.mem[w], []);
    }
    forall i {:trigger roots[i]} | 0 <= i < |roots| ensures Wanted(h0, cg, keep, roots[i]) {
      FoundWanted(h0, cg, roots, roots[i], []);
    }
  }

  /** What the program can reach are the objects at the ends of paths that begin at a root or on an older page, and
      never go through the car of a weak pair. */
  lemma ReachedByPaths(h0: Heap, cg: nat, roots: seq<Word>, a: nat)
    requires WellFormed(h0) && |h0.mem| == 512 * |h0.segs| && RootsOk(h0, roots)
    ensures a in Reachable(h0, cg, roots, []) <==> a in h0.objs && !Older(cg, h0.segs, a) && OnPath(h0, cg, roots, a)
  {
    hide WellFormed, Enough, Reachable, PathObjects, Leads;
    PathsEnough(h0, cg, roots);
    ReachableLeast(h0, cg, PathObjects(h0, cg, roots), roots, []);
    ReachableEnough(h0, cg, roots, []);
    if a in h0.objs && !Older(cg, h0.segs, a) && OnPath(h0, cg, roots, a) {
      var v, path: seq<nat> :| Leads(h0, cg, roots, v, path, a);
      PathWanted(h0, cg, roots, v, path, a);
    }
  }

  lemma PathWanted(h0: Heap, cg: nat, roots: seq<Word>, v: Word, path: seq<nat>, a: nat)
    requires WellFormed(h0) && |h0.mem| == 512 * |h0.segs| && Enough(h0, cg, Reachable(h0, cg, roots, []), roots, [])
    requires !Older(cg, h0.segs, a) && Leads(h0, cg, roots, v, path, a)
    ensures a in Reachable(h0, cg, roots, [])
  {
    hide WellFormed, Enough, Reachable, Start;
    StartWanted(h0, cg, Reachable(h0, cg, roots, []), roots, v);
    FollowWanted(h0, cg, Reachable(h0, cg, roots, []), roots, v, path);
  }
}
