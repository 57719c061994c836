/** The end of a collection: unused pages are given back, the tags of the new pages are removed, and what
    remains is a well-formed heap whose dirty vector is sound. */
module GcFinish {
  import opened Memory
  import opened GcState
  import opened GcSteps
  import opened GcMoves
  import opened GcReach
  import opened GcGather
  import opened GcScan
  import opened GcLoop
  import opened GcDirty
  import opened GcWeak

  // ---------- The heap after the collection ----------

  const HOLE_SEG := Seg(0, 0, Hole, false)

  /** A page after deallocate_unused_pages: OLD_GEN_MASK leaves the generation without the new tag. */
  function Freed(cg: nat, seg: Seg): Seg {
    if Generational(seg.typ) && seg.gen % 8 <= cg && seg.gen < NEW_GEN_TAG then HOLE_SEG else seg
  }

  /** A page after fix_new_pages. */
  function Untagged(seg: Seg): Seg {
    seg.(gen := if seg.gen >= NEW_GEN_TAG then seg.gen - NEW_GEN_TAG else seg.gen)
  }

  function FinalSeg(cg: nat, seg: Seg): Seg {
    Untagged(Freed(cg, seg))
  }

  function FinalSegs(cg: nat, segs: seq<Seg>): (r: seq<Seg>)
    ensures |r| == |segs| && forall p {:trigger r[p]} :: 0 <= p < |segs| ==> r[p] == FinalSeg(cg, segs[p])
  {
    seq(|segs|, p requires 0 <= p < |segs| => FinalSeg(cg, segs[p]))
  }

  /** The object whose copy is at b. */
  ghost function Origin(fwd: map<nat, nat>, b: nat): (a: nat)
    requires b in fwd.Values
    ensures a in fwd && fwd[a] == b
  {
    var a :| a in fwd && fwd[a] == b; a
  }

  /** The objects that survive: those that stay where they are, and the copies. */
  ghost function NextObjs(h0: Heap, cg: nat, segs: seq<Seg>, fwd: map<nat, nat>): map<nat, Kind>
    requires forall a :: a in fwd ==> a in h0.objs
  {
    (map a | a in h0.objs && Older(cg, segs, a) :: h0.objs[a]) + (map b | b in fwd.Values :: h0.objs[Origin(fwd, b)])
  }

  lemma MovedAre(h0: Heap, cg: nat, s: St)
    requires Inv(h0, cg, s)
    ensures forall a :: a in s.fwd ==> a in h0.objs
  {
    forall a | a in s.fwd ensures a in h0.objs { assert PlaceOk(h0, cg, s.segs, a, s.fwd[a]); }
  }

  /** Tracing and the dirty pages are done, and the weak pairs are fixed. */
  ghost predicate Finished(h0: Heap, cg: nat, s: St, mem: seq<Word>, dirty: seq<seq<bv4>>) {
    && Traced(h0, cg, s)
    && WeakFixed(h0, cg, s, mem, |mem|)
    && |dirty| == |s.segs| && Shaped(dirty)
    && |h0.mem| == 512 * |h0.segs| && PagesDone(h0, cg, s, dirty, |h0.segs|)
  }

  ghost function NextHeap(h0: Heap, cg: nat, s: St, mem: seq<Word>): Heap
    requires forall a :: a in s.fwd ==> a in h0.objs
  {
    Heap(mem, FinalSegs(cg, s.segs), NextObjs(h0, cg, s.segs, s.fwd))
  }

  // ---------- The words of the survivors ----------

  /** At the end no word is waiting: a survivor holds the image of the word it comes from. */
  lemma SurvivorWord(h0: Heap, cg: nat, s: St, mem: seq<Word>, w: nat)
    requires Traced(h0, cg, s) && WeakFixed(h0, cg, s, mem, |mem|) && w in s.src
    ensures w < |mem| && s.src[w] < |h0.mem|
    ensures IsWeakImage(cg, s.segs, s.fwd, h0.mem[s.src[w]], mem[w])
    ensures !WeakCar(|h0.mem|, s.segs, w) ==> IsImage(cg, s.segs, s.fwd, h0.mem[s.src[w]], mem[w])
  {
    NothingWaits(s.todo, w);
    assert w < |s.mem|;
    if WeakCar(|h0.mem|, s.segs, w) {
    } else {
      assert mem[w] == s.mem[w];
      assert IsImage(cg, s.segs, s.fwd, h0.mem[s.src[w]], mem[w]);
    }
  }

  lemma NothingWaits(todo: Agenda, w: nat)
    requires todo.Ok() && todo.work == [] && Idle(todo.meta, todo.queues)
    ensures !todo.Waiting(w)
  {
  }

  /** A word on a page that stays, and that was not looked at, is the same word as before. */
  lemma SameWord(h0: Heap, cg: nat, s: St, mem: seq<Word>, w: nat)
    requires Inv(h0, cg, s) && WeakFixed(h0, cg, s, mem, |mem|) && w < |h0.mem| && Fixed(h0, cg, w) && w !in s.src
    ensures w < |mem| && mem[w] == h0.mem[w]
  {
    assert s.mem[w] == h0.mem[w];
  }

  lemma NextObjsAt(h0: Heap, cg: nat, s: St)
    requires Inv(h0, cg, s) && forall a :: a in s.fwd ==> a in h0.objs
    ensures var objs := NextObjs(h0, cg, s.segs, s.fwd);
            && (forall a {:trigger a in h0.objs} :: 0 <= a && a in h0.objs && Older(cg, s.segs, a) ==> a in objs && objs[a] == h0.objs[a])
            && (forall a {:trigger a in s.fwd} :: a in s.fwd ==> s.fwd[a] in objs && objs[s.fwd[a]] == h0.objs[a])
            && (forall b {:trigger b in objs} :: b in objs ==>
                  (b in h0.objs && Older(cg, s.segs, b) && b < |h0.mem|) || (b in s.fwd.Values && |h0.mem| <= b))
  {
    var objs := NextObjs(h0, cg, s.segs, s.fwd);
    forall a | a in s.fwd ensures s.fwd[a] in objs && objs[s.fwd[a]] == h0.objs[a] && |h0.mem| <= s.fwd[a] {
      assert PlaceOk(h0, cg, s.segs, a, s.fwd[a]);
      assert s.fwd[a] in s.fwd.Values;
      SameOrigin(h0, cg, s, a, Origin(s.fwd, s.fwd[a]));
    }
    forall a | a in h0.objs ensures a < |h0.mem| { assert ObjectOk(h0, a); }
  }

  lemma SameOrigin(h0: Heap, cg: nat, s: St, a: nat, c: nat)
    requires Inv(h0, cg, s) && a in s.fwd && c in s.fwd && s.fwd[a] == s.fwd[c]
    ensures a == c
  {
    CopiesDistinct(h0, cg, s.segs, s.fwd, a, c);
  }

  lemma CopiesDistinct(h0: Heap, cg: nat, segs: seq<Seg>, fwd: map<nat, nat>, a: nat, c: nat)
    requires WellFormed(h0) && PlacesOk(h0, cg, segs, fwd) && CopiesApart(h0, fwd)
    requires a in fwd && c in fwd && fwd[a] == fwd[c]
    ensures a == c
  {
    assert PlaceOk(h0, cg, segs, a, fwd[a]);
    ObjectWords(h0, a);
    forall x | x in fwd && x != a ensures fwd[x] != fwd[a] {
      assert PlaceOk(h0, cg, segs, x, fwd[x]);
      ObjectWords(h0, x);
      assert Clear(h0, a, fwd[a], fwd[x], fwd[x] + SizeOf(h0, x));
    }
  }

  /** The image of a good word is a good word of the heap after the collection. */
  lemma GoodImage(h0: Heap, cg: nat, s: St, v: Word, u: Word)
    requires Inv(h0, cg, s) && forall a :: a in s.fwd ==> a in h0.objs
    requires GoodWord(h0.objs, v) && IsWeakImage(cg, s.segs, s.fwd, v, u)
    ensures GoodWord(NextObjs(h0, cg, s.segs, s.fwd), u)
  {
    hide Inv;
    NextObjsAt(h0, cg, s);
  }

  lemma ImageIsWeakImage(cg: nat, segs: seq<Seg>, fwd: map<nat, nat>, v: Word, u: Word)
    requires IsImage(cg, segs, fwd, v, u)
    ensures IsWeakImage(cg, segs, fwd, v, u)
  {
  }

  // ---------- Pages at the end ----------

  /** How a page ends up, by what it was during the collection. */
  lemma FinalPage(h0: Heap, cg: nat, s: St, p: nat)
    requires WellFormed(h0) && SegsStep(h0, cg, |s.mem|, s.segs) && cg <= OLDEST && p < |s.segs|
    ensures var f := FinalSegs(cg, s.segs)[p];
            && (s.segs[p].gen > cg && p < |h0.segs| && s.segs[p] == h0.segs[p] ==> f == h0.segs[p] && f.gen == FinalGen(s.segs[p]))
            && (s.segs[p].gen >= NEW_GEN_TAG ==> f == s.segs[p].(gen := NextGen(cg)) && f.gen == FinalGen(s.segs[p]))
            && (s.segs[p].gen <= cg ==> f == HOLE_SEG || (f == h0.segs[p] && p < |h0.segs| && !Generational(f.typ)))
            && (p >= |h0.segs| ==> s.segs[p].gen >= NEW_GEN_TAG)
            && (p < |h0.segs| && s.segs[p] != h0.segs[p] ==> s.segs[p] == Tagged(cg, Pointers, true) && h0.segs[p].large)
  {
    if p < |h0.segs| {
      assert s.segs[p] == h0.segs[p] || s.segs[p] == Tagged(cg, Pointers, true);
    } else {
      assert s.segs[p] == Tagged(cg, s.segs[p].typ, s.segs[p].large);
    }
  }

  lemma FinalSegsGood(h0: Heap, cg: nat, s: St)
    requires WellFormed(h0) && SegsStep(h0, cg, |s.mem|, s.segs) && cg <= OLDEST
    ensures SegsGood(FinalSegs(cg, s.segs))
  {
    var f := FinalSegs(cg, s.segs);
    forall p {:trigger f[p]} | 0 <= p < |f|
      ensures f[p].gen <= OLDEST && (f[p].gen >= 1 ==> f[p].nib == GenBit(f[p].gen)) && (f[p].large ==> f[p].typ == Pointers && f[p].gen >= 1) && (f[p].gen >= 1 ==> Generational(f[p].typ))
    {
      FinalPage(h0, cg, s, p);
      assert p >= |h0.segs| ==> s.segs[p] == Tagged(cg, s.segs[p].typ, s.segs[p].large);
    }
  }

  /** An object that stays is on pages of one kind, before and after. */
  lemma StayingPages(h0: Heap, cg: nat, s: St, a: nat)
    requires WellFormed(h0) && SegsStep(h0, cg, |s.mem|, s.segs) && cg <= OLDEST
    requires SourcesOk(h0, cg, s.segs, s.src, s.raw) && PromotedTraced(h0, cg, s.segs, s.src)
    requires a in h0.objs && Older(cg, s.segs, a)
    ensures a + SizeOf(h0, a) <= |h0.mem| <= 512 * |FinalSegs(cg, s.segs)|
    ensures PagesAre(FinalSegs(cg, s.segs), a, a + SizeOf(h0, a), SegOf(FinalSegs(cg, s.segs), a))
    ensures Older(cg, h0.segs, a) ==> SegOf(FinalSegs(cg, s.segs), a) == SegOf(h0.segs, a)
    ensures !Older(cg, h0.segs, a) ==> SegOf(FinalSegs(cg, s.segs), a) == Tagged(cg, Pointers, true).(gen := NextGen(cg)) && SegOf(h0.segs, a).large
  {
    var f := FinalSegs(cg, s.segs);
    ObjectWords(h0, a);
    assert ObjectOk(h0, a);
    forall w {:trigger SegOf(f, w)} | a <= w < a + SizeOf(h0, a)
      ensures SegOf(f, w) == if Older(cg, h0.segs, a) then SegOf(h0.segs, a) else Tagged(cg, Pointers, true).(gen := NextGen(cg))
    {
      assert SegOf(h0.segs, w) == SegOf(h0.segs, a);
      FinalPage(h0, cg, s, w / 512);
      if !Older(cg, h0.segs, a) { PromotedPad(h0, cg, s, a, w); }
    }
    FinalPage(h0, cg, s, a / 512);
  }

  lemma PromotedPad(h0: Heap, cg: nat, s: St, a: nat, w: nat)
    requires WellFormed(h0) && SegsStep(h0, cg, |s.mem|, s.segs)
    requires SourcesOk(h0, cg, s.segs, s.src, s.raw) && PromotedTraced(h0, cg, s.segs, s.src)
    requires a in h0.objs && Older(cg, s.segs, a) && !Older(cg, h0.segs, a)
    requires a <= w < a + SizeOf(h0, a)
    ensures Older(cg, s.segs, w)
  {
    ObjectWords(h0, a);
    assert SizeOf(h0, a) == Align(UsedOf(h0, a));
    hide WellFormed, SegsStep, SizeOf, UsedOf, GoodWord;
    if w < a + UsedOf(h0, a) {
      assert w in s.src;
    } else {
      PadPage(a, UsedOf(h0, a));
      var x := w - 1;
      assert x in s.src;
      assert Older(cg, s.segs, x);
    }
  }

  /** Padding is on the page of the word before it. */
  lemma PadPage(a: nat, n: nat)
    requires a % 2 == 0 && 0 < n && Align(n) == n + 1
    ensures (a + n) / 512 == (a + n - 1) / 512
  {
    SamePage(a + n - 1);
  }

  // ---------- Objects at the end ----------

  lemma StayingHeader(h0: Heap, cg: nat, s: St, mem: seq<Word>, a: nat)
    requires Traced(h0, cg, s) && WeakFixed(h0, cg, s, mem, |mem|)
    requires a in h0.objs && Older(cg, s.segs, a)
    ensures a < |mem| && (h0.objs[a] != PairKind ==> mem[a] == h0.mem[a] && h0.mem[a].Imm?)
    ensures Used(mem, h0.objs[a], a) == UsedOf(h0, a) && Size(mem, h0.objs[a], a) == SizeOf(h0, a)
  {
    ObjectWords(h0, a);
    if a in s.src {
      SurvivorWord(h0, cg, s, mem, a);
    } else {
      SameWord(h0, cg, s, mem, a);
    }
  }

  lemma CopyHeader(h0: Heap, cg: nat, s: St, mem: seq<Word>, a: nat)
    requires Traced(h0, cg, s) && WeakFixed(h0, cg, s, mem, |mem|) && a in s.fwd && a in h0.objs
    ensures s.fwd[a] < |mem| && (h0.objs[a] != PairKind ==> mem[s.fwd[a]] == h0.mem[a] && h0.mem[a].Imm?)
    ensures Used(mem, h0.objs[a], s.fwd[a]) == UsedOf(h0, a) && Size(mem, h0.objs[a], s.fwd[a]) == SizeOf(h0, a)
  {
    hide Inv;
    InvCopyHead(h0, cg, s, a);
    SurvivorWord(h0, cg, s, mem, s.fwd[a]);
  }

  lemma CopyHead(h0: Heap, fwd: map<nat, nat>, src: map<nat, nat>, raw: set<nat>, a: nat)
    requires WellFormed(h0) && CopiesTraced(h0, fwd, src, raw) && a in fwd && a in h0.objs
    ensures fwd[a] in src && src[fwd[a]] == a && a < |h0.mem|
    ensures h0.objs[a] != PairKind ==> h0.mem[a].Imm? && h0.mem[a].n >= 0
  {
    ObjectWords(h0, a);
  }

  lemma InvCopyHead(h0: Heap, cg: nat, s: St, a: nat)
    requires Inv(h0, cg, s) && a in s.fwd && a in h0.objs
    ensures s.fwd[a] in s.src && s.src[s.fwd[a]] == a && a < |h0.mem|
    ensures h0.objs[a] != PairKind ==> h0.mem[a].Imm? && h0.mem[a].n >= 0
  {
    hide CopiesTraced, WellFormed;
    CopyHead(h0, s.fwd, s.src, s.raw, a);
  }

  lemma StayingObjectOk(h0: Heap, cg: nat, s: St, mem: seq<Word>, a: nat)
    requires Traced(h0, cg, s) && WeakFixed(h0, cg, s, mem, |mem|)
    requires forall a :: a in s.fwd ==> a in h0.objs
    requires a in h0.objs && Older(cg, s.segs, a)
    ensures var h1 := NextHeap(h0, cg, s, mem); |h1.mem| == 512 * |h1.segs| && a in h1.objs && h1.objs[a] == h0.objs[a] && ObjectOk(h1, a)
  {
    StayingHeader(h0, cg, s, mem, a);
    StayingPages(h0, cg, s, a);
    NextObjsAt(h0, cg, s);
    assert ObjectOk(h0, a);
  }

  lemma CopyPages(h0: Heap, cg: nat, s: St, a: nat)
    requires WellFormed(h0) && SegsStep(h0, cg, |s.mem|, s.segs) && cg <= OLDEST && PlacesOk(h0, cg, s.segs, s.fwd)
    requires a in s.fwd
    ensures PagesAre(FinalSegs(cg, s.segs), s.fwd[a], s.fwd[a] + SizeOf(h0, a), SegOf(FinalSegs(cg, s.segs), s.fwd[a]))
    ensures SegOf(FinalSegs(cg, s.segs), s.fwd[a]) == SegOf(s.segs, s.fwd[a]).(gen := NextGen(cg))
  {
    var f, b := FinalSegs(cg, s.segs), s.fwd[a];
    assert PlaceOk(h0, cg, s.segs, a, b);
    FinalPage(h0, cg, s, b / 512);
    forall w {:trigger SegOf(f, w)} | b <= w < b + SizeOf(h0, a) ensures SegOf(f, w) == SegOf(f, b) {
      assert SegOf(s.segs, w) == SegOf(s.segs, b);
      FinalPage(h0, cg, s, w / 512);
    }
  }

  lemma CopyObjectOk(h0: Heap, cg: nat, s: St, mem: seq<Word>, a: nat)
    requires Traced(h0, cg, s) && WeakFixed(h0, cg, s, mem, |mem|)
    requires forall a :: a in s.fwd ==> a in h0.objs
    requires a in s.fwd
    ensures var h1 := NextHeap(h0, cg, s, mem); |h1.mem| == 512 * |h1.segs| && s.fwd[a] in h1.objs && h1.objs[s.fwd[a]] == h0.objs[a] && ObjectOk(h1, s.fwd[a])
  {
    CopyHeader(h0, cg, s, mem, a);
    CopyPages(h0, cg, s, a);
    NextObjsAt(h0, cg, s);
    assert PlaceOk(h0, cg, s.segs, a, s.fwd[a]);
  }

  // ---------- The heap after the collection is well formed ----------

  lemma NextObjectsOk(h0: Heap, cg: nat, s: St, mem: seq<Word>)
    requires Traced(h0, cg, s) && WeakFixed(h0, cg, s, mem, |mem|)
    requires forall a :: a in s.fwd ==> a in h0.objs
    ensures var h1 := NextHeap(h0, cg, s, mem); |h1.mem| == 512 * |h1.segs| && ObjectsOk(h1)
  {
    hide Inv, Traced, WeakFixed;
    NextSizes(h0, cg, s, mem);
    NextObjsAt(h0, cg, s);
    var h1 := NextHeap(h0, cg, s, mem);
    forall b | b in h1.objs ensures ObjectOk(h1, b) {
      if b in s.fwd.Values {
        CopyObjectOk(h0, cg, s, mem, Origin(s.fwd, b));
      } else {
        StayingObjectOk(h0, cg, s, mem, b);
      }
    }
  }

  lemma NextSizes(h0: Heap, cg: nat, s: St, mem: seq<Word>)
    requires Traced(h0, cg, s) && WeakFixed(h0, cg, s, mem, |mem|)
    ensures Inv(h0, cg, s) && |mem| == |s.mem| == 512 * |s.segs| && |h0.mem| == 512 * |h0.segs| <= |mem| && 1 <= |h0.segs| && WellFormed(h0) && s.todo.Ok()
  {
  }

  /** The extent of an object of the next heap. */
  lemma NextExtent(h0: Heap, cg: nat, s: St, mem: seq<Word>, b: nat)
    requires Traced(h0, cg, s) && WeakFixed(h0, cg, s, mem, |mem|)
    requires forall a :: a in s.fwd ==> a in h0.objs
    requires b in NextObjs(h0, cg, s.segs, s.fwd)
    ensures var h1 := NextHeap(h0, cg, s, mem);
            && b < |mem|
            && (b < |h0.mem| ==> b in h0.objs && Older(cg, s.segs, b) && h1.objs[b] == h0.objs[b]
                                 && Used(mem, h1.objs[b], b) == UsedOf(h0, b) && Size(mem, h1.objs[b], b) == SizeOf(h0, b) && b + SizeOf(h0, b) <= |h0.mem|)
            && (b >= |h0.mem| ==> b in s.fwd.Values && h1.objs[b] == h0.objs[Origin(s.fwd, b)]
                                  && Used(mem, h1.objs[b], b) == UsedOf(h0, Origin(s.fwd, b)) && Size(mem, h1.objs[b], b) == SizeOf(h0, Origin(s.fwd, b)))
  {
    hide Inv, WeakFixed;
    NextSizes(h0, cg, s, mem);
    NextObjsAt(h0, cg, s);
    if b < |h0.mem| {
      StayingHeader(h0, cg, s, mem, b);
      ObjectWords(h0, b);
    } else {
      CopyHeader(h0, cg, s, mem, Origin(s.fwd, b));
    }
  }

  lemma NextApart(h0: Heap, cg: nat, s: St, mem: seq<Word>)
    requires Traced(h0, cg, s) && WeakFixed(h0, cg, s, mem, |mem|)
    requires forall a :: a in s.fwd ==> a in h0.objs
    ensures var h1 := NextHeap(h0, cg, s, mem); |h1.mem| == 512 * |h1.segs| && ObjectsOk(h1) && ObjectsApart(h1)
  {
    hide Inv, WeakFixed, Traced;
    NextObjectsOk(h0, cg, s, mem);
    NextSizes(h0, cg, s, mem);
    var h1 := NextHeap(h0, cg, s, mem);
    forall a, b | a in h1.objs && b in h1.objs && a < b ensures a + Size(mem, h1.objs[a], a) <= b {
      NextExtent(h0, cg, s, mem, a);
      NextExtent(h0, cg, s, mem, b);
      if a >= |h0.mem| {
        CopiesApartAt(h0, cg, s, Origin(s.fwd, a), Origin(s.fwd, b));
      }
    }
  }

  lemma CopiesApartAt(h0: Heap, cg: nat, s: St, a: nat, c: nat)
    requires Inv(h0, cg, s) && a in s.fwd && c in s.fwd && s.fwd[a] < s.fwd[c]
    ensures s.fwd[a] + SizeOf(h0, a) <= s.fwd[c]
  {
    SizesPositive(h0, cg, s, c);
    assert Clear(h0, a, s.fwd[a], s.fwd[c], s.fwd[c] + SizeOf(h0, c));
    assert Clear(h0, c, s.fwd[c], s.fwd[a], s.fwd[a] + SizeOf(h0, a));
  }

  lemma SizesPositive(h0: Heap, cg: nat, s: St, c: nat)
    requires Inv(h0, cg, s) && c in s.fwd
    ensures 0 < SizeOf(h0, c)
  {
    assert PlaceOk(h0, cg, s.segs, c, s.fwd[c]);
    ObjectWords(h0, c);
  }

  /** Any word that survives is a good word of the next heap. */
  lemma NextGood(h0: Heap, cg: nat, s: St, mem: seq<Word>, w: nat)
    requires Traced(h0, cg, s) && WeakFixed(h0, cg, s, mem, |mem|)
    requires forall a :: a in s.fwd ==> a in h0.objs
    requires w in s.src
    ensures w < |mem| && GoodWord(NextObjs(h0, cg, s.segs, s.fwd), mem[w])
  {
    SurvivorWord(h0, cg, s, mem, w);
    GoodImage(h0, cg, s, h0.mem[s.src[w]], mem[w]);
  }

  /** A word of an object that stays. */
  lemma StayingWord(h0: Heap, cg: nat, s: St, mem: seq<Word>, dirty: seq<seq<bv4>>, a: nat, w: nat)
    requires Finished(h0, cg, s, mem, dirty) && forall a :: a in s.fwd ==> a in h0.objs
    requires a in h0.objs && Older(cg, s.segs, a) && a <= w < a + UsedOf(h0, a)
    ensures w < |mem|
    ensures if h0.objs[a] == DataKind then mem[w].Imm? else GoodWord(NextObjs(h0, cg, s.segs, s.fwd), mem[w])
  {
    ObjectWords(h0, a);
    assert ObjectOk(h0, a);
    assert SegOf(h0.segs, w) == SegOf(h0.segs, a);
    assert a in h0.objs && h0.mem[w] == h0.mem[w];
    if w in s.src {
      SurvivorWord(h0, cg, s, mem, w);
      NextGood(h0, cg, s, mem, w);
    } else {
      StayingUntouched(h0, cg, s, mem, dirty, a, w);
    }
  }

  lemma StayingUntouched(h0: Heap, cg: nat, s: St, mem: seq<Word>, dirty: seq<seq<bv4>>, a: nat, w: nat)
    requires Finished(h0, cg, s, mem, dirty) && forall a :: a in s.fwd ==> a in h0.objs
    requires a in h0.objs && Older(cg, s.segs, a) && a <= w < a + UsedOf(h0, a) && w < |h0.mem|
    requires SegOf(h0.segs, w) == SegOf(h0.segs, a) && w !in s.src && TypeFits(h0.objs[a], SegOf(h0.segs, a).typ)
    requires if h0.objs[a] == DataKind then h0.mem[w].Imm? else GoodWord(h0.objs, h0.mem[w])
    ensures w < |mem| && mem[w] == h0.mem[w]
    ensures GoodWord(NextObjs(h0, cg, s.segs, s.fwd), mem[w])
  {
    hide PagesDone;
    StaysOld(h0, cg, s, a, w);
    SameWord(h0, cg, s, mem, w);
    if h0.mem[w].Ptr? {
      OldWordDone(h0, cg, s, mem, dirty, w);
      NextObjsAt(h0, cg, s);
      OlderStays(h0, cg, s, h0.mem[w].addr);
    }
  }

  /** Words of objects promoted in place have all been looked at. */
  lemma StaysOld(h0: Heap, cg: nat, s: St, a: nat, w: nat)
    requires Inv(h0, cg, s) && a in h0.objs && Older(cg, s.segs, a) && a <= w < a + UsedOf(h0, a) && w !in s.src && w < |h0.mem|
    requires SegOf(h0.segs, w) == SegOf(h0.segs, a)
    ensures Older(cg, h0.segs, w)
  {
  }

  /** What the dirty cards say of a word of an older page. */
  lemma OldWordDone(h0: Heap, cg: nat, s: St, mem: seq<Word>, dirty: seq<seq<bv4>>, w: nat)
    requires Finished(h0, cg, s, mem, dirty)
    requires w < |h0.mem| && Older(cg, h0.segs, w) && Scannable(SegOf(h0.segs, w).typ)
    ensures w < 512 * |dirty| && WordDone(h0, cg, s.segs, s.fwd, s.src, CardBits(dirty, w), w)
  {
    hide Inv, WeakFixed, PagesDone, WordDone;
    NextSizes(h0, cg, s, mem);
    PageWordDone(h0, cg, s, dirty, w);
  }

  /** A word of a copy. */
  lemma CopyWord(h0: Heap, cg: nat, s: St, mem: seq<Word>, a: nat, w: nat)
    requires Traced(h0, cg, s) && WeakFixed(h0, cg, s, mem, |mem|) && forall a :: a in s.fwd ==> a in h0.objs
    requires a in s.fwd && s.fwd[a] <= w < s.fwd[a] + UsedOf(h0, a)
    ensures w in s.src && s.src[w] == a + (w - s.fwd[a]) && w < |mem|
    ensures if h0.objs[a] == DataKind then mem[w].Imm? else GoodWord(NextObjs(h0, cg, s.segs, s.fwd), mem[w])
  {
    hide Inv;
    CopyTrace(h0, cg, s, a, w);
    SurvivorWord(h0, cg, s, mem, w);
    NextGood(h0, cg, s, mem, w);
  }

  lemma CopyTrace(h0: Heap, cg: nat, s: St, a: nat, w: nat)
    requires Inv(h0, cg, s) && s.raw == {} && a in s.fwd && a in h0.objs && s.fwd[a] <= w < s.fwd[a] + UsedOf(h0, a)
    ensures w in s.src && s.src[w] == a + (w - s.fwd[a]) && s.src[w] < |h0.mem|
    ensures h0.objs[a] == DataKind ==> h0.mem[s.src[w]].Imm?
  {
    TracedWord(h0, s.fwd, s.src, s.raw, a, w);
  }

  lemma TracedWord(h0: Heap, fwd: map<nat, nat>, src: map<nat, nat>, raw: set<nat>, a: nat, w: nat)
    requires WellFormed(h0) && CopiesTraced(h0, fwd, src, raw) && w !in raw && a in fwd && a in h0.objs && fwd[a] <= w < fwd[a] + UsedOf(h0, a)
    ensures w in src && src[w] == a + (w - fwd[a]) && src[w] < |h0.mem|
    ensures h0.objs[a] == DataKind ==> h0.mem[src[w]].Imm?
  {
    ObjectWords(h0, a);
    assert a in fwd;
    var x := a + (w - fwd[a]);
    assert h0.mem[x] == h0.mem[x];
  }

  lemma NextContents(h0: Heap, cg: nat, s: St, mem: seq<Word>, dirty: seq<seq<bv4>>)
    requires Finished(h0, cg, s, mem, dirty) && forall a :: a in s.fwd ==> a in h0.objs
    ensures var h1 := NextHeap(h0, cg, s, mem); |h1.mem| == 512 * |h1.segs| && ObjectsOk(h1) && ContentsGood(h1)
  {
    hide Inv, Traced, WeakFixed, PagesDone;
    NextObjectsOk(h0, cg, s, mem);
    NextSizes(h0, cg, s, mem);
    var h1 := NextHeap(h0, cg, s, mem);
    forall b, w | b in h1.objs && b <= w < b + Used(mem, h1.objs[b], b)
      ensures w < |mem| && if h1.objs[b] == DataKind then mem[w].Imm? else GoodWord(h1.objs, mem[w])
    {
      NextExtent(h0, cg, s, mem, b);
      if b < |h0.mem| {
        StayingWord(h0, cg, s, mem, dirty, b, w);
      } else {
        CopyWord(h0, cg, s, mem, Origin(s.fwd, b), w);
      }
    }
  }

  /** A scanned page of a generation other than the nursery: it stays, or it is new. */
  lemma NextPage(h0: Heap, cg: nat, s: St, w: nat)
    requires Inv(h0, cg, s) && w < 512 * |s.segs| && SegOf(FinalSegs(cg, s.segs), w).gen >= 1
    ensures Older(cg, s.segs, w) && SegOf(FinalSegs(cg, s.segs), w).gen == FinalGen(SegOf(s.segs, w))
    ensures SegOf(FinalSegs(cg, s.segs), w).typ == SegOf(s.segs, w).typ
    ensures w < |h0.mem| ==> SegOf(s.segs, w).typ == SegOf(h0.segs, w).typ && SegOf(h0.segs, w).gen >= 1 && Fixed(h0, cg, w)
    ensures w < |h0.mem| && Older(cg, h0.segs, w) ==> SegOf(s.segs, w) == SegOf(h0.segs, w)
    ensures !(w < |h0.mem| && Older(cg, h0.segs, w)) ==> SegOf(FinalSegs(cg, s.segs), w).gen == NextGen(cg)
  {
    FinalPage(h0, cg, s, w / 512);
    assert w < |h0.mem| ==> SegOf(h0.segs, w) == h0.segs[w / 512];
  }

  /** A word of a page that stays, outside the objects or not. */
  lemma OldPageWord(h0: Heap, cg: nat, s: St, mem: seq<Word>, w: nat)
    requires Traced(h0, cg, s) && WeakFixed(h0, cg, s, mem, |mem|) && forall a :: a in s.fwd ==> a in h0.objs
    requires w < |h0.mem| && Older(cg, s.segs, w) && Fixed(h0, cg, w) && Scannable(SegOf(h0.segs, w).typ) && SegOf(h0.segs, w).gen >= 1
    ensures w < |mem|
    ensures mem[w].Imm? || exists a :: a in h0.objs && Older(cg, s.segs, a) && a <= w < a + UsedOf(h0, a)
  {
    assert h0.mem[w].Imm? || Covered(h0, w);
    if h0.mem[w].Imm? {
      if w in s.src { SurvivorWord(h0, cg, s, mem, w); } else { SameWord(h0, cg, s, mem, w); }
    } else {
      var a :| a in h0.objs && a <= w < a + Used(h0.mem, h0.objs[a], a);
      assert ObjectOk(h0, a);
      assert Older(cg, s.segs, a);
      assert a in h0.objs && Older(cg, s.segs, a) && a <= w < a + UsedOf(h0, a);
    }
  }

  /** A word of a new scanned page. */
  lemma NewPageWord(h0: Heap, cg: nat, s: St, mem: seq<Word>, w: nat)
    requires Traced(h0, cg, s) && WeakFixed(h0, cg, s, mem, |mem|)
    requires |h0.mem| <= w < |s.mem| && Scannable(SegOf(s.segs, w).typ)
    ensures w < |mem| && (mem[w].Imm? || (w in s.src && InCopy(h0, s.fwd, w)))
  {
    assert w in s.src || s.mem[w].Imm? || FreeWord(s.todo.meta, w);
    if FreeWord(s.todo.meta, w) {
      var id :| Free(s.todo.meta, id, w);
      assert TailClear(s.mem, s.todo.meta[id]);
    }
    assert w !in s.src ==> mem[w] == s.mem[w];
  }

  lemma NextPagesGood(h0: Heap, cg: nat, s: St, mem: seq<Word>)
    requires Traced(h0, cg, s) && WeakFixed(h0, cg, s, mem, |mem|) && forall a :: a in s.fwd ==> a in h0.objs
    ensures var h1 := NextHeap(h0, cg, s, mem); |h1.mem| == 512 * |h1.segs| && ObjectsOk(h1) && PagesGood(h1)
  {
    hide Inv, Traced, WeakFixed, WellFormed, Used, FinalSegs, NextObjs;
    NextObjectsOk(h0, cg, s, mem);
    NextSizes(h0, cg, s, mem);
    var h1 := NextHeap(h0, cg, s, mem);
    forall w {:trigger mem[w]} | 0 <= w < |mem| && Scannable(SegOf(h1.segs, w).typ) && SegOf(h1.segs, w).gen >= 1
      ensures mem[w].Imm? || Covered(h1, w)
    {
      NextPageWord(h0, cg, s, mem, w);
      if !mem[w].Imm? {
        var b :| b in h1.objs && b < |mem| && b <= w < b + Used(mem, h1.objs[b], b);
        assert b in h1.objs && b <= w < b + Used(h1.mem, h1.objs[b], b);
      }
    }
  }

  /** A word of a scanned page of the next heap, if it is a reference, belongs to an object. */
  lemma NextPageWord(h0: Heap, cg: nat, s: St, mem: seq<Word>, w: nat)
    requires Traced(h0, cg, s) && WeakFixed(h0, cg, s, mem, |mem|) && forall a :: a in s.fwd ==> a in h0.objs
    requires w < |mem| == 512 * |s.segs| && Scannable(SegOf(FinalSegs(cg, s.segs), w).typ) && SegOf(FinalSegs(cg, s.segs), w).gen >= 1
    ensures var objs := NextObjs(h0, cg, s.segs, s.fwd);
            mem[w].Imm? || exists b :: b in objs && b < |mem| && b <= w < b + Used(mem, objs[b], b)
  {
    hide Inv, Traced, WeakFixed, WellFormed, Used, UsedOf;
    NextSizes(h0, cg, s, mem);
    NextObjsAt(h0, cg, s);
    NextPage(h0, cg, s, w);
    var objs := NextObjs(h0, cg, s.segs, s.fwd);
    if w < |h0.mem| {
      OldPageWord(h0, cg, s, mem, w);
      if !mem[w].Imm? {
        var a :| a in h0.objs && Older(cg, s.segs, a) && a <= w < a + UsedOf(h0, a);
        NextExtent(h0, cg, s, mem, a);
        assert a in objs && a < |mem| && a <= w < a + Used(mem, objs[a], a);
      }
    } else {
      NewPageWord(h0, cg, s, mem, w);
      if !mem[w].Imm? {
        var a :| a in s.fwd && s.fwd[a] <= w < s.fwd[a] + UsedOf(h0, a);
        CopyHeader(h0, cg, s, mem, a);
        assert s.fwd[a] in objs && s.fwd[a] < |mem| && s.fwd[a] <= w < s.fwd[a] + Used(mem, objs[s.fwd[a]], s.fwd[a]);
      }
    }
  }

  /** What a collection leaves behind is a well-formed heap. */
  lemma NextWellFormed(h0: Heap, cg: nat, s: St, mem: seq<Word>, dirty: seq<seq<bv4>>)
    requires Finished(h0, cg, s, mem, dirty)
    ensures forall a :: a in s.fwd ==> a in h0.objs
    ensures WellFormed(NextHeap(h0, cg, s, mem))
  {
    hide Inv, Traced, WeakFixed, PagesDone, ObjectsOk, ObjectsApart, ContentsGood, PagesGood, SegsGood;
    NextSizes(h0, cg, s, mem);
    MovedAre(h0, cg, s);
    NextApart(h0, cg, s, mem);
    NextContents(h0, cg, s, mem, dirty);
    NextPagesGood(h0, cg, s, mem);
    NextSegs(h0, cg, s);
  }

  lemma NextSegs(h0: Heap, cg: nat, s: St)
    requires Inv(h0, cg, s)
    ensures SegsGood(FinalSegs(cg, s.segs))
  {
    FinalSegsGood(h0, cg, s);
  }

  // ---------- The remembered set ----------

  /** The dirty vector after the pages that are not used have been given back. */
  function FinalDirty(cg: nat, segs: seq<Seg>, dirty: seq<seq<bv4>>): (r: seq<seq<bv4>>)
    requires |dirty| == |segs|
    ensures |r| == |dirty| && forall p {:trigger r[p]} :: 0 <= p < |r| ==> r[p] == if Freed(cg, segs[p]) != segs[p] then PURE_PAGE else dirty[p]
  {
    seq(|dirty|, p requires 0 <= p < |dirty| => if Freed(cg, segs[p]) != segs[p] then PURE_PAGE else dirty[p])
  }

  /** The generation of what an image refers to. */
  lemma ImageGen(h0: Heap, cg: nat, s: St, v: Word, u: Word)
    requires Inv(h0, cg, s) && IsWeakImage(cg, s.segs, s.fwd, v, u) && u.Ptr?
    ensures u.addr < 512 * |s.segs|
    ensures SegOf(FinalSegs(cg, s.segs), u.addr).gen == FinalGen(SegOf(s.segs, u.addr)) >= NextGen(cg)
    ensures SegOf(FinalSegs(cg, s.segs), u.addr).gen <= OLDEST
  {
    assert IsImage(cg, s.segs, s.fwd, v, u);
    ImagePage(h0, cg, s, v, u);
    FinalPage(h0, cg, s, u.addr / 512);
  }

  /** A survivor on a new or promoted page refers to nothing younger than its page. */
  lemma NewRecorded(h0: Heap, cg: nat, s: St, mem: seq<Word>, bits: bv4, w: nat)
    requires Traced(h0, cg, s) && WeakFixed(h0, cg, s, mem, |mem|) && w in s.src
    ensures w < |mem| && Recorded(FinalSegs(cg, s.segs), bits, NextGen(cg), mem[w])
  {
    hide Inv;
    SurvivorWord(h0, cg, s, mem, w);
    if mem[w].Ptr? {
      ImageGen(h0, cg, s, h0.mem[s.src[w]], mem[w]);
    }
  }

  /** A word of an older page is recorded as the dirty scan left it. */
  lemma OldRecorded(h0: Heap, cg: nat, s: St, mem: seq<Word>, dirty: seq<seq<bv4>>, w: nat)
    requires Finished(h0, cg, s, mem, dirty)
    requires w < |h0.mem| && Older(cg, h0.segs, w) && Scannable(SegOf(h0.segs, w).typ)
    ensures w < |mem| && w < 512 * |dirty| && Recorded(FinalSegs(cg, s.segs), CardBits(dirty, w), SegOf(h0.segs, w).gen, mem[w])
  {
    hide Inv, PagesDone;
    OldWordDone(h0, cg, s, mem, dirty, w);
    NextSizes(h0, cg, s, mem);
    var v := h0.mem[w];
    if w in s.src {
      InvSource(h0, cg, s, w);
      SurvivorWord(h0, cg, s, mem, w);
      ImageIsImageOf(cg, s.segs, s.fwd, v, mem[w]);
    } else {
      SameWord(h0, cg, s, mem, w);
      if v.Ptr? { NotMoved(h0, cg, s, v.addr); }
    }
    if mem[w].Ptr? {
      ImageIsWeakImage(cg, s.segs, s.fwd, v, mem[w]);
      ImageGen(h0, cg, s, v, mem[w]);
    }
  }

  lemma NotMoved(h0: Heap, cg: nat, s: St, a: nat)
    requires Inv(h0, cg, s) && Older(cg, h0.segs, a)
    ensures a !in s.fwd
  {
    OldNotMoved(h0, cg, s, a);
  }

  lemma InvSource(h0: Heap, cg: nat, s: St, w: nat)
    requires Inv(h0, cg, s) && w in s.src && w < |h0.mem|
    ensures s.src[w] == w && !WeakCar(|h0.mem|, s.segs, w)
  {
  }

  /** After the collection, every card with a reference to a younger generation says so. */
  lemma NextCardsSound(h0: Heap, cg: nat, s: St, mem: seq<Word>, dirty: seq<seq<bv4>>)
    requires Finished(h0, cg, s, mem, dirty) && forall a :: a in s.fwd ==> a in h0.objs
    ensures var h1 := NextHeap(h0, cg, s, mem); |h1.mem| == 512 * |h1.segs| && CardsSound(h1, FinalDirty(cg, s.segs, dirty))
  {
    hide Inv, Traced, WeakFixed, PagesDone;
    NextSizes(h0, cg, s, mem);
    var h1 := NextHeap(h0, cg, s, mem);
    var d := FinalDirty(cg, s.segs, dirty);
    forall w {:trigger h1.mem[w]} | 0 <= w < |h1.mem| && Scannable(SegOf(h1.segs, w).typ) && SegOf(h1.segs, w).gen >= 1
      ensures Recorded(h1.segs, CardBits(d, w), SegOf(h1.segs, w).gen, h1.mem[w])
    {
      NextPage(h0, cg, s, w);
      WordRecorded(h0, cg, s, mem, dirty, d, w);
    }
  }

  lemma WordRecorded(h0: Heap, cg: nat, s: St, mem: seq<Word>, dirty: seq<seq<bv4>>, d: seq<seq<bv4>>, w: nat)
    requires Finished(h0, cg, s, mem, dirty) && d == FinalDirty(cg, s.segs, dirty) && Shaped(d) && forall a :: a in s.fwd ==> a in h0.objs
    requires w < |mem| == 512 * |s.segs| && Scannable(SegOf(FinalSegs(cg, s.segs), w).typ) && SegOf(FinalSegs(cg, s.segs), w).gen >= 1
    ensures Recorded(FinalSegs(cg, s.segs), CardBits(d, w), SegOf(FinalSegs(cg, s.segs), w).gen, mem[w])
  {
    hide Inv, WeakFixed, PagesDone;
    NextSizes(h0, cg, s, mem);
    NextPage(h0, cg, s, w);
    if w in s.src && !(w < |h0.mem| && Older(cg, h0.segs, w)) {
      NewRecorded(h0, cg, s, mem, CardBits(d, w), w);
    } else if w < |h0.mem| && Older(cg, h0.segs, w) {
      OldRecorded(h0, cg, s, mem, dirty, w);
      NotFreed(h0, cg, s, dirty, w);
    } else if w < |h0.mem| {
      InvPromotedTail(h0, cg, s, w);
      SameWord(h0, cg, s, mem, w);
    } else {
      NewPageWord(h0, cg, s, mem, w);
    }
  }

  lemma InvPromotedTail(h0: Heap, cg: nat, s: St, w: nat)
    requires Inv(h0, cg, s) && w < |h0.mem| && Scannable(SegOf(h0.segs, w).typ) && SegOf(h0.segs, w).gen >= 1
    requires Older(cg, s.segs, w) && !Older(cg, h0.segs, w) && w !in s.src
    ensures h0.mem[w].Imm?
  {
    PromotedTail(h0, cg, s, w);
  }

  lemma NotFreed(h0: Heap, cg: nat, s: St, dirty: seq<seq<bv4>>, w: nat)
    requires Inv(h0, cg, s) && |dirty| == |s.segs| && Shaped(dirty) && Shaped(FinalDirty(cg, s.segs, dirty))
    requires w < |h0.mem| && Older(cg, h0.segs, w)
    ensures w < 512 * |dirty| && CardBits(FinalDirty(cg, s.segs, dirty), w) == CardBits(dirty, w)
  {
    FinalPage(h0, cg, s, w / 512);
    assert SegOf(h0.segs, w) == h0.segs[w / 512];
  }
}
