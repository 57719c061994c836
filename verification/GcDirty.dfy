/** Scanning the dirty cards of older pages, and what the dirty vector has to record. */
module GcDirty {
  import opened Memory
  import opened GcState
  import opened GcSteps
  import opened GcMoves
  import opened GcAlloc
  import opened GcReach
  import opened GcGather
  import opened GcScan
  import opened GcLoop

  // ---------- Cards ----------

  /** One nibble of DIRTY_MASK. */
  function DirtyNibble(cg: nat): bv4 {
    if cg == 0 then 8 else if cg == 1 then 12 else if cg == 2 then 14 else if cg == 3 then 15 else 0
  }

  /** One nibble of CLEANUP_MASK. The table has five entries; a page promoted while the dirty pages are being
      scanned has NEW_GEN_TAG in its generation, and what is read past the table is unknown. */
  function CleanupNibble(gen: nat, stray: bv4): bv4 {
    if gen == 0 then 0 else if gen == 1 then 8 else if gen == 2 then 12 else if gen == 3 then 14 else if gen == 4 then 15 else stray
  }

  /** The generation of a page when the collection is over. */
  function FinalGen(seg: Seg): nat {
    if seg.gen >= NEW_GEN_TAG then seg.gen - NEW_GEN_TAG else seg.gen
  }

  ghost predicate Shaped(dirty: seq<seq<bv4>>) {
    forall p {:trigger dirty[p]} :: 0 <= p < |dirty| ==> |dirty[p]| == 8
  }

  /** The nibble of the card that holds the word w. */
  function CardBits(dirty: seq<seq<bv4>>, w: nat): bv4
    requires Shaped(dirty) && w < 512 * |dirty|
  {
    dirty[w / 512][(w % 512) / 64]
  }

  /** If u refers to a generation younger than g, the bits say so. */
  predicate Recorded(segs: seq<Seg>, bits: bv4, g: nat, u: Word) {
    u.Ptr? && u.addr < 512 * |segs| && FinalGen(SegOf(segs, u.addr)) < g ==> bits & GenBit(FinalGen(SegOf(segs, u.addr))) != 0
  }

  /** Every card with a reference to a younger generation has the bit of that generation set. */
  ghost predicate CardsSound(h: Heap, dirty: seq<seq<bv4>>)
    requires |h.mem| == 512 * |h.segs|
  {
    && |dirty| == |h.segs| && Shaped(dirty)
    && (forall w {:trigger h.mem[w]} :: 0 <= w < |h.mem| && Scannable(SegOf(h.segs, w).typ) && SegOf(h.segs, w).gen >= 1 ==>
          Recorded(h.segs, CardBits(dirty, w), SegOf(h.segs, w).gen, h.mem[w]))
  }

  // ---------- Bits ----------

  lemma OrKeeps(x: bv4, y: bv4, b: bv4)
    ensures x & b != 0 ==> (x | y) & b != 0
    ensures y & b != 0 ==> (x | y) & b != 0
  {
  }

  lemma CleanupKeeps(x: bv4, k: nat, g: nat, stray: bv4)
    requires k < g <= 4
    ensures (x & CleanupNibble(g, stray)) & GenBit(k) == x & GenBit(k)
  {
  }

  lemma MaskCovers(x: bv4, k: nat, cg: nat)
    requires k <= cg <= 3 && x & DirtyNibble(cg) == 0
    ensures x & GenBit(k) == 0
  {
  }

  lemma SameBit(k: nat)
    requires k <= 3
    ensures GenBit(k) & GenBit(k) != 0
  {
  }

  lemma CardIndex(w: nat, p: nat, c: nat)
    requires 512 * p + 64 * c <= w < 512 * p + 64 * c + 64 && c < 8
    ensures w / 512 == p && (w % 512) / 64 == c
  {
  }

  // ---------- Writing the image of a word of an older page ----------

  function ImageOf(fwd: map<nat, nat>, v: Word): Word {
    if v.Ptr? && v.addr in fwd then Ptr(v.kind, fwd[v.addr]) else v
  }

  lemma ImageIsImageOf(cg: nat, segs: seq<Seg>, fwd: map<nat, nat>, v: Word, u: Word)
    requires IsImage(cg, segs, fwd, v, u)
    ensures u == ImageOf(fwd, v)
  {
  }

  function Touch(s: St, w: nat, u: Word): St
    requires w < |s.mem|
  {
    s.(mem := s.mem[w := u], src := s.src[w := w])
  }

  lemma TouchColours(h0: Heap, cg: nat, s: St, w: nat, u: Word)
    requires s.todo.Ok() && w < |h0.mem| <= |s.mem| && IsImage(cg, s.segs, s.fwd, h0.mem[w], u)
    requires ColoursOk(h0, cg, s.mem, s.segs, s.fwd, s.src, s.todo)
    ensures ColoursOk(h0, cg, s.mem[w := u], s.segs, s.fwd, s.src[w := w], s.todo)
  {
  }

  lemma TouchTraces(h0: Heap, cg: nat, s: St, w: nat, u: Word)
    requires w < |h0.mem| && Older(cg, s.segs, w) && GoodWord(h0.objs, h0.mem[w])
    requires PlacesOk(h0, cg, s.segs, s.fwd)
    requires forall x {:trigger x in s.raw} :: x in s.raw ==> |h0.mem| <= x
    requires CopiesTraced(h0, s.fwd, s.src, s.raw) && SourcesOk(h0, cg, s.segs, s.src, s.raw) && SrcInCopies(h0, s.fwd, s.src)
    ensures CopiesTraced(h0, s.fwd, s.src[w := w], s.raw) && SourcesOk(h0, cg, s.segs, s.src[w := w], s.raw)
    ensures SrcInCopies(h0, s.fwd, s.src[w := w])
  {
    forall a | a in s.fwd ensures |h0.mem| <= s.fwd[a] { assert PlaceOk(h0, cg, s.segs, a, s.fwd[a]); }
  }

  lemma TouchRegions(h0: Heap, cg: nat, s: St, w: nat, u: Word)
    requires s.todo.Ok() && w < |h0.mem| <= |s.mem| == 512 * |s.segs| && MetasOk(h0, cg, s.segs, s.todo.meta)
    requires FreeOk(h0, s.fwd, s.src, s.raw, s.todo.meta) && RangesOk(h0, cg, s.segs, s.src, s.todo)
    requires NewPagesOk(h0, s.mem, s.segs, s.src, s.raw, s.todo.meta)
    ensures FreeOk(h0, s.fwd, s.src[w := w], s.raw, s.todo.meta) && RangesOk(h0, cg, s.segs, s.src[w := w], s.todo)
    ensures NewPagesOk(h0, s.mem[w := u], s.segs, s.src[w := w], s.raw, s.todo.meta)
  {
    forall i, x: nat | Free(s.todo.meta, i, x) ensures x != w { assert MetaOk(h0, cg, s.segs, i, s.todo.meta[i]); }
    forall i, r | RangeOk(h0, cg, s.segs, s.src, s.todo.meta, i, r) ensures RangeOk(h0, cg, s.segs, s.src[w := w], s.todo.meta, i, r) {
      forall x | r.p <= x < r.q ensures Older(cg, s.segs, x) && (if x < |h0.mem| then x in s.src[w := w] else SegOf(s.segs, x).typ == Pointers) {
        assert Older(cg, s.segs, x);
      }
    }
    var mem' := s.mem[w := u];
    forall x {:trigger mem'[x]} | |h0.mem| <= x < |mem'| && Scannable(SegOf(s.segs, x).typ)
      ensures x in s.src[w := w] || mem'[x].Imm? || x in s.raw || FreeWord(s.todo.meta, x)
    {
      assert s.mem[x] == mem'[x];
    }
  }

  lemma TouchKeepsInv(h0: Heap, cg: nat, s: St, w: nat, u: Word)
    requires Inv(h0, cg, s) && w < |h0.mem| && Older(cg, s.segs, w) && GoodWord(h0.objs, h0.mem[w])
    requires IsImage(cg, s.segs, s.fwd, h0.mem[w], u)
    ensures w < |s.mem| && Inv(h0, cg, Touch(s, w, u)) && Onward(cg, s, Touch(s, w, u))
  {
    hide WellFormed, SegsStep, PlacesOk, MarksOk, CopiesApart, WhiteIntact, OldIntact, ObjectsWhole, CopiesTraced, PromotedTraced, SrcInCopies, ColoursOk, MetasOk, FreeOk,
      RangesOk, NewPagesOk, IsImage, GoodWord;
    StSizes(h0, cg, s);
    NewRaw(h0, s);
    var t := Touch(s, w, u);
    TouchColours(h0, cg, s, w, u);
    TouchTraces(h0, cg, s, w, u);
    TouchRegions(h0, cg, s, w, u);
    WriteMarks(h0, cg, s.mem, s.segs, s.fwd, w, u);
    WriteWhites(h0, cg, s.mem, s.segs, s.fwd, w, u);
    OldIntactKept(h0, cg, s.mem, t.mem, s.src, t.src);
    MorePromoted(h0, cg, s.segs, s.src, t.src);
    InvFromParts(h0, cg, s, t);
    TouchOnward(cg, s, w, u);
  }

  lemma TouchOnward(cg: nat, s: St, w: nat, u: Word)
    requires w < |s.mem| && (w in s.src ==> s.src[w] == w)
    ensures Onward(cg, s, Touch(s, w, u))
  {
    hide Agenda.Waiting;
  }

  /** The references on pages that are not collected are roots. */
  ghost predicate PagesWanted(h0: Heap, cg: nat, keep: set<nat>)
    requires |h0.mem| == 512 * |h0.segs|
  {
    forall w {:trigger h0.mem[w]} :: 0 <= w < |h0.mem| && Older(cg, h0.segs, w) && Scannable(SegOf(h0.segs, w).typ) ==>
      Wanted(h0, cg, keep, h0.mem[w])
  }

  lemma ScannableGood(h0: Heap, w: nat)
    requires WellFormed(h0) && w < |h0.mem| && Scannable(SegOf(h0.segs, w).typ) && SegOf(h0.segs, w).gen >= 1
    ensures GoodWord(h0.objs, h0.mem[w])
  {
    assert h0.mem[w].Imm? || Covered(h0, w);
    if !h0.mem[w].Imm? {
      var a :| a in h0.objs && a <= w < a + Used(h0.mem, h0.objs[a], a);
      assert a in h0.objs && h0.mem[w] == h0.mem[w];
    }
  }

  /** The pages that are scanned for dirty cards: older ones, and large vectors that have been promoted. */
  ghost predicate DirtyPage(h0: Heap, cg: nat, segs: seq<Seg>, w: nat) {
    && w < |h0.mem| == 512 * |h0.segs| && Older(cg, segs, w)
    && SegOf(h0.segs, w).gen >= 1 && Scannable(SegOf(h0.segs, w).typ)
  }

  lemma DirtyWordKnown(h0: Heap, cg: nat, keep: set<nat>, s: St, w: nat)
    requires Inv(h0, cg, s) && KeptOk(h0, cg, s.segs, s.fwd, s.src, keep) && PagesWanted(h0, cg, keep)
    requires DirtyPage(h0, cg, s.segs, w)
    ensures w < |s.mem| && GoodWord(h0.objs, h0.mem[w])
    ensures w in s.src ==> s.src[w] == w
    ensures w !in s.src ==> s.mem[w] == h0.mem[w]
    ensures w !in s.src && !Older(cg, h0.segs, w) ==> s.mem[w].Imm?
    ensures Known(h0, s.fwd, s.mem[w]) && Wanted(h0, cg, keep, s.mem[w]) && Wanted(h0, cg, keep, h0.mem[w])
  {
    ScannableGood(h0, w);
    assert s.segs[w / 512] == h0.segs[w / 512] || h0.segs[w / 512].large;
    assert Fixed(h0, cg, w);
    if w in s.src {
      SurvivorKnown(h0, cg, keep, s, w);
    } else {
      assert s.mem[w] == h0.mem[w];
      if !Older(cg, h0.segs, w) { PromotedTail(h0, cg, s, w); }
    }
  }

  /** On the pages of a promoted vector, only the words of the vector may be references. */
  lemma PromotedTail(h0: Heap, cg: nat, s: St, w: nat)
    requires WellFormed(h0) && SegsStep(h0, cg, |s.mem|, s.segs) && PromotedTraced(h0, cg, s.segs, s.src) && ObjectsWhole(h0, cg, s.segs)
    requires w < |h0.mem| && Scannable(SegOf(h0.segs, w).typ) && SegOf(h0.segs, w).gen >= 1
    requires Older(cg, s.segs, w) && !Older(cg, h0.segs, w) && w !in s.src
    ensures h0.mem[w].Imm?
  {
    assert h0.mem[w].Imm? || Covered(h0, w);
    if Covered(h0, w) {
      var a :| a in h0.objs && a <= w < a + Used(h0.mem, h0.objs[a], a);
      PromotedWord(h0, cg, s, a, w);
    }
  }

  lemma PromotedWord(h0: Heap, cg: nat, s: St, a: nat, w: nat)
    requires WellFormed(h0) && SegsStep(h0, cg, |s.mem|, s.segs) && PromotedTraced(h0, cg, s.segs, s.src) && ObjectsWhole(h0, cg, s.segs)
    requires a in h0.objs && a <= w < a + UsedOf(h0, a) && w < |h0.mem|
    requires Older(cg, s.segs, w) && !Older(cg, h0.segs, w)
    ensures w in s.src
  {
    assert ObjectOk(h0, a);
    assert SegOf(h0.segs, w) == SegOf(h0.segs, a);
    assert Older(cg, s.segs, a);
  }

  // ---------- What is known of a word whose card has been dealt with ----------

  /** The image of the word is settled, it is recorded in the bits, and if it is not the word itself it has been written. */
  ghost predicate WordDone(h0: Heap, cg: nat, segs: seq<Seg>, fwd: map<nat, nat>, src: map<nat, nat>, bits: bv4, w: nat)
    requires w < |h0.mem| == 512 * |h0.segs|
  {
    && IsImage(cg, segs, fwd, h0.mem[w], ImageOf(fwd, h0.mem[w]))
    && Recorded(segs, bits, SegOf(h0.segs, w).gen, ImageOf(fwd, h0.mem[w]))
    && (w in src || (h0.mem[w].Ptr? ==> Older(cg, h0.segs, h0.mem[w].addr)))
  }

  lemma ImagePage(h0: Heap, cg: nat, s: St, v: Word, u: Word)
    requires WellFormed(h0) && SegsStep(h0, cg, |s.mem|, s.segs) && PlacesOk(h0, cg, s.segs, s.fwd) && cg <= OLDEST
    requires IsImage(cg, s.segs, s.fwd, v, u) && u.Ptr?
    ensures Older(cg, s.segs, u.addr)
    ensures SegOf(s.segs, u.addr).nib == GenBit(FinalGen(SegOf(s.segs, u.addr)))
    ensures FinalGen(SegOf(s.segs, u.addr)) > cg || FinalGen(SegOf(s.segs, u.addr)) == OLDEST
    ensures SegOf(s.segs, u.addr).gen <= OLDEST || SegOf(s.segs, u.addr).gen == NextGen(cg) + NEW_GEN_TAG
  {
    var a := v.addr;
    if a in s.fwd {
      assert PlaceOk(h0, cg, s.segs, a, s.fwd[a]);
      NewPageOlder(h0, cg, |s.mem|, s.segs, s.fwd[a]);
    }
    var p := u.addr / 512;
    assert SegOf(s.segs, u.addr) == s.segs[p];
    if p < |h0.segs| { assert s.segs[p] == h0.segs[p] || s.segs[p] == Tagged(cg, Pointers, true); }
  }

  lemma WordDoneKept(h0: Heap, cg: nat, s: St, t: St, bits: bv4, w: nat)
    requires Inv(h0, cg, s) && Inv(h0, cg, t) && Onward(cg, s, t)
    requires w < |h0.mem| == 512 * |h0.segs|
    requires WordDone(h0, cg, s.segs, s.fwd, s.src, bits, w)
    ensures WordDone(h0, cg, t.segs, t.fwd, t.src, bits, w)
  {
    var v := h0.mem[w];
    var u := ImageOf(s.fwd, v);
    ImageKept(h0, cg, s, t, v, u);
    ImageIsImageOf(cg, t.segs, t.fwd, v, u);
    if u.Ptr? {
      ImagePage(h0, cg, s, v, u);
      assert t.segs[u.addr / 512] == s.segs[u.addr / 512];
    }
  }

  /** A card without any bit for the collected generations refers to none of them. */
  lemma PureWord(h0: Heap, cg: nat, s: St, dirty: seq<seq<bv4>>, w: nat)
    requires Inv(h0, cg, s) && CardsSound(h0, dirty) && w < |h0.mem| && Older(cg, h0.segs, w) && Scannable(SegOf(h0.segs, w).typ)
    requires CardBits(dirty, w) & DirtyNibble(cg) == 0
    ensures WordDone(h0, cg, s.segs, s.fwd, s.src, CardBits(dirty, w), w)
  {
    ScannableGood(h0, w);
    assert SegOf(h0.segs, w) == h0.segs[w / 512];
    var v, g := h0.mem[w], SegOf(h0.segs, w).gen;
    assert Recorded(h0.segs, CardBits(dirty, w), g, v);
    if v.Ptr? {
      assert ObjectOk(h0, v.addr);
      var k := SegOf(h0.segs, v.addr).gen;
      if k <= cg {
        MaskCovers(CardBits(dirty, w), k, cg);
        assert false;
      }
      assert s.segs[v.addr / 512] == h0.segs[v.addr / 512];
      OldNotMoved(h0, cg, s, v.addr);
    }
  }

  lemma OldNotMoved(h0: Heap, cg: nat, s: St, a: nat)
    requires PlacesOk(h0, cg, s.segs, s.fwd) && Older(cg, h0.segs, a)
    ensures a !in s.fwd
  {
    assert forall c :: c in s.fwd ==> PlaceOk(h0, cg, s.segs, c, s.fwd[c]);
  }

  // ---------- One word of a dirty card ----------

  lemma DirtyImm(h0: Heap, cg: nat, s: St, bits: bv4, w: nat)
    requires Inv(h0, cg, s) && w < |h0.mem| && DirtyPage(h0, cg, s.segs, w) && w < |s.mem| && s.mem[w].Imm?
    requires w in s.src ==> s.src[w] == w
    requires w !in s.src ==> s.mem[w] == h0.mem[w]
    ensures WordDone(h0, cg, s.segs, s.fwd, s.src, bits, w)
  {
    assert GoodWord(h0.objs, h0.mem[w]) by { ScannableGood(h0, w); }
    assert w in s.src ==> s.src[w] == w;
    assert h0.mem[w].Imm?;
  }

  lemma OnwardOlder(cg: nat, s: St, t: St, w: nat)
    requires Onward(cg, s, t) && Older(cg, s.segs, w)
    ensures Older(cg, t.segs, w)
  {
    assert t.segs[w / 512] == t.segs[w / 512];
  }

  lemma DirtyImage(h0: Heap, cg: nat, s: St, t: St, w: nat, x: Word, y: Word)
    requires Inv(h0, cg, s) && Gathered(h0, cg, s, t) && DirtyPage(h0, cg, s.segs, w) && w < |s.mem| && x == s.mem[w] && x.Ptr?
    requires w in s.src ==> s.src[w] == w
    requires w !in s.src ==> s.mem[w] == h0.mem[w]
    requires IsImage(cg, t.segs, t.fwd, x, y)
    ensures Onward(cg, s, t) && t.raw == s.raw && t.todo.work == s.todo.work
    ensures Older(cg, t.segs, w) && IsImage(cg, t.segs, t.fwd, h0.mem[w], y) && y.Ptr? && y.addr / 512 < |t.segs|
  {
    LaterOnward(cg, s, t);
    if w in s.src {
      ScansSurvivor(h0, cg, s, t, w, y);
    }
    OnwardOlder(cg, s, t, w);
    if x.addr in t.fwd { assert PlaceOk(h0, cg, t.segs, x.addr, t.fwd[x.addr]); }
  }

  lemma TouchKept(h0: Heap, cg: nat, keep: set<nat>, t: St, w: nat, y: Word)
    requires Inv(h0, cg, t) && w < |h0.mem| && Older(cg, t.segs, w) && GoodWord(h0.objs, h0.mem[w])
    requires IsImage(cg, t.segs, t.fwd, h0.mem[w], y)
    requires KeptOk(h0, cg, t.segs, t.fwd, t.src, keep)
    requires Wanted(h0, cg, keep, h0.mem[w])
    ensures w < |t.mem| && Inv(h0, cg, Touch(t, w, y)) && Onward(cg, t, Touch(t, w, y))
    ensures KeptOk(h0, cg, t.segs, t.fwd, Touch(t, w, y).src, keep)
  {
    TouchKeepsInv(h0, cg, t, w, y);
  }

  lemma DirtyRecorded(h0: Heap, cg: nat, s: St, t: St, w: nat, y: Word, bits: bv4)
    requires Inv(h0, cg, t) && Onward(cg, s, t) && w < |h0.mem| && w < |t.mem|
    requires IsImage(cg, t.segs, t.fwd, h0.mem[w], y) && y.Ptr? && y.addr / 512 < |t.segs|
    requires Onward(cg, t, Touch(t, w, y))
    ensures Onward(cg, s, Touch(t, w, y))
    ensures (bits | t.segs[y.addr / 512].nib) | bits == bits | t.segs[y.addr / 512].nib
    ensures SegOf(h0.segs, w).gen <= OLDEST
    ensures WordDone(h0, cg, t.segs, t.fwd, Touch(t, w, y).src, bits | t.segs[y.addr / 512].nib, w)
  {
    OnwardTrans(cg, s, t, Touch(t, w, y));
    ImageIsImageOf(cg, t.segs, t.fwd, h0.mem[w], y);
    ImagePage(h0, cg, t, h0.mem[w], y);
    var nib := SegOf(t.segs, y.addr).nib;
    var k := FinalGen(SegOf(t.segs, y.addr));
    assert SegOf(h0.segs, w) == h0.segs[w / 512];
    if k < SegOf(h0.segs, w).gen {
      SameBit(k);
      OrKeeps(bits, nib, GenBit(k));
    }
    OrAbsorbs(bits, nib);
  }

  lemma OrAbsorbs(x: bv4, y: bv4)
    ensures (x | y) | x == x | y
  {
  }

  // ---------- The words of a card, of a page, of all pages ----------

  /** All the words from lo to hi that are not collected have been dealt with. */
  ghost predicate RangeDone(h0: Heap, cg: nat, s: St, bits: bv4, lo: nat, hi: nat)
    requires |h0.mem| == 512 * |h0.segs|
  {
    forall w {:trigger WordDone(h0, cg, s.segs, s.fwd, s.src, bits, w)} :: lo <= w < hi && w < |h0.mem| && Older(cg, h0.segs, w) ==>
      WordDone(h0, cg, s.segs, s.fwd, s.src, bits, w)
  }

  lemma RangeGrows(h0: Heap, cg: nat, s: St, t: St, bits: bv4, bits': bv4, lo: nat, w: nat)
    requires Inv(h0, cg, s) && Inv(h0, cg, t) && Onward(cg, s, t) && w < |h0.mem|
    requires RangeDone(h0, cg, s, bits, lo, w) && bits' | bits == bits'
    requires Older(cg, h0.segs, w) ==> WordDone(h0, cg, t.segs, t.fwd, t.src, bits', w)
    ensures RangeDone(h0, cg, t, bits', lo, w + 1)
  {
    hide Inv, Onward;
    InvSizes(h0, cg, s);
    forall x | lo <= x < w + 1 && x < |h0.mem| && Older(cg, h0.segs, x)
      ensures WordDone(h0, cg, t.segs, t.fwd, t.src, bits', x)
    {
      if x < w {
        WordDoneKept(h0, cg, s, t, bits, x);
        MoreBits(h0, t.segs, bits, bits', SegOf(h0.segs, x).gen, ImageOf(t.fwd, h0.mem[x]));
      }
    }
  }

  lemma InvSizes(h0: Heap, cg: nat, s: St)
    requires Inv(h0, cg, s)
    ensures |h0.mem| == 512 * |h0.segs| <= |s.mem| == 512 * |s.segs| && s.todo.Ok() && WellFormed(h0) && cg <= OLDEST
  {
  }

  lemma MoreBits(h0: Heap, segs: seq<Seg>, bits: bv4, bits': bv4, g: nat, u: Word)
    requires Recorded(segs, bits, g, u) && bits' | bits == bits'
    ensures Recorded(segs, bits', g, u)
  {
    if u.Ptr? && u.addr < 512 * |segs| { OrKeeps(bits', bits, GenBit(FinalGen(SegOf(segs, u.addr)))); }
  }

  lemma RangeDoneKept(h0: Heap, cg: nat, s: St, t: St, bits: bv4, lo: nat, hi: nat)
    requires Inv(h0, cg, s) && Inv(h0, cg, t) && Onward(cg, s, t) && |h0.mem| == 512 * |h0.segs|
    requires RangeDone(h0, cg, s, bits, lo, hi)
    ensures RangeDone(h0, cg, t, bits, lo, hi)
  {
    hide Inv, Onward;
    forall x | lo <= x < hi && x < |h0.mem| && Older(cg, h0.segs, x)
      ensures WordDone(h0, cg, t.segs, t.fwd, t.src, bits, x)
    {
      WordDoneKept(h0, cg, s, t, bits, x);
    }
  }

  /** The first n cards of page p have been dealt with, and bits is what has been collected for each. */
  ghost predicate CardsDone(h0: Heap, cg: nat, s: St, bits: seq<bv4>, p: nat)
    requires |h0.mem| == 512 * |h0.segs|
  {
    forall c {:trigger bits[c]} :: 0 <= c < |bits| ==> RangeDone(h0, cg, s, bits[c], 512 * p + 64 * c, 512 * p + 64 * c + 64)
  }

  lemma CardsDoneGrow(h0: Heap, cg: nat, s: St, t: St, bits: seq<bv4>, b: bv4, p: nat)
    requires Inv(h0, cg, s) && Inv(h0, cg, t) && Onward(cg, s, t) && |h0.mem| == 512 * |h0.segs|
    requires CardsDone(h0, cg, s, bits, p)
    requires RangeDone(h0, cg, t, b, 512 * p + 64 * |bits|, 512 * p + 64 * |bits| + 64)
    ensures CardsDone(h0, cg, t, bits + [b], p)
  {
    hide Inv, Onward, RangeDone;
    forall c {:trigger (bits + [b])[c]} | 0 <= c < |bits + [b]|
      ensures RangeDone(h0, cg, t, (bits + [b])[c], 512 * p + 64 * c, 512 * p + 64 * c + 64)
    {
      if c < |bits| { RangeDoneKept(h0, cg, s, t, bits[c], 512 * p + 64 * c, 512 * p + 64 * c + 64); }
    }
  }

  lemma PureCard(h0: Heap, cg: nat, s: St, dirty: seq<seq<bv4>>, p: nat, c: nat)
    requires Inv(h0, cg, s) && |h0.mem| == 512 * |h0.segs| && CardsSound(h0, dirty) && p < |h0.segs| && c < 8 && Scannable(h0.segs[p].typ)
    requires dirty[p][c] & DirtyNibble(cg) == 0
    ensures RangeDone(h0, cg, s, dirty[p][c], 512 * p + 64 * c, 512 * p + 64 * c + 64)
  {
    hide Inv;
    forall w | 512 * p + 64 * c <= w < 512 * p + 64 * c + 64 && w < |h0.mem| && Older(cg, h0.segs, w)
      ensures WordDone(h0, cg, s.segs, s.fwd, s.src, dirty[p][c], w)
    {
      CardIndex(w, p, c);
      PureWord(h0, cg, s, dirty, w);
    }
  }

  /** Page p of the dirty vector records what the words of the page refer to. */
  ghost predicate PageDone(h0: Heap, cg: nat, s: St, page: seq<bv4>, p: nat)
    requires |h0.mem| == 512 * |h0.segs|
  {
    && |page| == 8
    && (p < |h0.segs| && h0.segs[p].gen > cg && Scannable(h0.segs[p].typ) ==> CardsDone(h0, cg, s, page, p))
  }

  function Cleaned(bits: seq<bv4>, gen: nat, stray: seq<bv4>): (r: seq<bv4>)
    requires |stray| == |bits|
    ensures |r| == |bits|
  {
    seq(|bits|, c requires 0 <= c < |bits| => bits[c] & CleanupNibble(gen, stray[c]))
  }

  lemma CleanedDone(h0: Heap, cg: nat, s: St, bits: seq<bv4>, gen: nat, stray: seq<bv4>, p: nat)
    requires |h0.mem| == 512 * |h0.segs| && |bits| == 8 == |stray| && CardsDone(h0, cg, s, bits, p) && p < |h0.segs| && gen == h0.segs[p].gen <= 4
    ensures CardsDone(h0, cg, s, Cleaned(bits, gen, stray), p)
  {
    var r := Cleaned(bits, gen, stray);
    forall c {:trigger r[c]} | 0 <= c < |r| ensures RangeDone(h0, cg, s, r[c], 512 * p + 64 * c, 512 * p + 64 * c + 64) {
      assert RangeDone(h0, cg, s, bits[c], 512 * p + 64 * c, 512 * p + 64 * c + 64);
      forall w | 512 * p + 64 * c <= w < 512 * p + 64 * c + 64 && w < |h0.mem| && Older(cg, h0.segs, w)
        ensures WordDone(h0, cg, s.segs, s.fwd, s.src, r[c], w)
      {
        assert WordDone(h0, cg, s.segs, s.fwd, s.src, bits[c], w);
        CardIndex(w, p, c);
        CleanedRecorded(s.segs, bits[c], gen, stray[c], ImageOf(s.fwd, h0.mem[w]));
      }
    }
  }

  lemma CleanedRecorded(segs: seq<Seg>, bits: bv4, gen: nat, stray: bv4, u: Word)
    requires gen <= 4 && Recorded(segs, bits, gen, u)
    ensures Recorded(segs, bits & CleanupNibble(gen, stray), gen, u)
  {
    if u.Ptr? && u.addr < 512 * |segs| && FinalGen(SegOf(segs, u.addr)) < gen {
      CleanupKeeps(bits, FinalGen(SegOf(segs, u.addr)), gen, stray);
    }
  }

  lemma PageDoneKept(h0: Heap, cg: nat, s: St, t: St, page: seq<bv4>, p: nat)
    requires Inv(h0, cg, s) && Inv(h0, cg, t) && Onward(cg, s, t) && |h0.mem| == 512 * |h0.segs|
    requires PageDone(h0, cg, s, page, p)
    ensures PageDone(h0, cg, t, page, p)
  {
    hide Inv, Onward, RangeDone;
    if p < |h0.segs| && h0.segs[p].gen > cg && Scannable(h0.segs[p].typ) {
      forall c {:trigger page[c]} | 0 <= c < |page| ensures RangeDone(h0, cg, t, page[c], 512 * p + 64 * c, 512 * p + 64 * c + 64) {
        RangeDoneKept(h0, cg, s, t, page[c], 512 * p + 64 * c, 512 * p + 64 * c + 64);
      }
    }
  }

  /** The first n pages have been dealt with. */
  ghost predicate PagesDone(h0: Heap, cg: nat, s: St, dirty: seq<seq<bv4>>, n: nat)
    requires |h0.mem| == 512 * |h0.segs|
  {
    n <= |dirty| && forall p {:trigger dirty[p]} :: 0 <= p < n ==> PageDone(h0, cg, s, dirty[p], p)
  }

  /** What the dirty cards say of a word of an older page. */
  lemma PageWordDone(h0: Heap, cg: nat, s: St, dirty: seq<seq<bv4>>, w: nat)
    requires |h0.mem| == 512 * |h0.segs| && Shaped(dirty) && PagesDone(h0, cg, s, dirty, |h0.segs|)
    requires w < |h0.mem| && Older(cg, h0.segs, w) && Scannable(SegOf(h0.segs, w).typ)
    ensures w < 512 * |dirty| && WordDone(h0, cg, s.segs, s.fwd, s.src, CardBits(dirty, w), w)
  {
    var p, c := w / 512, (w % 512) / 64;
    assert PageDone(h0, cg, s, dirty[p], p);
    assert RangeDone(h0, cg, s, dirty[p][c], 512 * p + 64 * c, 512 * p + 64 * c + 64);
    assert WordDone(h0, cg, s.segs, s.fwd, s.src, dirty[p][c], w);
  }

  lemma PagesDoneKept(h0: Heap, cg: nat, s: St, t: St, d: seq<seq<bv4>>, e: seq<seq<bv4>>, n: nat)
    requires Inv(h0, cg, s) && Inv(h0, cg, t) && Onward(cg, s, t) && |h0.mem| == 512 * |h0.segs|
    requires PagesDone(h0, cg, s, d, n) && |d| <= |e| && forall p {:trigger e[p]} :: 0 <= p < n ==> e[p] == d[p]
    ensures PagesDone(h0, cg, t, e, n)
  {
    hide Inv, Onward, PageDone;
    forall p {:trigger e[p]} | 0 <= p < n ensures PageDone(h0, cg, t, e[p], p) {
      PageDoneKept(h0, cg, s, t, d[p], p);
    }
  }

  lemma PurePage(h0: Heap, cg: nat, s: St, dirty: seq<seq<bv4>>, p: nat)
    requires Inv(h0, cg, s) && |h0.mem| == 512 * |h0.segs| && CardsSound(h0, dirty) && p < |h0.segs| && |dirty[p]| == 8
    requires forall c {:trigger dirty[p][c]} :: 0 <= c < 8 ==> dirty[p][c] & DirtyNibble(cg) == 0
    ensures PageDone(h0, cg, s, dirty[p], p)
  {
    hide Inv, RangeDone;
    InvSizes(h0, cg, s);
    assert |dirty[p]| == 8;
    if Scannable(h0.segs[p].typ) {
      forall c {:trigger dirty[p][c]} | 0 <= c < 8 ensures RangeDone(h0, cg, s, dirty[p][c], 512 * p + 64 * c, 512 * p + 64 * c + 64) {
        PureCard(h0, cg, s, dirty, p, c);
      }
    }
  }

  lemma PageWord(h0: Heap, cg: nat, s: St, p: nat, w: nat)
    requires Inv(h0, cg, s) && p < |h0.segs| && p < |s.segs| && s.segs[p].gen > cg && Scannable(s.segs[p].typ)
    requires 512 * p <= w < 512 * p + 512
    ensures DirtyPage(h0, cg, s.segs, w)
  {
    assert w / 512 == p;
    assert s.segs[p] == h0.segs[p] || h0.segs[p].large;
  }

  lemma GrownShaped(d: seq<seq<bv4>>, e: seq<seq<bv4>>)
    requires Grown(d, e) && Shaped(d)
    ensures Shaped(e) && |d| <= |e| && forall p {:trigger e[p]} :: 0 <= p < |d| ==> e[p] == d[p]
  {
  }

  /** A promoted page stays promoted. */
  lemma OnwardPage(cg: nat, s: St, t: St, p: nat)
    requires Onward(cg, s, t) && p < |s.segs| && s.segs[p].gen > cg
    ensures p < |t.segs| && t.segs[p] == s.segs[p]
  {
    assert t.segs[p] == t.segs[p];
  }

  lemma CardsDoneGrowIf(h0: Heap, cg: nat, s: St, t: St, bits: seq<bv4>, b: bv4, p: nat)
    requires Inv(h0, cg, s) && Inv(h0, cg, t) && Onward(cg, s, t) && |h0.mem| == 512 * |h0.segs| && p < |h0.segs|
    requires Scannable(h0.segs[p].typ) ==> CardsDone(h0, cg, s, bits, p)
    requires Scannable(h0.segs[p].typ) ==> RangeDone(h0, cg, t, b, 512 * p + 64 * |bits|, 512 * p + 64 * |bits| + 64)
    ensures Scannable(h0.segs[p].typ) ==> CardsDone(h0, cg, t, bits + [b], p)
  {
    hide Inv, Onward, RangeDone, CardsDone;
    if Scannable(h0.segs[p].typ) { CardsDoneGrow(h0, cg, s, t, bits, b, p); }
  }

  lemma SkippedCard(h0: Heap, cg: nat, s: St, t: St, b: bv4, p: nat, c: nat)
    requires Inv(h0, cg, s) && Inv(h0, cg, t) && Onward(cg, s, t) && |h0.mem| == 512 * |h0.segs| && p < |h0.segs|
    requires Scannable(h0.segs[p].typ) ==> RangeDone(h0, cg, s, b, 512 * p + 64 * c, 512 * p + 64 * c + 64)
    ensures Scannable(h0.segs[p].typ) ==> RangeDone(h0, cg, t, b, 512 * p + 64 * c, 512 * p + 64 * c + 64)
  {
    hide Inv, Onward, RangeDone;
    if Scannable(h0.segs[p].typ) { RangeDoneKept(h0, cg, s, t, b, 512 * p + 64 * c, 512 * p + 64 * c + 64); }
  }

  /** The bits collected for an older page survive the cleanup; for a promoted page nothing has to be recorded. */
  lemma CleanedPage(h0: Heap, cg: nat, s: St, bits: seq<bv4>, stray: seq<bv4>, p: nat)
    requires Inv(h0, cg, s) && |h0.mem| == 512 * |h0.segs| && p < |h0.segs| && p < |s.segs| && |bits| == 8 == |stray|
    requires Scannable(h0.segs[p].typ) ==> CardsDone(h0, cg, s, bits, p)
    ensures PageDone(h0, cg, s, Cleaned(bits, s.segs[p].gen, stray), p)
  {
    hide RangeDone, CardsDone;
    if h0.segs[p].gen > cg && Scannable(h0.segs[p].typ) {
      assert s.segs[p] == h0.segs[p];
      CleanedDone(h0, cg, s, bits, s.segs[p].gen, stray, p);
    }
  }

  lemma PureCards(h0: Heap, cg: nat, s: St, dirty: seq<seq<bv4>>, p: nat)
    requires Inv(h0, cg, s) && |h0.mem| == 512 * |h0.segs| && CardsSound(h0, dirty) && p < |h0.segs| && |dirty[p]| == 8
    ensures forall c {:trigger dirty[p][c]} :: 0 <= c < 8 && dirty[p][c] & DirtyNibble(cg) == 0 && Scannable(h0.segs[p].typ) ==>
              RangeDone(h0, cg, s, dirty[p][c], 512 * p + 64 * c, 512 * p + 64 * c + 64)
  {
    hide Inv, RangeDone;
    forall c {:trigger dirty[p][c]} | 0 <= c < 8 && dirty[p][c] & DirtyNibble(cg) == 0 && Scannable(h0.segs[p].typ)
      ensures RangeDone(h0, cg, s, dirty[p][c], 512 * p + 64 * c, 512 * p + 64 * c + 64)
    {
      PureCard(h0, cg, s, dirty, p, c);
    }
  }

  /** A page that is not scanned: no bit for the collected generations, or not an older page. */
  lemma SkippedPage(h0: Heap, cg: nat, s: St, dirty: seq<seq<bv4>>, p: nat)
    requires Inv(h0, cg, s) && |h0.mem| == 512 * |h0.segs| && CardsSound(h0, dirty) && p < |h0.segs| && |dirty[p]| == 8 && p < |s.segs|
    requires (forall c {:trigger dirty[p][c]} :: 0 <= c < 8 ==> dirty[p][c] & DirtyNibble(cg) == 0) || s.segs[p].gen <= cg || !Scannable(s.segs[p].typ)
    ensures PageDone(h0, cg, s, dirty[p], p)
  {
    hide RangeDone, CardsDone;
    if s.segs[p].gen <= cg || !Scannable(s.segs[p].typ) {
      assert s.segs[p] == h0.segs[p] || h0.segs[p].gen <= cg;
    } else {
      PurePage(h0, cg, s, dirty, p);
    }
  }
}
