/** The program between collections: stores, allocations and mapped pages keep the heap well formed and its cards sound. */
module Mutator {
  import opened Memory
  import opened GcState
  import opened GcReach
  import opened GcGather
  import opened GcDirty
  import opened GcWeak
  import opened GcFinish

  // IK_DIRTY_WORD: every bit of every card.
  const DIRTY_PAGE: seq<bv4> := [15, 15, 15, 15, 15, 15, 15, 15]

  /** The heap is well formed, and no card hides a reference to a younger generation. */
  ghost predicate Sound(h: Heap, dirty: seq<seq<bv4>>) {
    WellFormed(h) && CardsSound(h, dirty)
  }

  // ---------- Writing a slot ----------

  function Written(h: Heap, w: nat, v: Word): Heap
    requires w < |h.mem|
  {
    h.(mem := h.mem[w := v])
  }

  /** IK_SIGNAL_DIRT_IN_PAGE_OF_POINTER */
  function Signalled(dirty: seq<seq<bv4>>, w: nat): seq<seq<bv4>>
    requires w < 512 * |dirty|
  {
    dirty[w / 512 := DIRTY_PAGE]
  }

  /** Slot i of object a may be written: the fields of a pair, the items of a vector, not its length. */
  predicate Slot(h: Heap, a: nat, i: nat) {
    a in h.objs && a + i < |h.mem| &&
    match h.objs[a]
    case PairKind => i < 2
    case VectorKind => 1 <= i && i < Used(h.mem, VectorKind, a)
    case DataKind => false
  }

  /** The slot is no other object's word. */
  lemma SlotAlone(h: Heap, a: nat, i: nat, c: nat)
    requires WellFormed(h) && Slot(h, a, i) && c in h.objs
    ensures c < |h.mem| && (c != a ==> !(c <= a + i < c + Size(h.mem, h.objs[c], c)))
    ensures h.objs[c] != PairKind ==> c != a + i
  {
    assert ObjectOk(h, c) && ObjectOk(h, a);
  }

  lemma WrittenSizes(h: Heap, a: nat, i: nat, v: Word, c: nat)
    requires WellFormed(h) && Slot(h, a, i) && c in h.objs
    ensures c < |h.mem| && Used(Written(h, a + i, v).mem, h.objs[c], c) == Used(h.mem, h.objs[c], c)
    ensures ObjectOk(Written(h, a + i, v), c)
  {
    SlotAlone(h, a, i, c);
    assert ObjectOk(h, c);
  }

  lemma WrittenWellFormed(h: Heap, a: nat, i: nat, v: Word)
    requires WellFormed(h) && Slot(h, a, i) && GoodWord(h.objs, v)
    ensures WellFormed(Written(h, a + i, v))
  {
    hide ObjectOk, ObjectsApart, ContentsGood, PagesGood, SegsGood;
    var k := Written(h, a + i, v);
    forall c | c in h.objs ensures ObjectOk(k, c) { WrittenSizes(h, a, i, v, c); }
    assert ObjectsOk(k);
    WrittenApart(h, a, i, v);
    WrittenContents(h, a, i, v);
    WrittenPages(h, a, i, v);
  }

  lemma WrittenApart(h: Heap, a: nat, i: nat, v: Word)
    requires WellFormed(h) && Slot(h, a, i) && ObjectsOk(Written(h, a + i, v))
    ensures ObjectsApart(Written(h, a + i, v))
  {
    hide ContentsGood, PagesGood, SegsGood;
    var k := Written(h, a + i, v);
    forall c, d | c in h.objs && d in h.objs && c < d ensures c + Size(k.mem, k.objs[c], c) <= d {
      WrittenSizes(h, a, i, v, c);
    }
  }

  lemma WrittenContents(h: Heap, a: nat, i: nat, v: Word)
    requires WellFormed(h) && Slot(h, a, i) && GoodWord(h.objs, v) && ObjectsOk(Written(h, a + i, v))
    ensures ContentsGood(Written(h, a + i, v))
  {
    hide ObjectsApart, PagesGood, SegsGood;
    var k := Written(h, a + i, v);
    forall c, w {:trigger c in k.objs, k.mem[w]} | c in h.objs && c <= w < c + Used(k.mem, k.objs[c], c)
      ensures if k.objs[c] == DataKind then k.mem[w].Imm? else GoodWord(k.objs, k.mem[w])
    {
      WrittenSizes(h, a, i, v, c);
      assert c in h.objs && h.mem[w] == h.mem[w];
      SlotAlone(h, a, i, c);
    }
  }

  lemma WrittenPages(h: Heap, a: nat, i: nat, v: Word)
    requires WellFormed(h) && Slot(h, a, i) && |Written(h, a + i, v).mem| == 512 * |h.segs| && ObjectsOk(Written(h, a + i, v))
    ensures PagesGood(Written(h, a + i, v))
  {
    var k := Written(h, a + i, v);
    WrittenSizes(h, a, i, v, a);
    forall w {:trigger k.mem[w]} | 0 <= w < |k.mem| && Scannable(SegOf(k.segs, w).typ) && SegOf(k.segs, w).gen >= 1
      ensures k.mem[w].Imm? || Covered(k, w)
    {
      if w == a + i {
        assert a in k.objs && a <= w < a + Used(k.mem, k.objs[a], a);
      } else if !k.mem[w].Imm? {
        assert h.mem[w] == k.mem[w];
        var c :| c in h.objs && c <= w < c + Used(h.mem, h.objs[c], c);
        WrittenSizes(h, a, i, v, c);
        assert c in k.objs && c <= w < c + Used(k.mem, k.objs[c], c);
      }
    }
  }

  lemma AllBits(k: nat)
    requires k <= 3
    ensures 15 as bv4 & GenBit(k) != 0
  {
  }

  lemma SignalledBits(dirty: seq<seq<bv4>>, w: nat, x: nat)
    requires Shaped(dirty) && w < 512 * |dirty| && x < 512 * |dirty|
    ensures Shaped(Signalled(dirty, w))
    ensures CardBits(Signalled(dirty, w), x) == if x / 512 == w / 512 then 15 else CardBits(dirty, x)
  {
  }

  /** A word is written and its page is marked: every card still records what it has to. */
  lemma MarkedWrite(h: Heap, dirty: seq<seq<bv4>>, w: nat, v: Word)
    requires |h.mem| == 512 * |h.segs| && SegsGood(h.segs) && CardsSound(h, dirty) && w < |h.mem|
    ensures CardsSound(Written(h, w, v), Signalled(dirty, w))
  {
    var k, d := Written(h, w, v), Signalled(dirty, w);
    SignalledBits(dirty, w, w);
    forall x {:trigger k.mem[x]} | 0 <= x < |k.mem| && Scannable(SegOf(k.segs, x).typ) && SegOf(k.segs, x).gen >= 1
      ensures Recorded(k.segs, CardBits(d, x), SegOf(k.segs, x).gen, k.mem[x])
    {
      SignalledBits(dirty, w, x);
      assert SegOf(k.segs, x) == k.segs[x / 512];
      if x / 512 == w / 512 {
        FullCard(k.segs, SegOf(k.segs, x).gen, k.mem[x]);
      } else {
        assert k.mem[x] == h.mem[x];
      }
    }
  }

  lemma FullCard(segs: seq<Seg>, g: nat, u: Word)
    requires g <= OLDEST
    ensures Recorded(segs, 15, g, u)
  {
    if u.Ptr? && u.addr < 512 * |segs| && FinalGen(SegOf(segs, u.addr)) < g { AllBits(FinalGen(SegOf(segs, u.addr))); }
  }

  /** A word that is not a reference has nothing to record. */
  lemma PlainWrite(h: Heap, dirty: seq<seq<bv4>>, w: nat, n: int)
    requires |h.mem| == 512 * |h.segs| && CardsSound(h, dirty) && w < |h.mem|
    ensures CardsSound(Written(h, w, Imm(n)), dirty)
  {
    var k := Written(h, w, Imm(n));
    forall x {:trigger k.mem[x]} | 0 <= x < |k.mem| && Scannable(SegOf(k.segs, x).typ) && SegOf(k.segs, x).gen >= 1
      ensures Recorded(k.segs, CardBits(dirty, x), SegOf(k.segs, x).gen, k.mem[x])
    {
      if x != w { assert k.mem[x] == h.mem[x]; }
    }
  }

  /** A slot is written and its page is marked: the dirty vector stays sound. */
  lemma WriteKeepsSound(h: Heap, dirty: seq<seq<bv4>>, a: nat, i: nat, v: Word)
    requires Sound(h, dirty) && Slot(h, a, i) && GoodWord(h.objs, v)
    ensures a + i < 512 * |dirty| && Sound(Written(h, a + i, v), Signalled(dirty, a + i))
  {
    hide CardsSound, ObjectsOk, ObjectsApart, ContentsGood, PagesGood, SegsGood;
    CardPages(h, dirty);
    WrittenWellFormed(h, a, i, v);
    MarkedWrite(h, dirty, a + i, v);
  }

  lemma CardPages(h: Heap, dirty: seq<seq<bv4>>)
    requires |h.mem| == 512 * |h.segs| && CardsSound(h, dirty)
    ensures |h.mem| == 512 * |dirty|
  {
  }

  /** A value that is not a reference may be written without marking the page. */
  lemma ImmWriteKeepsSound(h: Heap, dirty: seq<seq<bv4>>, a: nat, i: nat, n: int)
    requires Sound(h, dirty) && Slot(h, a, i)
    ensures Sound(Written(h, a + i, Imm(n)), dirty)
  {
    hide CardsSound, ObjectsOk, ObjectsApart, ContentsGood, PagesGood, SegsGood;
    WrittenWellFormed(h, a, i, Imm(n));
    PlainWrite(h, dirty, a + i, n);
  }

  // ---------- Allocating in the nursery ----------

  /** A new object at a, with the given words, on nursery pages that no object uses. */
  function Allocate(h: Heap, k: Kind, a: nat, words: seq<Word>): Heap
    requires a + |words| <= |h.mem|
  {
    h.(mem := h.mem[..a] + words + h.mem[a + |words|..], objs := h.objs[a := k])
  }

  ghost predicate MayAllocate(h: Heap, k: Kind, a: nat, words: seq<Word>)
    requires |h.mem| == 512 * |h.segs| && ObjectsOk(h)
  {
    && a % 2 == 0 && 0 < |words| && a + Align(|words|) <= |h.mem| && a !in h.objs
    && (forall w {:trigger SegOf(h.segs, w)} :: a <= w < a + Align(|words|) ==> SegOf(h.segs, w) == SegOf(h.segs, a))
    && SegOf(h.segs, a).typ == MainHeap && SegOf(h.segs, a).gen == 0 && !SegOf(h.segs, a).large
    && (forall c {:trigger c in h.objs} :: c in h.objs ==> c + Size(h.mem, h.objs[c], c) <= a || a + Align(|words|) <= c)
    && (if k == PairKind then |words| == 2 else words[0] == Imm(|words| - 1))
    && (forall i {:trigger words[i]} :: 0 <= i < |words| ==> if k == DataKind then words[i].Imm? else GoodWord(h.objs[a := k], words[i]))
  }

  lemma AllocatedSize(h: Heap, k: Kind, a: nat, words: seq<Word>)
    requires WellFormed(h) && MayAllocate(h, k, a, words)
    ensures Used(Allocate(h, k, a, words).mem, k, a) == |words|
    ensures ObjectOk(Allocate(h, k, a, words), a)
    ensures forall w :: 0 <= w < |h.mem| && !(a <= w < a + |words|) ==> Allocate(h, k, a, words).mem[w] == h.mem[w]
    ensures forall w :: a <= w < a + |words| ==> Allocate(h, k, a, words).mem[w] == words[w - a]
  {
    assert k != PairKind ==> Allocate(h, k, a, words).mem[a] == words[0];
  }

  lemma AllocatedAway(h: Heap, k: Kind, a: nat, words: seq<Word>, c: nat)
    requires WellFormed(h) && MayAllocate(h, k, a, words) && c in h.objs
    ensures c < |h.mem| && c + Size(h.mem, h.objs[c], c) <= |h.mem|
    ensures c + Size(h.mem, h.objs[c], c) <= a || a + |words| <= c
  {
    hide ObjectsApart, ContentsGood, PagesGood, SegsGood;
    assert ObjectOk(h, c);
  }

  lemma OthersSame(h: Heap, k: Kind, a: nat, words: seq<Word>, c: nat)
    requires WellFormed(h) && MayAllocate(h, k, a, words) && c in h.objs
    ensures c + Used(h.mem, h.objs[c], c) <= |h.mem| && c < |h.mem| && c != a
    ensures Used(Allocate(h, k, a, words).mem, h.objs[c], c) == Used(h.mem, h.objs[c], c)
    ensures ObjectOk(Allocate(h, k, a, words), c)
    ensures forall w {:trigger h.mem[w]} :: c <= w < c + Used(h.mem, h.objs[c], c) ==> w < |h.mem| && Allocate(h, k, a, words).mem[w] == h.mem[w]
  {
    hide ObjectsApart, ContentsGood, PagesGood, SegsGood;
    AllocatedAway(h, k, a, words, c);
    AllocatedSize(h, k, a, words);
    hide MayAllocate;
    assert ObjectOk(h, c);
  }

  lemma AllocatedObject(h: Heap, k: Kind, a: nat, words: seq<Word>, c: nat)
    requires WellFormed(h) && MayAllocate(h, k, a, words) && c in Allocate(h, k, a, words).objs
    ensures ObjectOk(Allocate(h, k, a, words), c)
  {
    if c == a { AllocatedSize(h, k, a, words); } else { OthersSame(h, k, a, words, c); }
  }

  lemma AllocatedApart(h: Heap, k: Kind, a: nat, words: seq<Word>, c: nat, d: nat)
    requires WellFormed(h) && MayAllocate(h, k, a, words) && c < d
    requires c in Allocate(h, k, a, words).objs && d in Allocate(h, k, a, words).objs
    ensures var g := Allocate(h, k, a, words); c < |g.mem| && c + Size(g.mem, g.objs[c], c) <= d
  {
    hide ObjectOk;
    AllocatedSize(h, k, a, words);
    if c != a { OthersSame(h, k, a, words, c); }
    if d != a { OthersSame(h, k, a, words, d); }
  }

  lemma AllocatedWord(h: Heap, k: Kind, a: nat, words: seq<Word>, c: nat, w: nat)
    requires WellFormed(h) && MayAllocate(h, k, a, words) && c in Allocate(h, k, a, words).objs && c < |h.mem|
    requires var g := Allocate(h, k, a, words); c <= w < c + Used(g.mem, g.objs[c], c)
    ensures var g := Allocate(h, k, a, words); w < |g.mem| && if g.objs[c] == DataKind then g.mem[w].Imm? else GoodWord(g.objs, g.mem[w])
  {
    hide ObjectOk;
    AllocatedSize(h, k, a, words);
    if c != a {
      OthersSame(h, k, a, words, c);
      assert h.mem[w] == h.mem[w];
    }
  }

  lemma AllocateKeepsSound(h: Heap, dirty: seq<seq<bv4>>, k: Kind, a: nat, words: seq<Word>)
    requires Sound(h, dirty) && MayAllocate(h, k, a, words)
    ensures Sound(Allocate(h, k, a, words), dirty)
  {
    var g := Allocate(h, k, a, words);
    assert |g.mem| == |h.mem|;
    hide MayAllocate;
    forall c | c in g.objs ensures ObjectOk(g, c) { AllocatedObject(h, k, a, words, c); }
    forall c, d | c in g.objs && d in g.objs && c < d ensures c + Size(g.mem, g.objs[c], c) <= d {
      AllocatedApart(h, k, a, words, c, d);
    }
    forall c, w | c in g.objs && c <= w < c + Used(g.mem, g.objs[c], c)
      ensures if g.objs[c] == DataKind then g.mem[w].Imm? else GoodWord(g.objs, g.mem[w])
    {
      AllocatedWord(h, k, a, words, c, w);
    }
    AllocatedPages(h, dirty, k, a, words);
  }

  lemma AllocatedPages(h: Heap, dirty: seq<seq<bv4>>, k: Kind, a: nat, words: seq<Word>)
    requires Sound(h, dirty) && MayAllocate(h, k, a, words) && ObjectsOk(Allocate(h, k, a, words))
    ensures PagesGood(Allocate(h, k, a, words)) && CardsSound(Allocate(h, k, a, words), dirty)
  {
    hide Allocate, ObjectOk, ObjectsApart, ContentsGood, Covered;
    var g := Allocate(h, k, a, words);
    AllocatedShape(h, k, a, words);
    forall w {:trigger g.mem[w]} | 0 <= w < |g.mem| && Scannable(SegOf(g.segs, w).typ) && SegOf(g.segs, w).gen >= 1
      ensures g.mem[w] == h.mem[w]
      ensures g.mem[w].Imm? || Covered(g, w)
    {
      AllocatedCovered(h, k, a, words, w);
    }
  }

  lemma AllocatedShape(h: Heap, k: Kind, a: nat, words: seq<Word>)
    requires |h.mem| == 512 * |h.segs| && ObjectsOk(h) && MayAllocate(h, k, a, words)
    ensures Allocate(h, k, a, words).segs == h.segs && |Allocate(h, k, a, words).mem| == |h.mem|
  {
  }

  /** A word of an older page is not in the new object. */
  lemma AllocatedCovered(h: Heap, k: Kind, a: nat, words: seq<Word>, w: nat)
    requires WellFormed(h) && MayAllocate(h, k, a, words) && ObjectsOk(Allocate(h, k, a, words))
    requires w < |h.mem| && Scannable(SegOf(h.segs, w).typ) && SegOf(h.segs, w).gen >= 1
    ensures Allocate(h, k, a, words).mem[w] == h.mem[w]
    ensures h.mem[w].Imm? || Covered(Allocate(h, k, a, words), w)
  {
    hide ObjectOk, ObjectsApart, ContentsGood;
    var g := Allocate(h, k, a, words);
    AllocatedSize(h, k, a, words);
    assert !(a <= w < a + |words|);
    if !h.mem[w].Imm? {
      var c :| c in h.objs && c <= w < c + Used(h.mem, h.objs[c], c);
      OthersSame(h, k, a, words, c);
      assert c in g.objs && c <= w < c + Used(g.mem, g.objs[c], c);
    }
  }

  // ---------- Mapping memory ----------

  /** Page p is mapped or unmapped: a page without objects, or the first page after the end of memory. */
  function Mapped(h: Heap, p: nat, words: seq<Word>, seg: Seg): (k: Heap)
    requires p <= |h.segs| && |h.mem| == 512 * |h.segs| && |words| == 512
    ensures k.objs == h.objs && |h.segs| <= |k.segs| && |k.mem| == 512 * |k.segs|
    ensures forall w {:trigger k.mem[w]} :: 0 <= w < |h.mem| && w / 512 != p ==> k.mem[w] == h.mem[w]
    ensures forall w {:trigger SegOf(k.segs, w)} :: 0 <= w < |h.mem| && w / 512 != p ==> SegOf(k.segs, w) == SegOf(h.segs, w)
    ensures forall w {:trigger SegOf(k.segs, w)} :: 0 <= w < |k.mem| && (w / 512 == p || |h.mem| <= w) ==> SegOf(k.segs, w) == seg
  {
    if p < |h.segs| then h.(mem := h.mem[..512 * p] + words + h.mem[512 * p + 512..], segs := h.segs[p := seg])
    else h.(mem := h.mem + words, segs := h.segs + [seg])
  }

  function MappedDirty(dirty: seq<seq<bv4>>, p: nat, cards: seq<bv4>): seq<seq<bv4>>
    requires p <= |dirty|
  {
    if p < |dirty| then dirty[p := cards] else dirty + [cards]
  }

  ghost predicate MayMap(h: Heap, p: nat, words: seq<Word>, seg: Seg)
    requires |h.mem| == 512 * |h.segs| && ObjectsOk(h)
  {
    && p <= |h.segs| && |words| == 512
    && (p < |h.segs| ==> h.segs[p].gen == 0)
    && (forall c {:trigger c in h.objs} :: c in h.objs ==> c + Size(h.mem, h.objs[c], c) <= 512 * p || 512 * p + 512 <= c)
    && seg.gen == 0 && !seg.large
  }

  lemma MappedObject(h: Heap, p: nat, words: seq<Word>, seg: Seg, c: nat)
    requires WellFormed(h) && MayMap(h, p, words, seg) && c in h.objs
    ensures var k := Mapped(h, p, words, seg);
            && |k.mem| == 512 * |k.segs| && c < |h.mem| <= |k.mem| && ObjectOk(k, c)
            && Used(k.mem, k.objs[c], c) == Used(h.mem, h.objs[c], c) && c + Used(h.mem, h.objs[c], c) <= |h.mem|
            && (forall w {:trigger k.mem[w]} :: c <= w < c + Used(h.mem, h.objs[c], c) ==> k.mem[w] == h.mem[w])
  {
    hide Mapped, ObjectsApart, ContentsGood, PagesGood, SegsGood;
    assert ObjectOk(h, c);
    var k := Mapped(h, p, words, seg);
    var n := Size(h.mem, h.objs[c], c);
    AlignOk(Used(h.mem, h.objs[c], c));
    forall w {:trigger k.mem[w]} {:trigger SegOf(k.segs, w)} | c <= w < c + n
      ensures k.mem[w] == h.mem[w] && SegOf(k.segs, w) == SegOf(h.segs, c)
    {
      OtherPage(w, p);
      assert SegOf(h.segs, w) == SegOf(h.segs, c);
    }
  }

  lemma OtherPage(w: nat, p: nat)
    requires w < 512 * p || 512 * p + 512 <= w
    ensures w / 512 != p
  {
  }

  lemma MappedWellFormed(h: Heap, p: nat, words: seq<Word>, seg: Seg)
    requires WellFormed(h) && MayMap(h, p, words, seg)
    ensures WellFormed(Mapped(h, p, words, seg))
  {
    hide ObjectOk, ObjectsApart, ContentsGood, PagesGood;
    var k := Mapped(h, p, words, seg);
    assert SegsGood(k.segs);
    forall c | c in k.objs ensures ObjectOk(k, c) { MappedObject(h, p, words, seg, c); }
    assert ObjectsOk(k);
    MappedApart(h, p, words, seg);
    MappedContents(h, p, words, seg);
  }

  lemma MappedApart(h: Heap, p: nat, words: seq<Word>, seg: Seg)
    requires WellFormed(h) && MayMap(h, p, words, seg) && ObjectsOk(Mapped(h, p, words, seg))
    ensures ObjectsApart(Mapped(h, p, words, seg))
  {
    hide Mapped;
    var k := Mapped(h, p, words, seg);
    forall c, d | c in k.objs && d in k.objs && c < d ensures c + Size(k.mem, k.objs[c], c) <= d {
      MappedObject(h, p, words, seg, c);
    }
  }

  lemma MappedContents(h: Heap, p: nat, words: seq<Word>, seg: Seg)
    requires WellFormed(h) && MayMap(h, p, words, seg) && ObjectsOk(Mapped(h, p, words, seg))
    ensures ContentsGood(Mapped(h, p, words, seg)) && PagesGood(Mapped(h, p, words, seg))
  {
    hide Mapped;
    var k := Mapped(h, p, words, seg);
    forall c, w {:trigger c in k.objs, k.mem[w]} | c in k.objs && c <= w < c + Used(k.mem, k.objs[c], c)
      ensures if k.objs[c] == DataKind then k.mem[w].Imm? else GoodWord(k.objs, k.mem[w])
    {
      MappedObject(h, p, words, seg, c);
      assert c in h.objs && k.mem[w] == h.mem[w];
    }
    forall w {:trigger k.mem[w]} | 0 <= w < |k.mem| && Scannable(SegOf(k.segs, w).typ) && SegOf(k.segs, w).gen >= 1
      ensures k.mem[w].Imm? || Covered(k, w)
    {
      assert k.mem[w] == h.mem[w];
      if !k.mem[w].Imm? {
        var c :| c in h.objs && c <= w < c + Used(h.mem, h.objs[c], c);
        MappedObject(h, p, words, seg, c);
        assert c in k.objs && c <= w < c + Used(k.mem, k.objs[c], c);
      }
    }
  }

  /** Pages of the nursery come and go: whatever is on a new page, the cards stay sound. */
  lemma MapKeepsSound(h: Heap, dirty: seq<seq<bv4>>, p: nat, words: seq<Word>, seg: Seg, cards: seq<bv4>)
    requires Sound(h, dirty) && MayMap(h, p, words, seg) && |cards| == 8
    ensures Sound(Mapped(h, p, words, seg), MappedDirty(dirty, p, cards))
  {
    hide ObjectOk, ObjectsApart, ContentsGood, PagesGood;
    MappedWellFormed(h, p, words, seg);
    var k, d := Mapped(h, p, words, seg), MappedDirty(dirty, p, cards);
    forall w {:trigger k.mem[w]} | 0 <= w < |k.mem| && Scannable(SegOf(k.segs, w).typ) && SegOf(k.segs, w).gen >= 1
      ensures Recorded(k.segs, CardBits(d, w), SegOf(k.segs, w).gen, k.mem[w])
    {
      assert w < |h.mem| && w / 512 != p;
      assert k.mem[w] == h.mem[w] && CardBits(d, w) == CardBits(dirty, w);
      ScannableGood(h, w);
      if k.mem[w].Ptr? { MappedTarget(h, p, words, seg, k.mem[w].addr); }
    }
  }

  lemma MappedTarget(h: Heap, p: nat, words: seq<Word>, seg: Seg, c: nat)
    requires WellFormed(h) && MayMap(h, p, words, seg) && c in h.objs
    ensures c < |h.mem| && FinalGen(SegOf(Mapped(h, p, words, seg).segs, c)) == FinalGen(SegOf(h.segs, c))
  {
    assert ObjectOk(h, c);
  }
}
