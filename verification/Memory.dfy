/** The word-level memory of the runtime: machine words, pages, the segment vector
    and the dirty vector, and what it means for the heap to be well formed.

    An address is the index of a machine word; page 0 is never used, as address 0 is NULL. */
module Memory {

  // IK_PAGESIZE is 4096 bytes: 512 words of 8 bytes, in 8 cards of 64 words each.
  const PAGE_WORDS: nat := 512
  const GENERATIONS: nat := 5
  const OLDEST: nat := 4
  const NEW_GEN_TAG: nat := 8

  /** The primary tag of a reference. */
  datatype Kind = PairKind | VectorKind | DataKind

  /** A machine word: a word that is not a reference (fixnum, constant, length, raw bits),
      a tagged reference, or the mark the collector leaves in a moved object. */
  datatype Word = Imm(n: int) | Ptr(kind: Kind, addr: nat) | Fwd

  const FALSE_OBJECT := Imm(0x2F)
  const BWP_OBJECT := Imm(0x8F)

  datatype PageType = Hole | MainHeap | MainStack | Pointers | Data | WeakPairs

  /** A slot of the segment vector: the generation field (with NEW_GEN_TAG while collecting),
      the nibble the page contributes to the dirty bits of a card that refers to it, and the type. */
  datatype Seg = Seg(gen: nat, nib: bv4, typ: PageType, large: bool)

  /** The slot of the segment vector for the page of word w. */
  function SegOf(segs: seq<Seg>, w: nat): Seg
    requires w < 512 * |segs|
  {
    segs[w / 512]
  }

  /** All the words from lo to hi are on pages described by seg. */
  ghost predicate PagesAre(segs: seq<Seg>, lo: nat, hi: nat, seg: Seg) {
    && hi <= 512 * |segs|
    && (forall w {:trigger SegOf(segs, w)} :: lo <= w < hi ==> SegOf(segs, w) == seg)
  }

  /** The bit of a card's nibble that records references to generation k. */
  function GenBit(k: nat): bv4 {
    if k == 0 then 8 else if k == 1 then 4 else if k == 2 then 2 else if k == 3 then 1 else 0
  }

  /** IK_ALIGN, counted in words. */
  function Align(n: nat): nat {
    n + n % 2
  }

  lemma AlignOk(n: nat)
    ensures Align(n) % 2 == 0 && n <= Align(n) <= n + 1
  {
  }

  lemma AlignFits(n: nat, pages: nat)
    requires n <= 512 * pages
    ensures Align(n) <= 512 * pages
  {
    assert 512 * pages == 2 * (256 * pages);
  }

  /** Words of the object at a that are used; the rest up to an even count is padding. */
  function Used(mem: seq<Word>, k: Kind, a: nat): nat
    requires a < |mem|
  {
    if k == PairKind then 2 else if mem[a].Imm? && mem[a].n >= 0 then 1 + mem[a].n else 1
  }

  function Size(mem: seq<Word>, k: Kind, a: nat): nat
    requires a < |mem|
  {
    Align(Used(mem, k, a))
  }

  predicate Scannable(t: PageType) {
    t == Pointers || t == WeakPairs
  }

  /** Pages that belong to a generation other than the nursery, and that are given back when it is collected. */
  predicate Generational(t: PageType) {
    t == Pointers || t == Data || t == WeakPairs
  }

  predicate TypeFits(k: Kind, t: PageType) {
    match k
    case PairKind => t == MainHeap || t == Pointers || t == WeakPairs
    case VectorKind => t == MainHeap || t == Pointers
    case DataKind => t == MainHeap || t == Data
  }

  /** Memory, segment vector, and the table of allocated objects. */
  datatype Heap = Heap(mem: seq<Word>, segs: seq<Seg>, objs: map<nat, Kind>)

  ghost predicate GoodWord(objs: map<nat, Kind>, v: Word) {
    match v
    case Imm(_) => true
    case Ptr(k, a) => a in objs && objs[a] == k
    case Fwd => false
  }

  /** The object at a lies in memory, on pages of one kind, with a sane header. */
  ghost predicate ObjectOk(h: Heap, a: nat)
    requires a in h.objs && |h.mem| == 512 * |h.segs|
  {
    && a % 2 == 0
    && a < |h.mem|
    && (h.objs[a] != PairKind ==> h.mem[a].Imm? && h.mem[a].n >= 0)
    && a + Size(h.mem, h.objs[a], a) <= |h.mem|
    && TypeFits(h.objs[a], SegOf(h.segs, a).typ)
    && PagesAre(h.segs, a, a + Size(h.mem, h.objs[a], a), SegOf(h.segs, a))
    && (SegOf(h.segs, a).large ==>
          h.objs[a] == VectorKind && a % 512 == 0 && SegOf(h.segs, a).typ == Pointers && Size(h.mem, h.objs[a], a) >= 512)
  }

  ghost predicate ObjectsOk(h: Heap)
    requires |h.mem| == 512 * |h.segs|
  {
    forall a :: a in h.objs ==> ObjectOk(h, a)
  }

  /** Two objects never share a word. */
  ghost predicate ObjectsApart(h: Heap)
    requires |h.mem| == 512 * |h.segs| && ObjectsOk(h)
  {
    forall a, b {:trigger a in h.objs, b in h.objs} :: a in h.objs && b in h.objs && a < b ==> a + Size(h.mem, h.objs[a], a) <= b
  }

  /** Every used word of every object is a proper value. */
  ghost predicate ContentsGood(h: Heap)
    requires |h.mem| == 512 * |h.segs| && ObjectsOk(h)
  {
    forall a, w {:trigger a in h.objs, h.mem[w]} ::
      a in h.objs && a <= w < a + Used(h.mem, h.objs[a], a) ==>
        if h.objs[a] == DataKind then h.mem[w].Imm? else GoodWord(h.objs, h.mem[w])
  }

  /** The word w is a used word of some object. */
  ghost predicate Covered(h: Heap, w: nat)
    requires |h.mem| == 512 * |h.segs| && ObjectsOk(h)
  {
    exists a :: a in h.objs && a <= w < a + Used(h.mem, h.objs[a], a)
  }

  /** On pages that the collector scans word by word, words between the objects are not references. */
  ghost predicate PagesGood(h: Heap)
    requires |h.mem| == 512 * |h.segs| && ObjectsOk(h)
  {
    forall w {:trigger h.mem[w]} :: 0 <= w < |h.mem| && Scannable(SegOf(h.segs, w).typ) && SegOf(h.segs, w).gen >= 1 ==>
      h.mem[w].Imm? || Covered(h, w)
  }

  ghost predicate SegsGood(segs: seq<Seg>) {
    forall p {:trigger segs[p]} :: 0 <= p < |segs| ==>
      && segs[p].gen <= OLDEST && (segs[p].gen >= 1 ==> segs[p].nib == GenBit(segs[p].gen))
      && (segs[p].large ==> segs[p].typ == Pointers && segs[p].gen >= 1)
      && (segs[p].gen >= 1 ==> Generational(segs[p].typ))
  }

  ghost predicate WellFormed(h: Heap) {
    && |h.segs| >= 1
    && |h.mem| == 512 * |h.segs|
    && SegsGood(h.segs)
    && ObjectsOk(h)
    && ObjectsApart(h)
    && ContentsGood(h)
    && PagesGood(h)
  }
}
