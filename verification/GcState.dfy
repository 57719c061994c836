/** The state of a collection in progress, and the invariant that every step of it keeps. */
module GcState {
  import opened Memory

  /** The meta pages of gc_t that the model has: pointers, raw data, weak pairs, pairs. */
  datatype MetaId = MetaPtrs | MetaData | MetaWeak | MetaPair

  /** meta_t: allocation pointer, scan pointer, end and base of the current pages. */
  datatype Meta = Meta(ap: nat, aq: nat, ep: nat, base: nat)

  /** qupages_t: a stretch of words still to be scanned. */
  datatype Range = Range(p: nat, q: nat)

  function NextGen(g: nat): nat {
    if g == OLDEST then g else g + 1
  }

  /** NEXT_GEN_TAG, as a slot of the segment vector of the given type. */
  function Tagged(cg: nat, t: PageType, large: bool): Seg {
    Seg(NextGen(cg) + NEW_GEN_TAG, GenBit(NextGen(cg)), t, large)
  }

  function MetaType(id: MetaId): PageType {
    match id
    case MetaPtrs => Pointers
    case MetaData => Data
    case MetaWeak => WeakPairs
    case MetaPair => Pointers
  }

  predicate Older(cg: nat, segs: seq<Seg>, a: nat) {
    a < 512 * |segs| && SegOf(segs, a).gen > cg
  }

  /** u is what the collector must leave where the word v was found. */
  ghost predicate IsImage(cg: nat, segs: seq<Seg>, fwd: map<nat, nat>, v: Word, u: Word) {
    match v
    case Imm(_) => u == v
    case Ptr(k, a) => if a in fwd then u == Ptr(k, fwd[a]) else Older(cg, segs, a) && u == v
    case Fwd => false
  }

  // ---------- The words still to be scanned ----------

  predicate In(r: Range, w: nat) { r.p <= w < r.q }

  predicate Stride(id: MetaId, w: nat) { id == MetaPair ==> w % 2 == 0 }

  ghost predicate InRanges(rs: seq<Range>, w: nat) {
    exists r :: r in rs && In(r, w)
  }

  ghost predicate InMeta(m: Meta, w: nat) { m.aq <= w < m.ap }

  /** How many of the stretches hold the word w. */
  function Hits(rs: seq<Range>, w: nat): nat {
    if rs == [] then 0 else (if In(rs[0], w) then 1 else 0) + Hits(rs[1..], w)
  }

  predicate HasIds<T>(m: map<MetaId, T>) {
    forall id: MetaId :: id in m
  }

  /** Everything that collect_loop still has to look at. */
  datatype Agenda = Agenda(
    meta: map<MetaId, Meta>,
    queues: map<MetaId, seq<Range>>,
    work: seq<Range>,            // detached from a queue, or cut from a meta page, and being scanned
    workId: MetaId)
  {
    ghost predicate Ok() { HasIds(meta) && HasIds(queues) }

    ghost predicate Waiting(w: nat)
      requires Ok()
    {
      || (InRanges(queues[MetaPair], w) && w % 2 == 0)
      || InRanges(queues[MetaPtrs], w)
      || (InRanges(work, w) && Stride(workId, w))
      || (InMeta(meta[MetaPair], w) && w % 2 == 0)
      || InMeta(meta[MetaPtrs], w)
    }

    /** How many times the word w will be come across. */
    ghost function Times(w: nat): nat
      requires Ok()
    {
      Hits(queues[MetaPair], w) + Hits(queues[MetaPtrs], w) + Hits(work, w)
      + (if InMeta(meta[MetaPair], w) then 1 else 0) + (if InMeta(meta[MetaPtrs], w) then 1 else 0)
    }

    /** No word is queued twice. */
    ghost predicate Once()
      requires Ok()
    {
      forall w: nat {:trigger Times(w)} :: Times(w) <= 1
    }
  }

  datatype St = St(
    mem: seq<Word>,
    segs: seq<Seg>,
    fwd: map<nat, nat>,          // moved object -> its copy
    src: map<nat, nat>,          // word that survives -> the word it had been in the heap before
    raw: set<nat>,               // words allocated but not filled yet
    todo: Agenda)

  /** The car of a pair on a page of new weak pairs. */
  predicate WeakCar(m: nat, segs: seq<Seg>, w: nat) {
    m <= w && w % 2 == 0 && w < 512 * |segs| && SegOf(segs, w).typ == WeakPairs
  }

  // ---------- The invariant ----------

  /** Not moved and not promoted in place yet. */
  ghost predicate White(h0: Heap, cg: nat, segs: seq<Seg>, fwd: map<nat, nat>, a: nat) {
    a in h0.objs && !Older(cg, segs, a) && a !in fwd
  }

  /** Pages change only by promotion of large objects; new pages carry the tag of the next generation. */
  ghost predicate SegsStep(h0: Heap, cg: nat, len: nat, segs: seq<Seg>) {
    && len == 512 * |segs|
    && |h0.segs| <= |segs|
    && (forall p {:trigger segs[p]} :: 0 <= p < |h0.segs| ==>
          segs[p] == h0.segs[p] || (h0.segs[p].large && h0.segs[p].gen <= cg && segs[p] == Tagged(cg, Pointers, true)))
    && (forall p {:trigger segs[p]} :: |h0.segs| <= p < |segs| ==>
          segs[p] == Tagged(cg, segs[p].typ, segs[p].large) && (segs[p].large ==> segs[p].typ == Pointers) && Generational(segs[p].typ))
  }

  /** Words of object a, counted as it was before the collection. */
  function SizeOf(h0: Heap, a: nat): nat {
    Align(UsedOf(h0, a))
  }

  function UsedOf(h0: Heap, a: nat): nat {
    if a in h0.objs && a < |h0.mem| then Used(h0.mem, h0.objs[a], a) else 0
  }

  /** The copy of a at b and the words from lo to hi have nothing in common. */
  ghost predicate Clear(h0: Heap, a: nat, b: nat, lo: int, hi: int) {
    b + SizeOf(h0, a) <= lo || hi <= b
  }

  /** Object a may be moved to b. */
  ghost predicate PlaceOk(h0: Heap, cg: nat, segs: seq<Seg>, a: nat, b: nat)
  {
    && a in h0.objs && a + 1 < |h0.mem| && |h0.mem| == 512 * |h0.segs|
    && SegOf(h0.segs, a).gen <= cg
    && !SegOf(h0.segs, a).large
    && |h0.mem| <= b
    && b % 2 == 0
    && b < 512 * |segs|
    && PagesAre(segs, b, b + SizeOf(h0, a), SegOf(segs, b))
    && (match h0.objs[a]
        case PairKind => SegOf(segs, b).typ == if SegOf(h0.segs, a).typ == WeakPairs then WeakPairs else Pointers
        case VectorKind => SegOf(segs, b).typ == Pointers
        case DataKind => SegOf(segs, b).typ == Data)
    && (SegOf(segs, b).large ==> h0.objs[a] == VectorKind && b % 512 == 0 && SizeOf(h0, a) >= 512)
  }

  ghost predicate PlacesOk(h0: Heap, cg: nat, segs: seq<Seg>, fwd: map<nat, nat>) {
    forall a :: a in fwd ==> PlaceOk(h0, cg, segs, a, fwd[a])
  }

  /** Moved objects hold the mark and the reference to the copy. */
  ghost predicate MarksOk(h0: Heap, mem: seq<Word>, fwd: map<nat, nat>) {
    forall a :: a in fwd ==> a in h0.objs && a + 1 < |mem| && mem[a] == Fwd && mem[a + 1] == Ptr(h0.objs[a], fwd[a])
  }

  ghost predicate CopiesApart(h0: Heap, fwd: map<nat, nat>) {
    forall a, b {:trigger a in fwd, b in fwd} :: a in fwd && b in fwd && a != b ==>
      Clear(h0, a, fwd[a], fwd[b], fwd[b] + SizeOf(h0, b))
  }

  /** Objects of the collected generations that have not been reached are untouched. */
  ghost predicate WhiteIntact(h0: Heap, cg: nat, mem: seq<Word>, segs: seq<Seg>, fwd: map<nat, nat>)
    requires WellFormed(h0) && |h0.mem| <= |mem|
  {
    forall a, w {:trigger a in h0.objs, mem[w]} ::
      0 <= a <= w && White(h0, cg, segs, fwd, a) && w < a + UsedOf(h0, a) ==> mem[w] == h0.mem[w]
  }

  /** The used words of a copy come from the words of the object, except those not filled yet. */
  ghost predicate CopiesTraced(h0: Heap, fwd: map<nat, nat>, src: map<nat, nat>, raw: set<nat>) {
    && (forall a, w {:trigger a in fwd, w in src} {:trigger a in fwd, w in raw} ::
          a in fwd && fwd[a] <= w < fwd[a] + UsedOf(h0, a) && w !in raw ==>
            w in src && src[w] == a + (w - fwd[a]))
    && (forall a {:trigger a in fwd} :: a in fwd ==> fwd[a] !in raw)
  }

  /** The word w is on a page whose objects stay where they are. */
  predicate Fixed(h0: Heap, cg: nat, w: nat) {
    Older(cg, h0.segs, w) || (w < 512 * |h0.segs| && SegOf(h0.segs, w).large)
  }

  /** Words of pages that stay and have not been looked at are as they were. */
  ghost predicate OldIntact(h0: Heap, cg: nat, mem: seq<Word>, src: map<nat, nat>) {
    forall w {:trigger mem[w]} :: 0 <= w < |h0.mem| && w < |mem| && Fixed(h0, cg, w) && w !in src ==> mem[w] == h0.mem[w]
  }

  /** The word w is a used word of the copy of some object. */
  ghost predicate InCopy(h0: Heap, fwd: map<nat, nat>, w: nat) {
    exists a :: a in fwd && fwd[a] <= w < fwd[a] + UsedOf(h0, a)
  }

  /** Survivors on new pages are words of copies. */
  ghost predicate SrcInCopies(h0: Heap, fwd: map<nat, nat>, src: map<nat, nat>) {
    forall w {:trigger w in src} :: w in src && |h0.mem| <= w ==> InCopy(h0, fwd, w)
  }

  /** The words of one object are in collected generations all together or not at all. */
  ghost predicate ObjectsWhole(h0: Heap, cg: nat, segs: seq<Seg>) {
    forall a, w {:trigger a in h0.objs, Older(cg, segs, w)} ::
      0 <= a <= w && a in h0.objs && w < a + UsedOf(h0, a) && Older(cg, segs, w) ==> Older(cg, segs, a)
  }

  /** Objects promoted in place are traced to themselves. */
  ghost predicate PromotedTraced(h0: Heap, cg: nat, segs: seq<Seg>, src: map<nat, nat>) {
    forall a, w {:trigger a in h0.objs, w in src} ::
      0 <= a <= w && a in h0.objs && Older(cg, segs, a) && !Older(cg, h0.segs, a) && w < a + UsedOf(h0, a) ==>
        w in src
  }

  ghost predicate SourcesOk(h0: Heap, cg: nat, segs: seq<Seg>, src: map<nat, nat>, raw: set<nat>) {
    forall w {:trigger w in src} :: w in src ==>
      && src[w] < |h0.mem|
      && w !in raw
      && Older(cg, segs, w)
      && (w < |h0.mem| ==> src[w] == w)
      && GoodWord(h0.objs, h0.mem[src[w]])
  }

  /** A surviving word holds the image of the word it comes from, or is waiting to be scanned. */
  ghost predicate ColoursOk(h0: Heap, cg: nat, mem: seq<Word>, segs: seq<Seg>, fwd: map<nat, nat>, src: map<nat, nat>, todo: Agenda)
    requires todo.Ok()
  {
    forall w {:trigger w in src} :: w in src ==>
      && w < |mem|
      && src[w] < |h0.mem|
      && (|| IsImage(cg, segs, fwd, h0.mem[src[w]], mem[w])
          || ((todo.Waiting(w) || WeakCar(|h0.mem|, segs, w)) && mem[w] == h0.mem[src[w]]))
  }

  // ---------- Regions ----------

  ghost predicate MetaOk(h0: Heap, cg: nat, segs: seq<Seg>, id: MetaId, m: Meta) {
    && (m.base == 0 ==> m == Meta(0, 0, 0, 0))
    && (m.base > 0 ==>
          && |h0.mem| <= m.base <= m.aq <= m.ap <= m.ep <= 512 * |segs|
          && m.aq % 2 == 0 && m.ap % 2 == 0 && m.ep % 2 == 0
          && PagesAre(segs, m.base, m.ep, Tagged(cg, MetaType(id), false)))
  }

  ghost predicate MetasOk(h0: Heap, cg: nat, segs: seq<Seg>, meta: map<MetaId, Meta>)
    requires HasIds(meta)
  {
    && (forall id {:trigger meta[id]} :: MetaOk(h0, cg, segs, id, meta[id]))
    && (forall i, j {:trigger meta[i], meta[j]} :: i != j && meta[i].base > 0 && meta[j].base > 0 ==>
          meta[i].ep <= meta[j].base || meta[j].ep <= meta[i].base)
  }

  predicate Free(meta: map<MetaId, Meta>, id: MetaId, w: nat)
    requires HasIds(meta)
  {
    meta[id].ap <= w < meta[id].ep
  }

  ghost predicate FreeWord(meta: map<MetaId, Meta>, w: nat)
    requires HasIds(meta)
  {
    exists id :: Free(meta, id, w)
  }

  /** The free tails of the meta pages belong to nobody. */
  ghost predicate FreeOk(h0: Heap, fwd: map<nat, nat>, src: map<nat, nat>, raw: set<nat>, meta: map<MetaId, Meta>)
    requires HasIds(meta)
  {
    && (forall id, a {:trigger meta[id], a in fwd} :: a in fwd ==> Clear(h0, a, fwd[a], meta[id].ap, meta[id].ep))
    && (forall id, w: nat {:trigger Free(meta, id, w)} :: Free(meta, id, w) ==> w !in src && w !in raw)
  }

  ghost predicate RangeOk(h0: Heap, cg: nat, segs: seq<Seg>, src: map<nat, nat>, meta: map<MetaId, Meta>, id: MetaId, r: Range)
    requires HasIds(meta)
  {
    && r.p <= r.q <= 512 * |segs|
    && (id == MetaPair ==> r.p % 2 == 0 && r.q % 2 == 0)
    && (forall w {:trigger w in src} {:trigger Older(cg, segs, w)} :: r.p <= w < r.q ==>
          Older(cg, segs, w) && (if w < |h0.mem| then w in src else SegOf(segs, w).typ == Pointers))
    && (forall i {:trigger meta[i]} :: r.q <= meta[i].ap || meta[i].ep <= r.p)
  }

  ghost predicate RangesOk(h0: Heap, cg: nat, segs: seq<Seg>, src: map<nat, nat>, todo: Agenda)
    requires todo.Ok()
  {
    && (forall id, r {:trigger r in todo.queues[id]} :: r in todo.queues[id] ==> RangeOk(h0, cg, segs, src, todo.meta, id, r))
    && (forall r {:trigger r in todo.work} :: r in todo.work ==> RangeOk(h0, cg, segs, src, todo.meta, todo.workId, r))
  }

  /** The new pages that are scanned hold surviving words and words that are not references. */
  ghost predicate NewPagesOk(h0: Heap, mem: seq<Word>, segs: seq<Seg>, src: map<nat, nat>, raw: set<nat>, meta: map<MetaId, Meta>)
    requires HasIds(meta) && |mem| == 512 * |segs|
  {
    && (forall w {:trigger mem[w]} :: |h0.mem| <= w < |mem| && Scannable(SegOf(segs, w).typ) ==>
          w in src || mem[w].Imm? || w in raw || FreeWord(meta, w))
    && (forall w {:trigger w in raw} :: w in raw ==> |h0.mem| <= w < |mem|)
  }

  ghost predicate Inv(h0: Heap, cg: nat, st: St) {
    && st.todo.Ok()
    && WellFormed(h0)
    && cg <= OLDEST
    && SegsStep(h0, cg, |st.mem|, st.segs)
    && PlacesOk(h0, cg, st.segs, st.fwd)
    && MarksOk(h0, st.mem, st.fwd)
    && CopiesApart(h0, st.fwd)
    && WhiteIntact(h0, cg, st.mem, st.segs, st.fwd)
    && OldIntact(h0, cg, st.mem, st.src)
    && ObjectsWhole(h0, cg, st.segs)
    && CopiesTraced(h0, st.fwd, st.src, st.raw)
    && PromotedTraced(h0, cg, st.segs, st.src)
    && SourcesOk(h0, cg, st.segs, st.src, st.raw)
    && SrcInCopies(h0, st.fwd, st.src)
    && ColoursOk(h0, cg, st.mem, st.segs, st.fwd, st.src, st.todo)
    && MetasOk(h0, cg, st.segs, st.todo.meta)
    && FreeOk(h0, st.fwd, st.src, st.raw, st.todo.meta)
    && RangesOk(h0, cg, st.segs, st.src, st.todo)
    && NewPagesOk(h0, st.mem, st.segs, st.src, st.raw, st.todo.meta)
    && st.todo.Once()
  }

  /** A survivor that has been scanned, or need not be, does not wait to be scanned again. */
  ghost predicate DoneStays(s: St, t: St) {
    forall w {:trigger w in t.src} {:trigger w in s.src} :: w in s.src && s.todo.Ok() && !s.todo.Waiting(w) ==> t.todo.Ok() && !t.todo.Waiting(w)
  }

  /** What a step of the collector may change: survivors and forwarding words stay as they are. */
  ghost predicate Later(cg: nat, s: St, t: St) {
    && |s.mem| <= |t.mem| && |s.segs| <= |t.segs|
    && (forall w {:trigger w in t.src} {:trigger w in s.src} :: w in s.src ==>
          w in t.src && t.src[w] == s.src[w] && w < |s.mem| && t.mem[w] == s.mem[w])
    && (forall a {:trigger a in t.fwd} {:trigger a in s.fwd} :: a in s.fwd ==> a in t.fwd && t.fwd[a] == s.fwd[a])
    && (forall p {:trigger t.segs[p]} :: 0 <= p < |s.segs| ==> t.segs[p] == s.segs[p] || (s.segs[p].gen <= cg < t.segs[p].gen))
    && DoneStays(s, t)
  }

  /** What any part of a collection may change: the moved objects and the survivors only grow in number. */
  ghost predicate Onward(cg: nat, s: St, t: St) {
    && |s.mem| <= |t.mem| && |s.segs| <= |t.segs|
    && (forall w {:trigger w in t.src} {:trigger w in s.src} :: w in s.src ==> w in t.src && t.src[w] == s.src[w])
    && (forall a {:trigger a in t.fwd} {:trigger a in s.fwd} :: a in s.fwd ==> a in t.fwd && t.fwd[a] == s.fwd[a])
    && (forall p {:trigger t.segs[p]} :: 0 <= p < |s.segs| ==> t.segs[p] == s.segs[p] || (s.segs[p].gen <= cg < t.segs[p].gen))
    && DoneStays(s, t)
  }

  /** The n words at b are allocated, not filled yet, and out of the way of everything else. */
  ghost predicate Reserved(h0: Heap, st: St, b: nat, n: nat)
    requires st.todo.Ok()
  {
    && |h0.mem| <= b && b % 2 == 0
    && 0 < n && b + n <= 512 * |st.segs|
    && PagesAre(st.segs, b, b + n, SegOf(st.segs, b))
    && (forall w {:trigger w in st.raw} :: b <= w < b + n ==> w in st.raw)
    && (forall a {:trigger a in st.fwd} :: a in st.fwd ==> Clear(h0, a, st.fwd[a], b, b + n))
    && (forall i {:trigger st.todo.meta[i]} :: b + n <= st.todo.meta[i].ap || st.todo.meta[i].ep <= b)
  }

  // ---------- The dirty vector ----------

  const PURE_PAGE: seq<bv4> := [0, 0, 0, 0, 0, 0, 0, 0]

  /** New pages are pure, the others are marked as they were. */
  ghost predicate Grown(d: seq<seq<bv4>>, e: seq<seq<bv4>>) {
    && |d| <= |e|
    && (forall p {:trigger e[p]} :: 0 <= p < |e| ==> e[p] == if p < |d| then d[p] else PURE_PAGE)
  }

  lemma GrownRefl(d: seq<seq<bv4>>)
    ensures Grown(d, d)
  {
  }

  lemma GrownTrans(d: seq<seq<bv4>>, e: seq<seq<bv4>>, f: seq<seq<bv4>>)
    requires Grown(d, e) && Grown(e, f)
    ensures Grown(d, f)
  {
    forall p {:trigger f[p]} | 0 <= p < |f| ensures f[p] == if p < |d| then d[p] else PURE_PAGE {
      assert p < |e| ==> f[p] == e[p];
    }
  }
}
