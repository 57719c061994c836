/** Whole runs of the program and the collector. */
module Runs {
  import opened Memory
  import opened GcState
  import opened GcSteps
  import opened GcMoves
  import opened GcReach
  import opened GcGather
  import opened GcLoop
  import opened GcDirty
  import opened GcWeak
  import opened GcFinish
  import opened GcRoots
  import opened GcGuardians
  import opened GcReachable
  import opened GcCollect
  import opened GcTheorems
  import opened Mutator
  import opened Tconc

  // ---------- What holds between the steps ----------

  /** Every protected entry of the list of generation g is a pair on a page of that generation or of an older one. */
  ghost predicate Placed(h: Heap, lists: seq<seq<seq<Word>>>) {
    forall g, p {:trigger p in Flat(lists[g])} :: 0 <= g < |lists| && p in Flat(lists[g]) ==>
      EntryOk(h, p) && p.addr < 512 * |h.segs| && g <= SegOf(h.segs, p.addr).gen
  }

  ghost predicate Distinct(es: seq<Word>) {
    forall i, j {:trigger es[i], es[j]} :: 0 <= i < j < |es| ==> es[i] != es[j]
  }

  /** The entries of all generations. */
  function Entries(w: World): seq<Word>
    requires |w.lists| == GENERATIONS
  {
    Protected(w.lists, GENERATIONS)
  }

  /** The heap and its cards are sound, roots and entries refer to objects, and the cells of the entries are different
      pairs that belong to the collector alone. */
  ghost predicate Fit(w: World) {
    && Sound(w.h, w.dirty) && RootsOk(w.h, w.roots)
    && |w.lists| == GENERATIONS && Placed(w.h, w.lists) && Private(w.h, Entries(w)) && Distinct(Entries(w))
  }

  lemma InProtected(lists: seq<seq<seq<Word>>>, n: nat, p: Word) returns (g: nat)
    requires n <= |lists| && p in Protected(lists, n)
    ensures g < n && p in Flat(lists[g])
  {
    if p in Flat(lists[n - 1]) { g := n - 1; } else { g := InProtected(lists, n - 1, p); }
  }

  lemma ProtectedGrows(lists: seq<seq<seq<Word>>>, m: nat, n: nat, p: Word)
    requires m <= n <= |lists| && p in Protected(lists, m)
    ensures p in Protected(lists, n)
  {
    var g := InProtected(lists, m, p);
    ProtectedPart(lists, g, n);
  }

  lemma PlacedEntry(h: Heap, lists: seq<seq<seq<Word>>>, n: nat, p: Word)
    requires Placed(h, lists) && n <= |lists| && p in Protected(lists, n)
    ensures EntryOk(h, p) && p.addr < 512 * |h.segs|
  {
    var g := InProtected(lists, n, p);
  }

  /** Whatever generation is to be collected, a collection can begin. */
  lemma FitReady(w: World, cg: nat)
    requires Fit(w) && cg <= OLDEST
    ensures Ready(w, cg)
  {
    hide WellFormed, CardsSound, Protected, Flat, EntryOk;
    forall p {:trigger p in Protected(w.lists, cg + 1)} | p in Protected(w.lists, cg + 1) ensures EntryOk(w.h, p) && p in Entries(w) {
      PlacedEntry(w.h, w.lists, cg + 1, p);
      ProtectedGrows(w.lists, cg + 1, GENERATIONS, p);
    }
    forall g, p {:trigger p in Flat(w.lists[g])} | cg < g < |w.lists| && p in Flat(w.lists[g]) ensures p.Ptr? && Older(cg, w.h.segs, p.addr) {
      assert EntryOk(w.h, p);
      EntryPair(w.h, p);
    }
  }

  lemma EntryPair(h: Heap, p: Word)
    requires EntryOk(h, p)
    ensures p.Ptr? && p.kind == PairKind && p.addr in h.objs && h.objs[p.addr] == PairKind
  {
  }

  // ---------- The lists as a whole ----------

  /** The entries of the lists from generation n on. */
  function Upper(lists: seq<seq<seq<Word>>>, n: nat): seq<Word>
    decreases |lists| - n
  {
    if n >= |lists| then [] else Flat(lists[n]) + Upper(lists, n + 1)
  }

  lemma {:induction false} Split(lists: seq<seq<seq<Word>>>, n: nat)
    requires n <= |lists|
    ensures multiset(Protected(lists, |lists|)) == multiset(Protected(lists, n)) + multiset(Upper(lists, n))
    decreases |lists| - n
  {
    hide Flat;
    if n < |lists| {
      Split(lists, n + 1);
      assert Protected(lists, n + 1) == Protected(lists, n) + Flat(lists[n]);
      assert Upper(lists, n) == Flat(lists[n]) + Upper(lists, n + 1);
    }
  }

  lemma {:induction false} UpperSame(a: seq<seq<seq<Word>>>, b: seq<seq<seq<Word>>>, n: nat)
    requires |a| == |b| && forall g {:trigger a[g]} {:trigger b[g]} :: n <= g < |a| ==> a[g] == b[g]
    ensures Upper(a, n) == Upper(b, n)
    decreases |a| - n
  {
    if n < |a| { UpperSame(a, b, n + 1); }
  }

  lemma {:induction false} NoneProtected(lists: seq<seq<seq<Word>>>, n: nat)
    requires n <= |lists| && forall g {:trigger lists[g]} :: 0 <= g < n ==> lists[g] == []
    ensures Protected(lists, n) == []
  {
    if n > 0 { NoneProtected(lists, n - 1); }
  }

  lemma InUpper(lists: seq<seq<seq<Word>>>, n: nat, p: Word) returns (g: nat)
    requires p in Upper(lists, n)
    ensures n <= g < |lists| && p in Flat(lists[g])
    decreases |lists| - n
  {
    if p in Flat(lists[n]) { g := n; } else { g := InUpper(lists, n + 1, p); }
  }

  // ---------- Different entries ----------

  lemma {:induction false} DistinctCount(es: seq<Word>, p: Word)
    requires Distinct(es)
    ensures multiset(es)[p] <= 1
  {
    if es != [] {
      var n := |es| - 1;
      assert es == es[..n] + [es[n]];
      DistinctCount(es[..n], p);
      assert p in es[..n] ==> p != es[n];
    }
  }

  lemma CountDistinct(es: seq<Word>)
    requires forall p {:trigger multiset(es)[p]} :: multiset(es)[p] <= 1
    ensures Distinct(es)
  {
    forall i, j {:trigger es[i], es[j]} | 0 <= i < j < |es| ensures es[i] != es[j] {
      assert es == es[..j] + es[j..];
      assert es[..j][i] == es[i] && es[j..][0] == es[j];
      assert es[i] in multiset(es[..j]) && es[j] in multiset(es[j..]);
      assert multiset(es)[es[i]] == multiset(es[..j])[es[i]] + multiset(es[j..])[es[i]];
    }
  }

  lemma DistinctPart(es: seq<Word>, all: seq<Word>)
    requires Distinct(all) && multiset(es) <= multiset(all)
    ensures Distinct(es)
  {
    forall p {:trigger multiset(es)[p]} ensures multiset(es)[p] <= 1 { DistinctCount(all, p); }
    CountDistinct(es);
  }

  // ---------- Entries that a step leaves alone ----------

  ghost predicate SameEntry(h: Heap, k: Heap, p: Word) {
    && EntryOk(k, p) && p.addr < |h.mem| && p.addr < |k.mem| && k.mem[p.addr] == h.mem[p.addr]
    && p.addr < 512 * |h.segs| && p.addr < 512 * |k.segs| && SegOf(k.segs, p.addr).gen == SegOf(h.segs, p.addr).gen
  }

  lemma ListsStay(h: Heap, k: Heap, lists: seq<seq<seq<Word>>>)
    requires Placed(h, lists) && Private(h, Protected(lists, |lists|))
    requires forall p {:trigger p in Protected(lists, |lists|)} :: p in Protected(lists, |lists|) ==> SameEntry(h, k, p)
    ensures Placed(k, lists) && Private(k, Protected(lists, |lists|))
  {
    hide Protected, Flat;
    var all := Protected(lists, |lists|);
    forall g, p {:trigger p in Flat(lists[g])} | 0 <= g < |lists| && p in Flat(lists[g])
      ensures EntryOk(k, p) && p.addr < 512 * |k.segs| && g <= SegOf(k.segs, p.addr).gen
    {
      ProtectedPart(lists, g, |lists|);
      assert p in all;
    }
    forall p, q {:trigger p in all, q in all} | p in all && q in all && p.addr < |k.mem| ensures k.mem[p.addr] != q {
      PlacedEntry(h, lists, |lists|, p);
    }
  }

  // ---------- The steps of the program ----------

  /** The program has no reference to the cells of entries, so it does not store into them. */
  ghost predicate NotEntry(w: World, a: nat) {
    |w.lists| == GENERATIONS && Ptr(PairKind, a) !in Entries(w)
  }

  /** A slot is written and its page is marked. */
  ghost predicate Stores(w: World, x: World, a: nat, i: nat, v: Word) {
    && Slot(w.h, a, i) && GoodWord(w.h.objs, v) && a + i < 512 * |w.dirty| && NotEntry(w, a)
    && x == w.(h := Written(w.h, a + i, v), dirty := Signalled(w.dirty, a + i))
  }

  /** A word that is not a reference is written without a mark. */
  ghost predicate StoresPlain(w: World, x: World, a: nat, i: nat, n: int) {
    && Slot(w.h, a, i) && NotEntry(w, a)
    && x == w.(h := Written(w.h, a + i, Imm(n)))
  }

  ghost predicate Allocates(w: World, x: World, k: Kind, a: nat, words: seq<Word>) {
    && |w.h.mem| == 512 * |w.h.segs| && ObjectsOk(w.h) && MayAllocate(w.h, k, a, words)
    && x == w.(h := Allocate(w.h, k, a, words))
  }

  ghost predicate Maps(w: World, x: World, p: nat, words: seq<Word>, seg: Seg, cards: seq<bv4>) {
    && |w.h.mem| == 512 * |w.h.segs| && ObjectsOk(w.h) && MayMap(w.h, p, words, seg) && |cards| == 8 && p <= |w.dirty|
    && x == w.(h := Mapped(w.h, p, words, seg), dirty := MappedDirty(w.dirty, p, cards))
  }

  /** The stack and the other roots change. */
  ghost predicate Rooted(w: World, x: World) {
    RootsOk(w.h, x.roots) && x == w.(roots := x.roots)
  }

  /** ikrt_register_guardian_pair: a pair that nothing else refers to becomes an entry. */
  ghost predicate Registers(w: World, x: World, p: Word) {
    && |w.lists| == GENERATIONS && EntryOk(w.h, p) && p.addr < |w.h.mem| && p !in Entries(w)
    && w.h.mem[p.addr] != p && w.h.mem[p.addr] !in Entries(w)
    && (forall q {:trigger q in Entries(w)} :: q in Entries(w) && q.Ptr? && q.addr < |w.h.mem| ==> w.h.mem[q.addr] != p)
    && x == w.(lists := w.lists[0 := MoveTconc(p, w.lists[0])])
  }

  /** One delivery at the end of a collection, to a queue whose cells are not entries. */
  ghost predicate Delivers(w: World, x: World, tc: nat, last: nat, p: nat, item: Word) {
    && tc + 1 < |w.h.mem| && last + 1 < |w.h.mem| && p + 1 < |w.h.mem| && tc < 512 * |w.dirty| && last < 512 * |w.dirty|
    && GoodWord(w.h.objs, item) && GoodWord(w.h.objs, Ptr(PairKind, tc)) && GoodWord(w.h.objs, Ptr(PairKind, last)) && GoodWord(w.h.objs, Ptr(PairKind, p))
    && NotEntry(w, tc) && NotEntry(w, last) && NotEntry(w, p)
    && x == w.(h := w.h.(mem := Appended(w.h.mem, tc, last, p, item)), dirty := Signalled(Signalled(w.dirty, tc), last))
  }

  ghost predicate Step(w: World, x: World) {
    || (exists a, i, v :: Stores(w, x, a, i, v))
    || (exists a, i, n :: StoresPlain(w, x, a, i, n))
    || (exists k, a, words :: Allocates(w, x, k, a, words))
    || (exists p, words, seg, cards :: Maps(w, x, p, words, seg, cards))
    || Rooted(w, x)
    || (exists p :: Registers(w, x, p))
    || (exists tc, last, p, item :: Delivers(w, x, tc, last, p, item))
    || (exists cg, r, forward :: Collection(w, cg, r, x, forward))
  }

  // ---------- Every step keeps what the next one needs ----------

  lemma EntryWords(h: Heap, p: Word)
    requires WellFormed(h) && EntryOk(h, p)
    ensures p.addr + 1 < |h.mem| == 512 * |h.segs| && p.addr % 2 == 0
  {
    assert ObjectOk(h, p.addr);
  }

  /** A slot of an object that is not an entry is written. */
  lemma WrittenUntouched(w: World, a: nat, i: nat, v: Word, p: Word)
    requires Fit(w) && Slot(w.h, a, i) && NotEntry(w, a) && p in Entries(w)
    ensures SameEntry(w.h, Written(w.h, a + i, v), p)
  {
    hide WellFormed, CardsSound, Placed, Private, Distinct, Protected;
    PlacedEntry(w.h, w.lists, GENERATIONS, p);
    EntryWords(w.h, p);
    SlotAlone(w.h, a, i, p.addr);
    PairExtent(w.h, p.addr);
    assert p.addr != a + i by { assert p == Ptr(PairKind, p.addr); }
  }

  lemma PairExtent(h: Heap, a: nat)
    requires a in h.objs && h.objs[a] == PairKind && a < |h.mem|
    ensures Size(h.mem, h.objs[a], a) == 2
  {
  }

  lemma StoresFit(w: World, x: World, a: nat, i: nat, v: Word)
    requires Fit(w) && Stores(w, x, a, i, v)
    ensures Fit(x)
  {
    hide WellFormed, CardsSound, Placed, Private, Distinct, SameEntry, Protected;
    WriteKeepsSound(w.h, w.dirty, a, i, v);
    forall p {:trigger p in Entries(w)} | p in Entries(w) ensures SameEntry(w.h, x.h, p) { WrittenUntouched(w, a, i, v, p); }
    ListsStay(w.h, x.h, w.lists);
  }

  lemma StoresPlainFit(w: World, x: World, a: nat, i: nat, n: int)
    requires Fit(w) && StoresPlain(w, x, a, i, n)
    ensures Fit(x)
  {
    hide WellFormed, CardsSound, Placed, Private, Distinct, SameEntry, Protected;
    ImmWriteKeepsSound(w.h, w.dirty, a, i, n);
    forall p {:trigger p in Entries(w)} | p in Entries(w) ensures SameEntry(w.h, x.h, p) { WrittenUntouched(w, a, i, Imm(n), p); }
    ListsStay(w.h, x.h, w.lists);
  }

  lemma AllocatedUntouched(w: World, k: Kind, a: nat, words: seq<Word>, p: Word)
    requires Fit(w) && MayAllocate(w.h, k, a, words) && p in Entries(w)
    ensures SameEntry(w.h, Allocate(w.h, k, a, words), p)
  {
    hide Placed, Private, Distinct, Protected, CardsSound, MayAllocate, Allocate;
    PlacedEntry(w.h, w.lists, GENERATIONS, p);
    EntryWords(w.h, p);
    OthersSame(w.h, k, a, words, p.addr);
    AllocatedSame(w.h, k, a, words);
    assert w.h.mem[p.addr] == w.h.mem[p.addr];
  }

  lemma AllocatedSame(h: Heap, k: Kind, a: nat, words: seq<Word>)
    requires WellFormed(h) && MayAllocate(h, k, a, words)
    ensures var g := Allocate(h, k, a, words); g.segs == h.segs && |g.mem| == |h.mem| && forall c {:trigger c in g.objs} :: c in h.objs && c != a ==> c in g.objs && g.objs[c] == h.objs[c]
    ensures a !in h.objs
  {
  }

  lemma AllocatesFit(w: World, x: World, k: Kind, a: nat, words: seq<Word>)
    requires Fit(w) && Allocates(w, x, k, a, words)
    ensures Fit(x)
  {
    hide WellFormed, CardsSound, Placed, Private, Distinct, SameEntry, Protected, MayAllocate, Allocate;
    AllocateKeepsSound(w.h, w.dirty, k, a, words);
    AllocatedSame(w.h, k, a, words);
    forall p {:trigger p in Entries(w)} | p in Entries(w) ensures SameEntry(w.h, x.h, p) { AllocatedUntouched(w, k, a, words, p); }
    ListsStay(w.h, x.h, w.lists);
  }

  lemma MappedUntouched(w: World, n: nat, words: seq<Word>, seg: Seg, p: Word)
    requires Fit(w) && MayMap(w.h, n, words, seg) && p in Entries(w)
    ensures SameEntry(w.h, Mapped(w.h, n, words, seg), p)
  {
    hide Placed, Private, Distinct, Protected, CardsSound, Mapped;
    PlacedEntry(w.h, w.lists, GENERATIONS, p);
    EntryWords(w.h, p);
    PairExtent(w.h, p.addr);
    var k := Mapped(w.h, n, words, seg);
    assert p.addr / 512 != n;
    assert k.mem[p.addr] == w.h.mem[p.addr] && SegOf(k.segs, p.addr) == SegOf(w.h.segs, p.addr);
  }

  lemma MapsFit(w: World, x: World, n: nat, words: seq<Word>, seg: Seg, cards: seq<bv4>)
    requires Fit(w) && Maps(w, x, n, words, seg, cards)
    ensures Fit(x)
  {
    hide WellFormed, CardsSound, Placed, Private, Distinct, SameEntry, Protected, MayMap, Mapped;
    MapKeepsSound(w.h, w.dirty, n, words, seg, cards);
    forall p {:trigger p in Entries(w)} | p in Entries(w) ensures SameEntry(w.h, x.h, p) { MappedUntouched(w, n, words, seg, p); }
    ListsStay(w.h, x.h, w.lists);
  }

  lemma RegistersFit(w: World, x: World, p: Word)
    requires Fit(w) && Registers(w, x, p)
    ensures Fit(x)
  {
    hide WellFormed, CardsSound, Flat, MoveTconc, Protected, Distinct;
    FlatMove(p, w.lists[0]);
    RegisteredEntries(w, x, p);
    DistinctMore(Entries(w), Entries(x), p);
    forall g, q {:trigger q in Flat(x.lists[g])} | 0 <= g < |x.lists| && q in Flat(x.lists[g])
      ensures EntryOk(x.h, q) && q.addr < 512 * |x.h.segs| && g <= SegOf(x.h.segs, q.addr).gen
    {
      if q == p { EntryWords(w.h, p); if g > 0 { ProtectedPart(w.lists, g, GENERATIONS); } } else { assert q in Flat(w.lists[g]); }
    }
  }

  lemma RegisteredEntries(w: World, x: World, p: Word)
    requires |w.lists| == GENERATIONS && x.lists == w.lists[0 := MoveTconc(p, w.lists[0])]
    ensures multiset(Entries(x)) == multiset(Entries(w)) + multiset{p}
    ensures forall q {:trigger q in Entries(x)} :: q in Entries(x) <==> q in Entries(w) || q == p
  {
    hide Flat, MoveTconc, Upper;
    FlatMove(p, w.lists[0]);
    Split(w.lists, 1);
    Split(x.lists, 1);
    UpperSame(w.lists, x.lists, 1);
    FirstList(w.lists);
    FirstList(x.lists);
    Regroup(multiset(Flat(x.lists[0])), multiset(Flat(w.lists[0])), multiset{p}, multiset(Upper(w.lists, 1)), multiset{p} + multiset(Upper(w.lists, 1)));
    hide Protected;
    OneMore(Entries(w), Entries(x), p);
  }

  lemma FirstList(lists: seq<seq<seq<Word>>>)
    requires |lists| > 0
    ensures Protected(lists, 1) == Flat(lists[0])
  {
    hide Flat;
    assert Protected(lists, 0) == [];
  }

  lemma OneMore(es: seq<Word>, fs: seq<Word>, p: Word)
    requires multiset(fs) == multiset(es) + multiset{p}
    ensures forall q {:trigger q in fs} :: q in fs <==> q in es || q == p
  {
    forall q ensures q in fs <==> q in es || q == p {
      assert q in multiset(fs) <==> q in multiset(es) || q == p;
    }
  }

  lemma DistinctMore(es: seq<Word>, fs: seq<Word>, p: Word)
    requires Distinct(es) && p !in es && multiset(fs) == multiset(es) + multiset{p}
    ensures Distinct(fs)
  {
    forall q {:trigger multiset(fs)[q]} ensures multiset(fs)[q] <= 1 {
      DistinctCount(es, q);
      assert q == p ==> q !in multiset(es);
    }
    CountDistinct(fs);
  }

  lemma DeliveredUntouched(w: World, tc: nat, last: nat, n: nat, item: Word, p: Word)
    requires Fit(w) && p in Entries(w) && tc + 1 < |w.h.mem| && last + 1 < |w.h.mem| && n + 1 < |w.h.mem|
    requires GoodWord(w.h.objs, Ptr(PairKind, tc)) && GoodWord(w.h.objs, Ptr(PairKind, last)) && GoodWord(w.h.objs, Ptr(PairKind, n))
    requires NotEntry(w, tc) && NotEntry(w, last) && NotEntry(w, n)
    ensures SameEntry(w.h, w.h.(mem := Appended(w.h.mem, tc, last, n, item)), p)
  {
    hide WellFormed, Placed, Private, Distinct, Protected, CardsSound;
    PlacedEntry(w.h, w.lists, GENERATIONS, p);
    EntryWords(w.h, p);
    EntryWords(w.h, Ptr(PairKind, tc));
    EntryWords(w.h, Ptr(PairKind, last));
    EntryWords(w.h, Ptr(PairKind, n));
    assert p == Ptr(PairKind, p.addr);
    assert p.addr != tc && p.addr != last && p.addr != n;
  }

  lemma DeliversFit(w: World, x: World, tc: nat, last: nat, n: nat, item: Word)
    requires Fit(w) && Delivers(w, x, tc, last, n, item)
    ensures Fit(x)
  {
    hide WellFormed, CardsSound, Placed, Private, Distinct, SameEntry, Protected, Appended, Signalled;
    AppendKeepsSound(w.h, w.dirty, tc, last, n, item);
    forall p {:trigger p in Entries(w)} | p in Entries(w) ensures SameEntry(w.h, x.h, p) { DeliveredUntouched(w, tc, last, n, item, p); }
    ListsStay(w.h, x.h, w.lists);
  }

  // ---------- A collection ----------

  /** The entry p of a list after the collection is the entry p0 from before, where it is now. */
  ghost predicate Came(w: World, cg: nat, r: Report, p0: Word, p: Word)
    requires |w.lists| == GENERATIONS
  {
    p0 in Entries(w) && EntryOk(w.h, p0) && Live(cg, r.end.segs, r.end.fwd, p0) && p == ImageOf(r.end.fwd, p0)
  }

  /** Entries that are kept or delivered have been moved themselves, if they were to be collected. */
  lemma EntryLives(w: World, cg: nat, r: Report, x: World, forward: seq<seq<Word>>, p: Word)
    requires Ready(w, cg) && Collection(w, cg, r, x, forward) && (p in r.kept || p in r.forwarded)
    ensures p in Protected(w.lists, cg + 1) && EntryOk(w.h, p) && Live(cg, r.end.segs, r.end.fwd, p)
  {
    hide WellFormed, CardsSound, Protected, Reachable, Survived, Onward, AtRest, ListsNext, Finished, RootsDone, Closed, PagesWanted, RootsGood, OlderLists, Private;
    ThreeParts(r.kept, r.forwarded, r.dropped, Protected(w.lists, cg + 1));
    ReachableEnough(w.h, cg, w.roots, Protected(w.lists, cg + 1));
    assert Wanted(w.h, cg, Survived(w.h, cg, r.end), p);
    if Older(cg, w.h.segs, p.addr) { EndInv(w, cg, r, x, forward); OlderStays(w.h, cg, r.end, p.addr); }
  }

  lemma EndInv(w: World, cg: nat, r: Report, x: World, forward: seq<seq<Word>>)
    requires Collection(w, cg, r, x, forward)
    ensures Finished(w.h, cg, r.end, x.h.mem, r.scanned) && Inv(w.h, cg, r.end) && WellFormed(w.h) && (forall a :: a in r.end.fwd ==> a in w.h.objs)
    ensures x.h == NextHeap(w.h, cg, r.end, x.h.mem)
    ensures |x.h.mem| == |r.end.mem| == 512 * |r.end.segs| && |w.h.mem| <= |x.h.mem| && |x.h.segs| == |r.end.segs|
  {
    hide Inv, WellFormed, PagesDone, WeakFixed;
    NextSizes(w.h, cg, r.end, x.h.mem);
  }

  /** An entry of a list that is not collected stays where it is. */
  lemma OlderEntry(w: World, cg: nat, r: Report, x: World, forward: seq<seq<Word>>, g: nat, p: Word)
    requires Fit(w) && Collection(w, cg, r, x, forward) && cg < g < GENERATIONS && p in Flat(w.lists[g])
    ensures Came(w, cg, r, p, p) && Older(cg, w.h.segs, p.addr)
  {
    hide WellFormed, CardsSound, Protected, Flat, Finished, Exact, GuardiansServed, ListsNext, Private, Distinct, RootsDone;
    EndInv(w, cg, r, x, forward);
    ProtectedPart(w.lists, g, GENERATIONS);
    assert EntryOk(w.h, p) && Older(cg, w.h.segs, p.addr);
    OlderStays(w.h, cg, r.end, p.addr);
    NotMoved(w.h, cg, r.end, p.addr);
  }

  /** Where an entry of the new lists comes from. */
  lemma NewEntry(w: World, cg: nat, r: Report, x: World, forward: seq<seq<Word>>, g: nat, p: Word) returns (p0: Word)
    requires Fit(w) && Collection(w, cg, r, x, forward) && g < |x.lists| && p in Flat(x.lists[g])
    ensures Came(w, cg, r, p0, p) && ((Older(cg, w.h.segs, p0.addr) && g <= SegOf(w.h.segs, p0.addr).gen) || g == NextGen(cg))
  {
    hide Inv, WellFormed, CardsSound, Protected, Flat, Collected, Exact, GuardiansServed, Private, Distinct;
    FitReady(w, cg);
    var next := NextGen(cg);
    assert x.lists[g] == x.lists[g];
    FlatNone();
    if g == next && p !in multiset(Flat(if next <= cg then [] else w.lists[next])) {
      InNext(cg, r.end.fwd, w.lists, x.lists, forward, r.kept, r.forwarded, p);
      var k :| 0 <= k < |r.kept| && ImageOf(r.end.fwd, r.kept[k]) == p;
      p0 := r.kept[k];
      EntryLives(w, cg, r, x, forward, p0);
      ProtectedGrows(w.lists, cg + 1, GENERATIONS, p0);
    } else {
      p0 := p;
      OlderEntry(w, cg, r, x, forward, g, p);
    }
  }

  lemma FlatNone()
    ensures Flat([]) == []
  {
  }

  lemma InNext(cg: nat, fwd: map<nat, nat>, before: seq<seq<seq<Word>>>, now: seq<seq<seq<Word>>>, forward: seq<seq<Word>>, kept: seq<Word>, forwarded: seq<Word>, p: Word)
    requires |before| == GENERATIONS && cg <= OLDEST && ListsNext(cg, fwd, before, now, forward, kept, forwarded)
    requires p in Flat(now[NextGen(cg)]) && p !in multiset(Flat(if NextGen(cg) <= cg then [] else before[NextGen(cg)]))
    ensures exists k :: 0 <= k < |kept| && ImageOf(fwd, kept[k]) == p
  {
    hide Flat;
    var m := multiset(Flat(now[NextGen(cg)]));
    assert p in m;
    assert p in multiset(Images(fwd, kept));
    var k :| 0 <= k < |kept| && Images(fwd, kept)[k] == p;
  }

  /** The entry is a pair of the new heap, on a page that is no younger than before the collection. */
  lemma CamePlaced(w: World, cg: nat, r: Report, x: World, forward: seq<seq<Word>>, p0: Word, p: Word)
    requires Collection(w, cg, r, x, forward) && Came(w, cg, r, p0, p)
    ensures EntryOk(x.h, p) && p.addr < 512 * |x.h.segs| && p.addr == Place(r.end.fwd, p0.addr) && p0.addr < |w.h.mem|
    ensures if p0.addr in r.end.fwd then SegOf(x.h.segs, p.addr).gen == NextGen(cg) && !Older(cg, w.h.segs, p0.addr)
            else Older(cg, w.h.segs, p0.addr) && SegOf(x.h.segs, p.addr) == SegOf(w.h.segs, p0.addr)
  {
    hide Inv, WellFormed, Protected, Flat, Exact, GuardiansServed, ListsNext, RootsDone;
    EndInv(w, cg, r, x, forward);
    PlaceOfObject(w.h, cg, r.end, x.h.mem, r.scanned, p0.addr);
    PairPlaced(w.h, cg, r.end, p0.addr);
    if Older(cg, w.h.segs, p0.addr) { NotMoved(w.h, cg, r.end, p0.addr); }
  }

  lemma PairPlaced(h0: Heap, cg: nat, s: St, a: nat)
    requires Inv(h0, cg, s) && a in h0.objs && h0.objs[a] == PairKind && (a in s.fwd || Older(cg, s.segs, a))
    ensures Place(s.fwd, a) < 512 * |FinalSegs(cg, s.segs)| && a < 512 * |h0.segs|
    ensures if a in s.fwd then SegOf(FinalSegs(cg, s.segs), s.fwd[a]).gen == NextGen(cg)
            else Older(cg, h0.segs, a) && SegOf(FinalSegs(cg, s.segs), a) == SegOf(h0.segs, a)
  {
    hide CopiesTraced, OldIntact, ColoursOk, WhiteIntact, MarksOk, RangesOk, FreeOk, MetasOk, NewPagesOk, CopiesApart, WellFormed, PlacesOk, ObjectsWhole, SrcInCopies;
    InvObject(h0, cg, s, a);
    if a in s.fwd {
      CopyFits(h0, cg, s, a);
      CopyPages(h0, cg, s, a);
    } else {
      StayingPages(h0, cg, s, a);
      PairPage(h0, cg, s, a);
    }
  }

  lemma CollectionPlaced(w: World, cg: nat, r: Report, x: World, forward: seq<seq<Word>>)
    requires Fit(w) && Collection(w, cg, r, x, forward)
    ensures Placed(x.h, x.lists)
  {
    hide Collection, Fit, Flat;
    forall g, p {:trigger p in Flat(x.lists[g])} | 0 <= g < |x.lists| && p in Flat(x.lists[g])
      ensures EntryOk(x.h, p) && p.addr < 512 * |x.h.segs| && g <= SegOf(x.h.segs, p.addr).gen
    {
      var p0 := NewEntry(w, cg, r, x, forward, g, p);
      CamePlaced(w, cg, r, x, forward, p0, p);
      if Older(cg, w.h.segs, p0.addr) { NextOldest(w, cg, r, x, forward, p0.addr); }
    }
  }

  lemma NextOldest(w: World, cg: nat, r: Report, x: World, forward: seq<seq<Word>>, a: nat)
    requires Fit(w) && Collection(w, cg, r, x, forward) && Older(cg, w.h.segs, a)
    ensures NextGen(cg) <= SegOf(w.h.segs, a).gen
  {
    hide Collected, Exact, GuardiansServed, ListsNext, ObjectsOk, ObjectsApart, ContentsGood, PagesGood, Placed, Private, Distinct;
    assert SegOf(w.h.segs, a) == w.h.segs[a / 512];
  }

  /** The car of an entry after the collection. */
  lemma CarImage(w: World, cg: nat, r: Report, x: World, forward: seq<seq<Word>>, p0: Word, p: Word)
    requires Collection(w, cg, r, x, forward) && Came(w, cg, r, p0, p)
    ensures p.addr < |x.h.mem| && p0.addr < |w.h.mem| && GoodWord(w.h.objs, w.h.mem[p0.addr])
    ensures IsWeakImage(cg, r.end.segs, r.end.fwd, w.h.mem[p0.addr], x.h.mem[p.addr])
  {
    hide Inv, WellFormed, Protected, Flat, Exact, GuardiansServed, ListsNext, Finished, RootsDone;
    var a, s := p0.addr, r.end;
    EndInv(w, cg, r, x, forward);
    InvObject(w.h, cg, s, a);
    PairGood(w.h, a, 0);
    if SegOf(w.h.segs, a).typ == WeakPairs {
      WeakPairKept(w.h, cg, s, x.h.mem, r.scanned, a);
    } else {
      SlotImage(w.h, cg, s, x.h.mem, r.scanned, a, 0);
      ImageIsWeakImage(cg, s.segs, s.fwd, w.h.mem[a], x.h.mem[p.addr]);
    }
  }

  lemma CollectionPrivate(w: World, cg: nat, r: Report, x: World, forward: seq<seq<Word>>)
    requires Fit(w) && Collection(w, cg, r, x, forward) && |x.lists| == GENERATIONS
    ensures Private(x.h, Entries(x))
  {
    hide Collection, Fit, Flat, Protected;
    forall p, q {:trigger p in Entries(x), q in Entries(x)} | p in Entries(x) && q in Entries(x) && EntryOk(x.h, p) && p.addr < |x.h.mem|
      ensures x.h.mem[p.addr] != q
    {
      var g := InProtected(x.lists, GENERATIONS, p);
      var p0 := NewEntry(w, cg, r, x, forward, g, p);
      var f := InProtected(x.lists, GENERATIONS, q);
      var q0 := NewEntry(w, cg, r, x, forward, f, q);
      CarImage(w, cg, r, x, forward, p0, p);
      CarNotEntry(w, cg, r, x, forward, p0, p, q0, q);
    }
  }

  lemma CarNotEntry(w: World, cg: nat, r: Report, x: World, forward: seq<seq<Word>>, p0: Word, p: Word, q0: Word, q: Word)
    requires Fit(w) && Collection(w, cg, r, x, forward) && Came(w, cg, r, p0, p) && Came(w, cg, r, q0, q)
    requires p0.addr < |w.h.mem| && p.addr < |x.h.mem| && GoodWord(w.h.objs, w.h.mem[p0.addr])
    requires IsWeakImage(cg, r.end.segs, r.end.fwd, w.h.mem[p0.addr], x.h.mem[p.addr])
    ensures x.h.mem[p.addr] != q
  {
    hide Inv, WellFormed, CardsSound, Protected, Flat, Exact, GuardiansServed, ListsNext, Finished, RootsDone, Placed, Distinct;
    EndInv(w, cg, r, x, forward);
    var v, s := w.h.mem[p0.addr], r.end;
    assert v != q0;
    if x.h.mem[p.addr] == q {
      assert IsImage(cg, s.segs, s.fwd, v, q) && IsImage(cg, s.segs, s.fwd, q0, q);
      ImagesDistinct(w.h, cg, s, v, q0, q, q);
    }
  }

  lemma UpperFirst(lists: seq<seq<seq<Word>>>, n: nat)
    requires n < |lists|
    ensures multiset(Upper(lists, n)) == multiset(Flat(lists[n])) + multiset(Upper(lists, n + 1))
  {
    hide Flat;
    assert Upper(lists, n) == Flat(lists[n]) + Upper(lists, n + 1);
  }

  /** The entries after a collection, in number: those that are kept, and those that were not collected. */
  lemma CollectionCount(w: World, cg: nat, r: Report, x: World, forward: seq<seq<Word>>)
    requires |w.lists| == GENERATIONS && cg <= OLDEST && ListsNext(cg, r.end.fwd, w.lists, x.lists, forward, r.kept, r.forwarded)
    ensures |x.lists| == GENERATIONS && multiset(Entries(x)) == multiset(Images(r.end.fwd, r.kept)) + multiset(Upper(w.lists, cg + 1))
  {
    hide Flat, Images, Protected, Upper;
    var next := NextGen(cg);
    NoneProtected(x.lists, next);
    Split(x.lists, next);
    UpperFirst(x.lists, next);
    UpperSame(w.lists, x.lists, next + 1);
    if next <= cg {
      NoUpper(w.lists, cg + 1);
    } else {
      UpperFirst(w.lists, next);
    }
  }

  lemma NoUpper(lists: seq<seq<seq<Word>>>, n: nat)
    requires |lists| <= n
    ensures Upper(lists, n) == []
  {
  }

  /** The entries from before that are in a list afterwards, or are to be delivered. */
  function Lasting(w: World, cg: nat, r: Report): seq<Word> {
    r.forwarded + (r.kept + Upper(w.lists, cg + 1))
  }

  lemma CollectionSources(w: World, cg: nat, r: Report, x: World, forward: seq<seq<Word>>)
    requires Fit(w) && Collection(w, cg, r, x, forward)
    ensures Distinct(Lasting(w, cg, r))
    ensures forall p {:trigger p in Lasting(w, cg, r)} :: p in Lasting(w, cg, r) ==> p in Entries(w) && EntryOk(w.h, p) && Live(cg, r.end.segs, r.end.fwd, p)
    ensures forall p {:trigger p in Upper(w.lists, cg + 1)} :: p in Upper(w.lists, cg + 1) ==> ImageOf(r.end.fwd, p) == p
  {
    hide Inv, WellFormed, CardsSound, Protected, Flat, Collected, Exact, ListsNext, Placed, Private, Upper, Distinct, EntryOk, Live, OlderLists, RootsOk;
    FitReady(w, cg);
    var up, all := Upper(w.lists, cg + 1), Lasting(w, cg, r);
    Split(w.lists, cg + 1);
    assert multiset(all) == multiset(r.forwarded) + (multiset(r.kept) + multiset(up)) by { assert multiset(r.kept + up) == multiset(r.kept) + multiset(up); }
    LastingPart(r.kept, r.forwarded, r.dropped, up, Protected(w.lists, cg + 1), Entries(w), all);
    DistinctPart(all, Entries(w));
    forall p {:trigger p in up} | p in up ensures p in Entries(w) && EntryOk(w.h, p) && Live(cg, r.end.segs, r.end.fwd, p) && ImageOf(r.end.fwd, p) == p {
      var g := InUpper(w.lists, cg + 1, p);
      OlderEntry(w, cg, r, x, forward, g, p);
    }
    forall p {:trigger p in all} | p in all ensures p in Entries(w) && EntryOk(w.h, p) && Live(cg, r.end.segs, r.end.fwd, p) {
      if p !in up {
        EntryLives(w, cg, r, x, forward, p);
        ProtectedGrows(w.lists, cg + 1, GENERATIONS, p);
      }
    }
  }

  lemma LastingPart(kept: seq<Word>, forwarded: seq<Word>, dropped: seq<Word>, up: seq<Word>, low: seq<Word>, entries: seq<Word>, all: seq<Word>)
    requires multiset(kept) + multiset(forwarded) + multiset(dropped) == multiset(low) && multiset(entries) == multiset(low) + multiset(up)
    requires multiset(all) == multiset(forwarded) + (multiset(kept) + multiset(up))
    ensures multiset(all) <= multiset(entries)
  {
  }

  /** Images of different entries are different. */
  lemma ImagesDiffer(h0: Heap, cg: nat, s: St, es: seq<Word>)
    requires Inv(h0, cg, s) && Distinct(es) && forall p {:trigger p in es} :: p in es ==> EntryOk(h0, p) && Live(cg, s.segs, s.fwd, p)
    ensures Distinct(Images(s.fwd, es))
  {
    hide Inv;
    var im := Images(s.fwd, es);
    forall i, j {:trigger im[i], im[j]} | 0 <= i < j < |im| ensures im[i] != im[j] {
      assert es[i] in es && es[j] in es && es[i] != es[j];
      DistinctPlaces(h0, cg, s, es[i].addr, es[j].addr);
    }
  }

  lemma ImagesSame(fwd: map<nat, nat>, es: seq<Word>)
    requires forall p {:trigger p in es} :: p in es ==> ImageOf(fwd, p) == p
    ensures Images(fwd, es) == es
  {
    forall k | 0 <= k < |es| ensures Images(fwd, es)[k] == es[k] { assert es[k] in es; }
  }

  /** No cell is in the lists twice, nor in the lists and among those to be delivered. */
  lemma CollectionDistinct(w: World, cg: nat, r: Report, x: World, forward: seq<seq<Word>>)
    requires Fit(w) && Collection(w, cg, r, x, forward)
    ensures |x.lists| == GENERATIONS && Distinct(Flat(forward) + Entries(x)) && Distinct(Entries(x))
  {
    hide Inv, WellFormed, Fit, Protected, Flat, Collected, Exact, GuardiansServed, Upper, Distinct, EntryOk, Live, Images, ImageOf;
    CollectionCount(w, cg, r, x, forward);
    CollectionSources(w, cg, r, x, forward);
    EndInv(w, cg, r, x, forward);
    var up := Upper(w.lists, cg + 1);
    ImagesDiffer(w.h, cg, r.end, Lasting(w, cg, r));
    ImagesSame(r.end.fwd, up);
    var im := Images(r.end.fwd, Lasting(w, cg, r));
    ImagesAppend(r.end.fwd, r.forwarded, r.kept + up);
    ImagesAppend(r.end.fwd, r.kept, up);
    Both(im, Images(r.end.fwd, r.forwarded), Images(r.end.fwd, r.kept), up, Flat(forward), Entries(x));
    DistinctPart(Flat(forward) + Entries(x), im);
    DistinctPart(Entries(x), im);
  }

  lemma Both(im: seq<Word>, a: seq<Word>, b: seq<Word>, c: seq<Word>, forward: seq<Word>, entries: seq<Word>)
    requires im == a + (b + c) && multiset(forward) == multiset(a) && multiset(entries) == multiset(b) + multiset(c)
    ensures multiset(forward + entries) <= multiset(im) && multiset(entries) <= multiset(im)
  {
    assert multiset(b + c) == multiset(b) + multiset(c);
    assert multiset(im) == multiset(forward) + multiset(entries);
  }

  lemma CollectionRoots(w: World, cg: nat, r: Report, x: World, forward: seq<seq<Word>>)
    requires Fit(w) && Collection(w, cg, r, x, forward)
    ensures RootsOk(x.h, x.roots)
  {
    hide Inv, Sound, Exact, GuardiansServed, ListsNext, Placed, Private, Distinct, Finished, IsImage, IsWeakImage, GoodWord, WellFormed;
    EndInv(w, cg, r, x, forward);
    forall i {:trigger x.roots[i]} | 0 <= i < |x.roots| ensures GoodWord(x.h.objs, x.roots[i]) {
      assert w.roots[i] == w.roots[i];
      ImageIsWeakImage(cg, r.end.segs, r.end.fwd, w.roots[i], x.roots[i]);
      GoodImage(w.h, cg, r.end, w.roots[i], x.roots[i]);
    }
  }

  lemma CollectionSound(w: World, cg: nat, r: Report, x: World, forward: seq<seq<Word>>)
    requires Collection(w, cg, r, x, forward)
    ensures Sound(x.h, x.dirty)
  {
    hide WellFormed, CardsSound, Inv, WeakFixed, PagesDone;
    NextWellFormed(w.h, cg, r.end, x.h.mem, r.scanned);
    NextCardsSound(w.h, cg, r.end, x.h.mem, r.scanned);
  }

  /** A collection leaves everything as the next one needs it. */
  lemma CollectionFit(w: World, cg: nat, r: Report, x: World, forward: seq<seq<Word>>)
    requires Fit(w) && Collection(w, cg, r, x, forward)
    ensures Fit(x)
  {
    hide Sound, Collection, RootsOk, Placed, Private, Distinct;
    CollectionSound(w, cg, r, x, forward);
    CollectionRoots(w, cg, r, x, forward);
    CollectionPlaced(w, cg, r, x, forward);
    CollectionDistinct(w, cg, r, x, forward);
    CollectionPrivate(w, cg, r, x, forward);
  }

  lemma StepFit(w: World, x: World)
    requires Fit(w) && Step(w, x)
    ensures Fit(x)
  {
    hide Fit, Stores, StoresPlain, Allocates, Maps, Rooted, Registers, Delivers, Collection;
    if a: nat, i: nat, v :| Stores(w, x, a, i, v) {
      StoresFit(w, x, a, i, v);
    } else if a: nat, i: nat, n :| StoresPlain(w, x, a, i, n) {
      StoresPlainFit(w, x, a, i, n);
    } else if k, a: nat, words :| Allocates(w, x, k, a, words) {
      AllocatesFit(w, x, k, a, words);
    } else if p: nat, words, seg, cards :| Maps(w, x, p, words, seg, cards) {
      MapsFit(w, x, p, words, seg, cards);
    } else if Rooted(w, x) {
      RootedFit(w, x);
    } else if p :| Registers(w, x, p) {
      RegistersFit(w, x, p);
    } else if tc: nat, last: nat, p: nat, item :| Delivers(w, x, tc, last, p, item) {
      DeliversFit(w, x, tc, last, p, item);
    } else {
      var cg: nat, r, forward :| Collection(w, cg, r, x, forward);
      CollectionFit(w, cg, r, x, forward);
    }
  }

  lemma RootedFit(w: World, x: World)
    requires Fit(w) && Rooted(w, x)
    ensures Fit(x)
  {
    hide Sound, Placed, Private, Distinct;
  }

  /** In every state of every run of the program and the collector, the heap is well formed, every reference from an
      older page to a younger generation is recorded in the card that holds it, and a collection of any generation
      can begin. */
  lemma {:induction false} RunsKeepReady(run: seq<World>, n: nat, cg: nat)
    requires n < |run| && Fit(run[0]) && cg <= OLDEST
    requires forall i {:trigger run[i]} :: 0 <= i < n ==> Step(run[i], run[i + 1])
    ensures Fit(run[n]) && Sound(run[n].h, run[n].dirty) && Ready(run[n], cg)
  {
    hide Sound, Step, Ready, RootsOk, Placed, Private, Distinct;
    if n > 0 {
      RunsKeepReady(run, n - 1, cg);
      assert Step(run[n - 1], run[n - 1 + 1]);
      StepFit(run[n - 1], run[n]);
    }
    FitReady(run[n], cg);
  }
}
