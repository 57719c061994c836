/** The copying collector: allocation of copies, gathering of live objects, and the scan loop. */
module Collector {
  import opened Memory
  import opened GcState
  import opened GcSteps
  import opened GcMoves
  import opened GcAlloc
  import opened GcScan
  import opened GcReach
  import opened GcGather
  import opened GcLoop
  import opened GcDirty
  import opened GcExact

  class Gc {
    // The process control block: memory, segment vector, dirty vector (one nibble for each card).
    var mem: seq<Word>
    var segs: seq<Seg>
    var dirty: seq<seq<bv4>>
    // What lies after CLEANUP_MASK in memory.
    const stray: seq<bv4>
    // The collector: current meta pages, queues of full pages, generation being collected.
    var meta: map<MetaId, Meta>
    var queues: map<MetaId, seq<Range>>
    var work: seq<Range>
    var workId: MetaId
    var collectGen: nat
    // Everything outside the heap that refers to it, and the guardian entries: for each generation, and
    // those whose objects are to be delivered, a list of pages of references to pairs.
    var roots: seq<Word>
    var protectedList: seq<seq<seq<Word>>>
    var forwardList: seq<seq<Word>>
    // The heap as it was when the collection began, and what has happened to it since.
    ghost var h0: Heap
    ghost var fwd: map<nat, nat>
    ghost var src: map<nat, nat>
    ghost var raw: set<nat>
    // The objects of the heap when no collection is going on.
    ghost var objs: map<nat, Kind>
    // Any set of objects closed under strong references that holds the targets of the roots.
    ghost var keep: set<nat>

    ghost function Now(): St
      reads this
    {
      St(mem, segs, fwd, src, raw, Agenda(meta, queues, work, workId))
    }

    /** The heap, between collections. */
    ghost function Heap(): Heap
      reads this
    {
      Memory.Heap(mem, segs, objs)
    }

    ghost predicate Good()
      reads this
    {
      && Inv(h0, collectGen, Now())
      && |dirty| == |segs|
      && Closed(h0, collectGen, keep)
      && KeptOk(h0, collectGen, segs, fwd, src, keep)
    }

    /** Nothing is left to scan, and the free tails of the meta pages are clear. */
    ghost predicate Rested()
      reads this
    {
      HasIds(meta) && HasIds(queues) && Idle(meta, queues) && TailsClear(mem, meta)
    }

    ghost function Whites(): set<nat>
      reads this
    {
      GcMoves.Whites(h0, collectGen, segs, fwd)
    }

    // ---------- Allocation ----------

    /** ik_mmap_typed: new pages whose contents are unknown, marked as pure in the dirty vector. */
    method MmapTyped(pages: nat, seg: Seg) returns (base: nat, ghost junk: seq<Word>)
      modifies this`mem, this`segs, this`dirty
      ensures base == old(|mem|)
      ensures |junk| == 512 * pages && mem == old(mem) + junk
      ensures segs == old(segs) + seq(pages, _ => seg)
      ensures |dirty| == old(|dirty|) + pages && Grown(old(dirty), dirty)
    {
      base := |mem|;
      var words: seq<Word> := seq(512 * pages, _ => Imm(0));
      assert |words| == 512 * pages;
      words :| |words| == 512 * pages;
      junk := words;
      mem := mem + words;
      segs := segs + seq(pages, _ => seg);
      dirty := dirty + seq(pages, _ => PURE_PAGE);
    }

    /** The unused tail of a meta page is reset to the fixnum zero. */
    method ClearTail(lo: nat, hi: nat)
      requires lo <= hi <= |mem|
      modifies this`mem
      ensures mem == Zeroed(old(mem), lo, hi)
    {
      var w := lo;
      while w < hi
        invariant lo <= w <= hi && |mem| == old(|mem|)
        invariant forall x {:trigger mem[x]} :: 0 <= x < |mem| ==> mem[x] == if lo <= x < w then Imm(0) else old(mem)[x]
      {
        mem := mem[w := Imm(0)];
        w := w + 1;
      }
    }

    /** The used part of the old meta pages is queued for scanning, unless they hold raw data. */
    method RetireMeta(id: MetaId)
      requires Now().todo.Ok() && meta[id].ap <= meta[id].ep <= |mem|
      modifies this`mem, this`meta, this`queues
      ensures Now() == Retire(old(Now()), id)
    {
      var m := meta[id];
      if Queued(id) {
        queues := queues[id := [Range(m.aq, m.ap)] + queues[id]];
        ClearTail(m.ap, m.ep);
      }
      meta := meta[id := NO_META];
    }

    /** New pages become the current meta page; the first n words are allocated. */
    method OpenMeta(id: MetaId, n: nat, pages: nat) returns (b: nat, ghost junk: seq<Word>)
      requires Now().todo.Ok() && n <= 512 * pages
      modifies this`mem, this`segs, this`dirty, this`meta, this`raw
      ensures |junk| == 512 * pages && b == old(|mem|)
      ensures Now() == MmapMeta(old(Now()), collectGen, id, n, junk, pages)
      ensures |dirty| - |segs| == old(|dirty| - |segs|) && Grown(old(dirty), dirty)
    {
      hide Block, Tagged, Grown;
      ghost var s := Now();
      b, junk := MmapTyped(pages, Tagged(collectGen, MetaType(id), false));
      raw := raw + Block(b, 512 * pages);
      assert Now() == Mmap(s, junk, pages, Tagged(collectGen, MetaType(id), false));
      hide Mmap;
      meta := meta[id := Meta(b + n, b, b + 512 * pages, b)];
      raw := raw - Block(b + n, 512 * pages - n);
    }

    method BumpMeta(id: MetaId, n: nat) returns (b: nat)
      requires Now().todo.Ok()
      modifies this`meta, this`raw
      ensures b == old(meta[id].ap) && Now() == Bump(old(Now()), id, n)
    {
      b := meta[id].ap;
      meta := meta[id := meta[id].(ap := b + n)];
      raw := raw + Block(b, n);
    }

    /** meta_alloc_extending: the current page is full; go on with new pages. */
    method MetaAllocExtending(id: MetaId, n: nat) returns (b: nat)
      requires Good() && 0 < n && n % 2 == 0 && id != MetaWeak
      modifies this`mem, this`segs, this`dirty, this`meta, this`queues, this`raw
      ensures Good() && Allocated(h0, collectGen, old(Now()), Now(), id, b, n)
      ensures Grown(old(dirty), dirty)
    {
      hide Inv, Later, Closed, KeptOk, Reserved, PagesAre, GcMoves.Whites, Grown, MmapMeta, Extends, Zeroed, Block;
      ghost var s0 := Now();
      MetaBounds(h0, collectGen, s0, id);
      LaterRefl(h0, collectGen, s0);
      if meta[id].base > 0 {
        RetireKeepsInv(h0, collectGen, s0, id);
        RetireMeta(id);
      }
      ghost var s := Now();
      ghost var junk;
      b, junk := OpenMeta(id, n, (n + 511) / 512);
      MmapMetaAllocates(h0, collectGen, s, id, n, junk, (n + 511) / 512);
      AllocatedAfter(h0, collectGen, s0, s, Now(), id, b, n);
      InvExtendsKept(h0, collectGen, s0, Now(), keep);
    }

    /** meta_alloc: the next n words of the current meta page, or of a new one when they do not fit. */
    method MetaAlloc(id: MetaId, n: nat) returns (b: nat)
      requires Good() && 0 < n && n % 2 == 0 && id != MetaWeak
      modifies this`mem, this`segs, this`dirty, this`meta, this`queues, this`raw
      ensures Good() && Allocated(h0, collectGen, old(Now()), Now(), id, b, n)
      ensures Grown(old(dirty), dirty)
    {
      hide Inv, Later, Closed, KeptOk, Reserved, PagesAre, GcMoves.Whites, Grown;
      ghost var s := Now();
      MetaBounds(h0, collectGen, s, id);
      GrownRefl(dirty);
      if meta[id].ap + n > meta[id].ep {
        b := MetaAllocExtending(id, n);
      } else {
        BumpAllocates(h0, collectGen, s, id, n);
        b := BumpMeta(id, n);
        InvExtendsKept(h0, collectGen, s, Now(), keep);
      }
    }

    /** gc_alloc_new_weak_pair: a full page of weak pairs is left behind without being queued. */
    method AllocWeakPair() returns (b: nat)
      requires Good()
      modifies this`mem, this`segs, this`dirty, this`meta, this`queues, this`raw
      ensures Good() && Allocated(h0, collectGen, old(Now()), Now(), MetaWeak, b, 2)
      ensures Grown(old(dirty), dirty)
    {
      hide Inv, Later, Closed, KeptOk, Reserved, PagesAre, GcMoves.Whites, Grown;
      ghost var s := Now();
      MetaBounds(h0, collectGen, s, MetaWeak);
      GrownRefl(dirty);
      if meta[MetaWeak].ap + 2 > meta[MetaWeak].ep {
        ghost var junk;
        b, junk := OpenMeta(MetaWeak, 2, 1);
        WeakPageAllocates(h0, collectGen, s, junk);
      } else {
        BumpAllocates(h0, collectGen, s, MetaWeak, 2);
        b := BumpMeta(MetaWeak, 2);
      }
      InvExtendsKept(h0, collectGen, s, Now(), keep);
    }

    /** The new pages of a large vector: cleared after the vector, and queued for scanning. */
    method OpenLarge(n: nat, pages: nat) returns (b: nat, ghost junk: seq<Word>)
      requires Now().todo.Ok() && n <= 512 * pages && |mem| == 512 * |segs|
      modifies this`mem, this`segs, this`dirty, this`queues, this`raw
      ensures |junk| == 512 * pages && b == old(|mem|)
      ensures Now() == MmapLarge(old(Now()), collectGen, n, junk, pages)
      ensures |dirty| - |segs| == old(|dirty| - |segs|) && Grown(old(dirty), dirty)
    {
      AlignFits(n, pages);
      hide Zeroed, Block, Tagged, Grown, Align;
      ghost var s := Now();
      b, junk := MmapTyped(pages, Tagged(collectGen, Pointers, true));
      raw := raw + Block(b, 512 * pages);
      assert Now() == Mmap(s, junk, pages, Tagged(collectGen, Pointers, true));
      hide Mmap;
      ClearTail(b + n, b + 512 * pages);
      queues := queues[MetaPtrs := [Range(b, b + n)] + queues[MetaPtrs]];
      raw := raw - Block(b + Align(n), 512 * pages - Align(n));
    }

    /** gc_alloc_new_large_ptr */
    method AllocLargePtr(n: nat) returns (b: nat)
      requires Good() && 0 < n
      modifies this`mem, this`segs, this`dirty, this`queues, this`raw
      ensures Good() && AllocatedLarge(h0, collectGen, old(Now()), Now(), b, n)
      ensures Grown(old(dirty), dirty)
    {
      hide Inv, Later, Closed, KeptOk, Reserved, PagesAre, GcMoves.Whites, Grown;
      ghost var s := Now();
      MetaBounds(h0, collectGen, s, MetaPtrs);
      ghost var junk;
      b, junk := OpenLarge(n, (n + 511) / 512);
      MmapLargeAllocates(h0, collectGen, s, n, junk, (n + 511) / 512);
      InvExtendsKept(h0, collectGen, s, Now(), keep);
    }

    /** enqueue_large_ptr: the pages of the n words at a are retagged one by one, and the words are queued. */
    method EnqueueLargePtr(a: nat, n: nat)
      requires Now().todo.Ok() && 0 < n && a + n <= 512 * |segs|
      modifies this`segs, this`queues, this`src
      ensures Now() == Promote(collectGen, old(Now()), a, n)
    {
      var page, last := a / 512, (a + n - 1) / 512;
      while page <= last
        invariant a / 512 <= page <= last + 1 && |segs| == old(|segs|)
        invariant queues == old(queues) && src == old(src)
        invariant forall p {:trigger segs[p]} :: 0 <= p < |segs| ==>
                    segs[p] == if a / 512 <= p < page then Tagged(collectGen, Pointers, true) else old(segs)[p]
      {
        segs := segs[page := Tagged(collectGen, Pointers, true)];
        page := page + 1;
      }
      assert segs == PromotedSegs(old(segs), a / 512, last, Tagged(collectGen, Pointers, true));
      queues := queues[MetaPtrs := [Range(a, a + n)] + queues[MetaPtrs]];
      src := src + Trace(a, a, n);
    }

    // ---------- Moving ----------

    /** memcpy */
    method CopyWords(a: nat, b: nat, n: nat)
      requires a + n <= b && b + n <= |mem|
      modifies this`mem
      ensures mem == Copied(old(mem), a, b, n)
    {
      var i := 0;
      while i < n
        invariant i <= n && |mem| == old(|mem|)
        invariant forall w {:trigger mem[w]} :: 0 <= w < |mem| ==> mem[w] == if b <= w < b + i then old(mem)[a + (w - b)] else old(mem)[w]
      {
        mem := mem[b + i := mem[a + i]];
        i := i + 1;
      }
    }

    /** The n words at a are copied to the size words at b, then the old object gets the mark and the new reference. */
    method MoveWhole(k: Kind, a: nat, b: nat, n: nat, size: nat)
      requires n <= size <= n + 1 && 0 < size && a + n <= b && b + size <= |mem| && a + 1 < b
      modifies this`mem, this`fwd, this`src, this`raw
      ensures var s := old(Now()); Now() == Move(s, k, a, b, n, MovedWords(s.mem, k, a, b, n, size), s.raw - Block(b, size))
    {
      if k != DataKind {
        mem := mem[b + size - 1 := Imm(0)];
      }
      CopyWords(a, b, n);
      mem := mem[a := Fwd];
      mem := mem[a + 1 := Ptr(k, b)];
      assert mem == Marked(MovedWords(old(mem), k, a, b, n, size), k, a, b);
      fwd := fwd[a := b];
      src := src + Trace(a, b, n);
      raw := raw - Block(b, size);
    }

    lemma ObjectAt(a: nat)
      requires Good() && White(h0, collectGen, segs, fwd, a) && h0.objs[a] != PairKind
      ensures Now().todo.Ok() && a in h0.objs && a + 1 < |h0.mem| <= |mem| == 512 * |segs| && mem[a] == h0.mem[a] && |h0.mem| == 512 * |h0.segs|
      ensures mem[a].Imm? && mem[a].n >= 0 && UsedOf(h0, a) == 1 + mem[a].n
      ensures SegOf(segs, a) == SegOf(h0.segs, a) && (SegOf(h0.segs, a).large ==> SizeOf(h0, a) >= 512 && h0.objs[a] == VectorKind)
    {
      hide Inv, Closed, KeptOk;
      InvObject(h0, collectGen, Now(), a);
      WhiteObject(h0, collectGen, Now(), a);
    }

    /** The object at a is moved to words of meta page id. */
    method MoveSmall(k: Kind, id: MetaId, a: nat, n: nat) returns (u: Word)
      requires Good() && a in keep && White(h0, collectGen, segs, fwd, a) && h0.objs[a] == k && n == UsedOf(h0, a)
      requires (k == VectorKind && id == MetaPtrs && SizeOf(h0, a) < 512) || (k == DataKind && id == MetaData)
      modifies this`mem, this`segs, this`dirty, this`meta, this`queues, this`fwd, this`src, this`raw
      ensures Good() && Gathered(h0, collectGen, old(Now()), Now()) && Grown(old(dirty), dirty)
      ensures IsImage(collectGen, segs, fwd, Ptr(k, a), u)
      ensures u.Ptr? && u.addr < 512 * |segs| && SegOf(segs, u.addr) == Tagged(collectGen, MetaType(id), false)
    {
      hide Inv, Later, Closed, KeptOk, Reserved, PagesAre, Extends, Align, UsedOf, Gathered, Allocated, White, GoodWord, Grown, GcMoves.Whites;
      ghost var s := Now();
      ObjectAt(a);
      AlignOk(n);
      var size := Align(n);
      var b := MetaAlloc(id, size);
      ghost var t := Now();
      AllocatedPage(h0, collectGen, s, t, id, b, size);
      SmallGathers(h0, collectGen, keep, s, t, id, a, b);
      MoveWhole(k, a, b, n, size);
      assert Now() == Move(t, k, a, b, n, MovedWords(t.mem, k, a, b, n, size), t.raw - Block(b, size));
      u := Ptr(k, b);
    }

    /** The object at a is moved to pages of its own. */
    method MoveLarge(a: nat, n: nat) returns (u: Word)
      requires Good() && a in keep && White(h0, collectGen, segs, fwd, a) && h0.objs[a] == VectorKind && n == UsedOf(h0, a)
      requires SizeOf(h0, a) >= 512 && a < 512 * |segs| && !SegOf(segs, a).large
      modifies this`mem, this`segs, this`dirty, this`meta, this`queues, this`fwd, this`src, this`raw
      ensures Good() && Gathered(h0, collectGen, old(Now()), Now()) && Grown(old(dirty), dirty)
      ensures IsImage(collectGen, segs, fwd, Ptr(VectorKind, a), u)
      ensures u.Ptr? && u.addr % 512 == 0 && a < u.addr < 512 * |segs| && SegOf(segs, u.addr) == Tagged(collectGen, Pointers, true)
    {
      hide Inv, Later, Closed, KeptOk, Reserved, PagesAre, Extends, Align, UsedOf, Gathered, AllocatedLarge, White, GoodWord, Grown, GcMoves.Whites;
      ghost var s := Now();
      ObjectAt(a);
      AlignOk(n);
      var size := Align(n);
      var b := AllocLargePtr(n);
      ghost var t := Now();
      LargePage(h0, collectGen, s, t, b, n);
      LargeGathers(h0, collectGen, keep, s, t, a, b);
      MoveWhole(VectorKind, a, b, n, size);
      assert Now() == Move(t, VectorKind, a, b, n, MovedWords(t.mem, VectorKind, a, b, n, size), t.raw - Block(b, size));
      u := Ptr(VectorKind, b);
    }

    /** The branch of gather_live_object_proc for vectors. */
    method GatherVector(a: nat) returns (u: Word)
      requires Good() && a in keep && White(h0, collectGen, segs, fwd, a) && h0.objs[a] == VectorKind
      modifies this`mem, this`segs, this`dirty, this`meta, this`queues, this`fwd, this`src, this`raw
      ensures Good() && Gathered(h0, collectGen, old(Now()), Now()) && Grown(old(dirty), dirty)
      ensures IsImage(collectGen, segs, fwd, Ptr(VectorKind, a), u)
      ensures u.Ptr? && u.addr < 512 * |segs| && SegOf(segs, u.addr) == Tagged(collectGen, Pointers, SizeOf(h0, a) >= 512)
      ensures SizeOf(h0, a) >= 512 ==> (a < 512 * |h0.segs| && SegOf(h0.segs, a).large <==> u.addr == a)
    {
      hide Inv, Later, Closed, KeptOk, Align, UsedOf, Gathered, GoodWord, Grown, GcMoves.Whites;
      ghost var s := Now();
      ObjectAt(a);
      var n := 1 + mem[a].n;
      assert Align(n) == SizeOf(h0, a);
      if Align(n) >= PAGE_WORDS {
        if segs[a / 512].large {
          PromoteGathers(h0, collectGen, keep, s, a);
          RetaggedPage(collectGen, s, a, n);
          EnqueueLargePtr(a, n);
          assert Now() == Promote(collectGen, s, a, n);
          GrownRefl(dirty);
          u := Ptr(VectorKind, a);
        } else {
          u := MoveLarge(a, n);
        }
      } else {
        u := MoveSmall(VectorKind, MetaPtrs, a, n);
      }
    }

    /** The branches for objects that hold raw data. */
    method GatherData(a: nat) returns (u: Word)
      requires Good() && a in keep && White(h0, collectGen, segs, fwd, a) && h0.objs[a] == DataKind
      modifies this`mem, this`segs, this`dirty, this`meta, this`queues, this`fwd, this`src, this`raw
      ensures Good() && Gathered(h0, collectGen, old(Now()), Now()) && Grown(old(dirty), dirty)
      ensures IsImage(collectGen, segs, fwd, Ptr(DataKind, a), u)
    {
      ObjectAt(a);
      u := MoveSmall(DataKind, MetaData, a, 1 + mem[a].n);
    }

    /** One turn of gather_live_list: pair x gets the copy at b, and loc, the cdr of the copy of pair c,
        refers to it. */
    method MovePair(x: nat, b: nat, ghost c: nat, loc: nat, first: bool)
      requires x + 1 < b && b + 1 < |mem|
      requires !first ==> c in fwd && c != x && loc == fwd[c] + 1 && x + 1 < loc < |mem| && loc != b
      modifies this`mem, this`fwd, this`src, this`raw
      ensures Now() == var m := MovedPair(old(Now()), x, b); if first then m else Fill(m, c, Ptr(PairKind, b))
    {
      var firstWord := mem[x];
      if !first {
        mem := mem[loc := Ptr(PairKind, b)];
      }
      mem := mem[x := Fwd];
      mem := mem[x + 1 := Ptr(PairKind, b)];
      mem := mem[b := firstWord];
      fwd := fwd[x := b];
      src := src + Trace(x, b, 1);
      raw := raw - {b};
      if !first {
        src := src[loc := c + 1];
        raw := raw - {loc};
      }
      assert mem == var m := MovedPair(old(Now()), x, b); if first then m.mem else Fill(m, c, Ptr(PairKind, b)).mem;
    }

    lemma PairPage(x: nat)
      requires Good() && White(h0, collectGen, segs, fwd, x) && h0.objs[x] == PairKind
      ensures x in h0.objs && x < |h0.mem| <= 512 * |segs| && |h0.mem| == 512 * |h0.segs| && SegOf(segs, x) == SegOf(h0.segs, x)
    {
      hide Inv, Closed, KeptOk;
      InvObject(h0, collectGen, Now(), x);
      WhiteObject(h0, collectGen, Now(), x);
    }

    /** One pair of a list is moved; the cdr of its copy is still to be set. */
    method MoveNextPair(ghost s0: St, x: nat, ghost c: nat, loc: nat, first: bool) returns (b: nat)
      requires Good() && x in keep && White(h0, collectGen, segs, fwd, x) && h0.objs[x] == PairKind
      requires first ==> Now() == s0
      requires !first ==> SpineOk(h0, collectGen, s0, Now(), c) && h0.mem[c + 1] == Ptr(PairKind, x) && loc == fwd[c] + 1
      modifies this`mem, this`segs, this`dirty, this`meta, this`queues, this`fwd, this`src, this`raw
      ensures Good() && SpineOk(h0, collectGen, s0, Now(), x) && Grown(old(dirty), dirty)
      ensures fwd == old(fwd)[x := b] && Whites() < old(Whites())
    {
      hide Inv, Later, Closed, KeptOk, Reserved, PagesAre, Extends, GcMoves.Whites, Grown, SpineOk, Allocated, White, GoodWord, IsImage;
      ghost var s := Now();
      PairPage(x);
      ghost var id := if SegOf(segs, x).typ == WeakPairs then MetaWeak else MetaPair;
      if segs[x / 512].typ != WeakPairs {
        b := MetaAlloc(MetaPair, 2);
      } else {
        b := AllocWeakPair();
      }
      ghost var t := Now();
      if first {
        PairStarts(h0, collectGen, keep, s, t, id, x, b);
      } else {
        PairContinues(h0, collectGen, keep, s0, s, t, id, c, x, b);
      }
      MovePair(x, b, c, loc, first);
      assert first ==> Now() == MovedPair(t, x, b);
      assert !first ==> Now() == Fill(MovedPair(t, x, b), c, Ptr(PairKind, b));
    }

    /** The cdr of the copy of pair c is set, and the list is done with. */
    method SetCdr(ghost s0: St, loc: nat, ghost c: nat, u: Word)
      requires Good() && SpineOk(h0, collectGen, s0, Now(), c) && loc == fwd[c] + 1
      requires IsImage(collectGen, segs, fwd, h0.mem[c + 1], u)
      modifies this`mem, this`src, this`raw
      ensures Good() && Gathered(h0, collectGen, s0, Now())
    {
      hide Inv, Later, Closed, KeptOk, GcMoves.Whites, Grown;
      ghost var s := Now();
      PairEnds(h0, collectGen, keep, s0, s, c, u);
      mem := mem[loc := u];
      src := src[loc := c + 1];
      raw := raw - {loc};
      assert Now() == Fill(s, c, u);
    }

    lemma PairWords(x: nat)
      requires Good() && x in keep && White(h0, collectGen, segs, fwd, x) && h0.objs[x] == PairKind
      ensures x in h0.objs && x !in fwd && x + 1 < |h0.mem| && x + 1 < |mem| && mem[x + 1] == h0.mem[x + 1]
      ensures GoodWord(h0.objs, mem[x + 1]) && Wanted(h0, collectGen, keep, mem[x + 1])
    {
      hide Inv, Closed, KeptOk;
      InvObject(h0, collectGen, Now(), x);
      WhiteObject(h0, collectGen, Now(), x);
      CdrWanted(h0, collectGen, keep, x);
    }

    /** The loop of gather_live_list: the pairs of a list are moved one after the other along the cdrs; the
        cars are left to the scan loop, or, for weak pairs, to the very end. The cdr of the last copy, at loc,
        is still to be set to u. */
    method MoveSpine(a: nat) returns (y: Word, loc: nat, ghost c: nat, u: Word)
      requires Good() && a in keep && White(h0, collectGen, segs, fwd, a) && h0.objs[a] == PairKind
      modifies this`mem, this`segs, this`dirty, this`meta, this`queues, this`fwd, this`src, this`raw
      ensures Good() && SpineOk(h0, collectGen, old(Now()), Now(), c) && loc == fwd[c] + 1 && Grown(old(dirty), dirty)
      ensures IsImage(collectGen, segs, fwd, h0.mem[c + 1], u)
      ensures a in fwd && y == Ptr(PairKind, fwd[a])
      decreases Whites(), 0
    {
      hide Inv, Good, Closed, KeptOk, Grown, SpineOk, Gathered, IsImage, White, GoodWord, Wanted, GcMoves.Whites;
      ghost var s0 := Now();
      var x: nat, first: bool := a, true;
      c, loc, y, u := a, 0, Imm(0), Imm(0);
      PairWords(a);
      GrownRefl(dirty);
      while true
        invariant Good() && x in keep && White(h0, collectGen, segs, fwd, x) && x in h0.objs && h0.objs[x] == PairKind && Grown(old(dirty), dirty)
        invariant first ==> x == a && Now() == s0
        invariant !first ==> SpineOk(h0, collectGen, s0, Now(), c) && c in fwd && c + 1 < |h0.mem| && h0.mem[c + 1] == Ptr(PairKind, x) && loc == fwd[c] + 1
        invariant !first ==> a in fwd && y == Ptr(PairKind, fwd[a])
        decreases Whites()
      {
        PairWords(x);
        var second := mem[x + 1];
        ghost var d := dirty;
        var b := MoveNextPair(s0, x, c, loc, first);
        GrownTrans(old(dirty), d, dirty);
        if first {
          y := Ptr(PairKind, b);
        }
        first, loc, c := false, b + 1, x;
        d := dirty;
        ghost var f := fwd;
        assert c in f && f[c] == b && a in f;
        var next;
        u, next := GatherCdr(s0, c, second);
        assert c in fwd && a in fwd;
        GrownTrans(old(dirty), d, dirty);
        if !next {
          return;
        }
        x := second.addr;
      }
    }

    /** gather_live_list */
    method GatherList(a: nat) returns (y: Word)
      requires Good() && a in keep && White(h0, collectGen, segs, fwd, a) && h0.objs[a] == PairKind
      modifies this`mem, this`segs, this`dirty, this`meta, this`queues, this`fwd, this`src, this`raw
      ensures Good() && Gathered(h0, collectGen, old(Now()), Now()) && Grown(old(dirty), dirty)
      ensures IsImage(collectGen, segs, fwd, Ptr(PairKind, a), y)
      decreases Whites(), 1
    {
      hide Inv, Later, Closed, KeptOk, Grown, SpineOk, Gathered, IsImage;
      ghost var s0 := Now();
      var loc, u;
      ghost var c;
      y, loc, c, u := MoveSpine(a);
      SetCdr(s0, loc, c, u);
      ImageNow(h0, collectGen, Now(), PairKind, a);
    }

    /** What gather_live_list does with the cdr of pair c: either it is the next pair of the list to be moved,
        or u is what to store in the copy. */
    method GatherCdr(ghost s0: St, ghost c: nat, second: Word) returns (u: Word, next: bool)
      requires Good() && SpineOk(h0, collectGen, s0, Now(), c) && h0.mem[c + 1] == second
      requires GoodWord(h0.objs, second) && Wanted(h0, collectGen, keep, second)
      modifies this`mem, this`segs, this`dirty, this`meta, this`queues, this`fwd, this`src, this`raw
      ensures Good() && SpineOk(h0, collectGen, s0, Now(), c) && Grown(old(dirty), dirty)
      ensures forall a {:trigger a in fwd} :: a in old(fwd) ==> a in fwd && fwd[a] == old(fwd)[a]
      ensures next ==> Now() == old(Now()) && second.Ptr? && White(h0, collectGen, segs, fwd, second.addr)
      ensures next ==> second.addr in h0.objs && h0.objs[second.addr] == PairKind == second.kind && second.addr in keep
      ensures !next ==> IsImage(collectGen, segs, fwd, second, u)
      decreases Whites(), 3
    {
      hide Inv, Later, Closed, KeptOk, Grown, SpineOk, Gathered;
      u, next := second, false;
      GrownRefl(dirty);
      if second.Imm? {
        return;
      }
      ghost var m := Now();
      FirstWord(h0, collectGen, m, second.kind, second.addr);
      if mem[second.addr] == Fwd {
        u := mem[second.addr + 1];
      } else if second.kind != PairKind {
        u := Gather(second);
        SpineGathered(h0, collectGen, s0, m, Now(), c);
        forall a | a in m.fwd ensures a in fwd && fwd[a] == m.fwd[a] { GatheredForward(h0, collectGen, m, Now(), a); }
      } else if segs[second.addr / 512].gen <= collectGen {
        WhiteObject(h0, collectGen, m, second.addr);
        next := true;
      }
    }

    /** gather_live_object_proc: the object that v refers to is kept alive; u is the reference to use from now on. */
    method Gather(v: Word) returns (u: Word)
      requires Good() && Known(h0, fwd, v) && Wanted(h0, collectGen, keep, v)
      modifies this`mem, this`segs, this`dirty, this`meta, this`queues, this`fwd, this`src, this`raw
      ensures Good() && Gathered(h0, collectGen, old(Now()), Now()) && Grown(old(dirty), dirty)
      ensures IsImage(collectGen, segs, fwd, v, u)
      ensures v.Imm? ==> Now() == old(Now()) && u == v
      decreases Whites(), 2
    {
      hide Inv, Later, Closed, KeptOk, Grown;
      ghost var s := Now();
      GatheredRefl(h0, collectGen, s);
      GrownRefl(dirty);
      if v.Imm? {
        return v;
      }
      var a := v.addr;
      FirstWord(h0, collectGen, s, v.kind, a);
      if mem[a] == Fwd {
        return mem[a + 1];
      }
      if segs[a / 512].gen > collectGen {
        return v;
      }
      WhiteObject(h0, collectGen, s, a);
      match v.kind
      case PairKind => u := GatherList(a);
      case VectorKind => u := GatherVector(a);
      case DataKind => u := GatherData(a);
    }

    // ---------- The scan loop ----------

    /** The image is stored, and the next word is the first of the stretch. */
    method StoreImage(u: Word)
      requires |work| > 0 && work[0].p < |mem|
      modifies this`mem, this`work
      ensures Now() == ScanWord(old(Now()), u)
      ensures work == [Range(old(work[0].p) + Step(workId), old(work[0].q))] + old(work)[1..]
    {
      var p := work[0].p;
      mem := mem[p := u];
      work := [Range(p + Step(workId), work[0].q)] + work[1..];
    }

    /** The words of the first stretch of the work list, one after the other. */
    method ScanRange()
      requires Good() && raw == {} && |work| > 0
      modifies this`mem, this`segs, this`dirty, this`meta, this`queues, this`fwd, this`src, this`raw, this`work
      ensures Good() && Progress(h0, collectGen, old(Now()), Now()) && Grown(old(dirty), dirty)
      ensures |work| == |old(work)| && work[0].p >= work[0].q && work[1..] == old(work)[1..]
      ensures raw == {}
    {
      hide Inv, Closed, KeptOk, Grown, Gathered, Onward, IsImage, Known, Wanted, GcMoves.Whites, Progress, Scans;
      ghost var s0 := Now();
      GrownRefl(dirty);
      ProgressRefl(h0, collectGen, s0);
      while work[0].p < work[0].q
        invariant Good() && Progress(h0, collectGen, s0, Now()) && Grown(old(dirty), dirty) && raw == {}
        invariant |work| == |old(work)| && work[1..] == old(work)[1..]
        decreases work[0].q - work[0].p
      {
        ghost var s, d := Now(), dirty;
        var p := work[0].p;
        WorkKnown(h0, collectGen, keep, s, p);
        var u := Gather(mem[p]);
        GatheredWork(h0, collectGen, s, Now());
        ScanProgress(h0, collectGen, keep, s, Now(), p, u);
        StoreImage(u);
        ProgressTrans(h0, collectGen, s0, s, Now());
        GrownTrans(old(dirty), d, dirty);
      }
    }

    /** All the stretches of the work list. */
    method ScanWork()
      requires Good() && raw == {}
      modifies this`mem, this`segs, this`dirty, this`meta, this`queues, this`fwd, this`src, this`raw, this`work
      ensures Good() && Progress(h0, collectGen, old(Now()), Now()) && Grown(old(dirty), dirty)
      ensures work == [] && raw == {}
    {
      hide Inv, Closed, KeptOk, Grown, Onward, Progress;
      ghost var s0 := Now();
      GrownRefl(dirty);
      ProgressRefl(h0, collectGen, s0);
      while |work| > 0
        invariant Good() && raw == {} && Progress(h0, collectGen, s0, Now()) && Grown(old(dirty), dirty)
        decreases |work|
      {
        ghost var d := dirty;
        ghost var s := Now();
        ScanRange();
        GrownTrans(old(dirty), d, dirty);
        ghost var t := Now();
        ProgressTrans(h0, collectGen, s0, s, t);
        DropProgress(h0, collectGen, t);
        work := work[1..];
        assert Now() == t.(todo := Drop(t.todo));
        ProgressTrans(h0, collectGen, s0, t, Now());
      }
    }

    /** The stretches that were queued for meta page id when the turn began. */
    method ScanQueue(id: MetaId)
      requires Good() && raw == {} && work == [] && Queued(id)
      modifies this`mem, this`segs, this`dirty, this`meta, this`queues, this`fwd, this`src, this`raw, this`work, this`workId
      ensures Good() && raw == {} && work == [] && Grown(old(dirty), dirty)
      ensures Turn(h0, collectGen, old(Now()), Now())
      ensures Now().todo.Ok() && old(Now()).todo.Ok()
      ensures Whites() < old(Whites()) || (Whites() == old(Whites()) && queues == old(queues)[id := []] && meta == old(meta))
    {
      hide Inv, Closed, KeptOk, Grown, Onward, Turn, Progress, GcMoves.Whites;
      ghost var s0 := Now();
      MetaBounds(h0, collectGen, s0, id);
      TakeQueueTurn(h0, collectGen, s0, id);
      work, workId := queues[id], id;
      queues := queues[id := []];
      ghost var s := Now();
      assert s == s0.(todo := TakeQueue(s0.todo, id));
      ScanWork();
      ProgressTurn(h0, collectGen, s, Now());
      TurnTrans(h0, collectGen, s0, s, Now());
      MetaBounds(h0, collectGen, Now(), id);
    }

    /** The words of meta page id that have been added since it was scanned the last time. */
    method ScanAdded(id: MetaId)
      requires Good() && raw == {} && work == [] && Queued(id)
      modifies this`mem, this`segs, this`dirty, this`meta, this`queues, this`fwd, this`src, this`raw, this`work, this`workId
      ensures Good() && raw == {} && work == [] && Grown(old(dirty), dirty)
      ensures Turn(h0, collectGen, old(Now()), Now())
      ensures Now().todo.Ok() && old(Now()).todo.Ok()
      ensures Whites() < old(Whites()) || (Whites() == old(Whites()) && queues == old(queues) && meta == old(meta)[id := old(meta)[id].(aq := old(meta)[id].ap)])
    {
      hide Inv, Closed, KeptOk, Grown, Onward, Turn, Progress, GcMoves.Whites;
      ghost var s0 := Now();
      MetaBounds(h0, collectGen, s0, id);
      TakeMetaTurn(h0, collectGen, s0, id);
      work, workId := [Range(meta[id].aq, meta[id].ap)], id;
      meta := meta[id := meta[id].(aq := meta[id].ap)];
      ghost var s := Now();
      assert s == s0.(todo := TakeMeta(s0.todo, id));
      ScanWork();
      ProgressTurn(h0, collectGen, s, Now());
      TurnTrans(h0, collectGen, s0, s, Now());
      MetaBounds(h0, collectGen, Now(), id);
    }

    /** The words of meta page id that have not been scanned, until no more are added. */
    method ScanMeta(id: MetaId)
      requires Good() && raw == {} && work == [] && Queued(id)
      modifies this`mem, this`segs, this`dirty, this`meta, this`queues, this`fwd, this`src, this`raw, this`work, this`workId
      ensures Good() && raw == {} && work == [] && Grown(old(dirty), dirty)
      ensures Turn(h0, collectGen, old(Now()), Now())
      ensures Now().todo.Ok() && old(Now()).todo.Ok() && meta[id].aq >= meta[id].ap
      ensures Whites() < old(Whites()) || (Whites() == old(Whites()) && queues == old(queues) && forall i {:trigger meta[i]} :: i != id ==> meta[i] == old(meta)[i])
    {
      hide Inv, Closed, KeptOk, Grown, Turn, GcMoves.Whites;
      ghost var s0 := Now();
      MetaBounds(h0, collectGen, s0, id);
      GrownRefl(dirty);
      TurnRefl(h0, collectGen, s0);
      while meta[id].aq < meta[id].ap
        invariant Good() && raw == {} && work == [] && Grown(old(dirty), dirty) && Now().todo.Ok()
        invariant Turn(h0, collectGen, s0, Now())
        invariant Whites() < old(Whites()) || (Whites() == old(Whites()) && queues == old(queues) && forall i {:trigger meta[i]} :: i != id ==> meta[i] == old(meta)[i])
        decreases Whites(), meta[id].ap - meta[id].aq
      {
        ghost var d, s := dirty, Now();
        ScanAdded(id);
        GrownTrans(old(dirty), d, dirty);
        TurnTrans(h0, collectGen, s0, s, Now());
      }
    }

    /** The queues of one turn. */
    method QueuesTurn() returns (done: bool)
      requires Good() && raw == {} && work == []
      modifies this`mem, this`segs, this`dirty, this`meta, this`queues, this`fwd, this`src, this`raw, this`work, this`workId
      ensures Good() && raw == {} && work == [] && Grown(old(dirty), dirty)
      ensures Turn(h0, collectGen, old(Now()), Now())
      ensures Now().todo.Ok() && old(Now()).todo.Ok()
      ensures done ==> Now() == old(Now())
      ensures done <==> old(queues[MetaPair] == [] && queues[MetaPtrs] == [])
      ensures Whites() < old(Whites()) || (Whites() == old(Whites()) && queues[MetaPair] == [] && queues[MetaPtrs] == [])
    {
      hide Inv, Closed, KeptOk, Grown, Onward, Turn, GcMoves.Whites;
      ghost var s0 := Now();
      MetaBounds(h0, collectGen, s0, MetaPair);
      GrownRefl(dirty);
      TurnRefl(h0, collectGen, s0);
      done := true;
      if queues[MetaPair] != [] {
        done := false;
        ScanQueue(MetaPair);
      }
      ghost var s1, d1 := Now(), dirty;
      assert Whites() < old(Whites()) || (Whites() == old(Whites()) && queues[MetaPair] == []);
      if queues[MetaPtrs] != [] {
        done := false;
        ScanQueue(MetaPtrs);
        TurnTrans(h0, collectGen, s0, s1, Now());
        GrownTrans(old(dirty), d1, dirty);
      }
    }

    /** The half-filled meta pages of one turn. */
    method MetasTurn() returns (done: bool)
      requires Good() && raw == {} && work == []
      modifies this`mem, this`segs, this`dirty, this`meta, this`queues, this`fwd, this`src, this`raw, this`work, this`workId
      ensures Good() && raw == {} && work == [] && Grown(old(dirty), dirty)
      ensures Turn(h0, collectGen, old(Now()), Now())
      ensures Now().todo.Ok() && old(Now()).todo.Ok()
      ensures done ==> Now() == old(Now())
      ensures done <==> old(meta[MetaPair].aq >= meta[MetaPair].ap && meta[MetaPtrs].aq >= meta[MetaPtrs].ap)
      ensures || Whites() < old(Whites())
              || (Whites() == old(Whites()) && queues == old(queues) && meta[MetaPair].aq >= meta[MetaPair].ap && meta[MetaPtrs].aq >= meta[MetaPtrs].ap)
    {
      hide Inv, Closed, KeptOk, Grown, Onward, Turn, GcMoves.Whites;
      ghost var s0 := Now();
      MetaBounds(h0, collectGen, s0, MetaPair);
      GrownRefl(dirty);
      TurnRefl(h0, collectGen, s0);
      done := true;
      if meta[MetaPair].aq < meta[MetaPair].ap {
        done := false;
        ScanMeta(MetaPair);
      }
      ghost var s1, d1 := Now(), dirty;
      assert Whites() < old(Whites()) || (Whites() == old(Whites()) && queues == old(queues) && meta[MetaPair].aq >= meta[MetaPair].ap);
      if meta[MetaPtrs].aq < meta[MetaPtrs].ap {
        done := false;
        ScanMeta(MetaPtrs);
        TurnTrans(h0, collectGen, s0, s1, Now());
        GrownTrans(old(dirty), d1, dirty);
      }
    }

    /** One turn of collect_loop: the queues first, then the half-filled meta pages. */
    method CollectTurn() returns (done: bool)
      requires Good() && raw == {} && work == []
      modifies this`mem, this`segs, this`dirty, this`meta, this`queues, this`fwd, this`src, this`raw, this`work, this`workId
      ensures Good() && raw == {} && work == [] && Grown(old(dirty), dirty)
      ensures Turn(h0, collectGen, old(Now()), Now())
      ensures Now().todo.Ok() && old(Now()).todo.Ok()
      ensures done ==> Now() == old(Now()) && Idle(meta, queues)
      ensures old(Idle(meta, queues)) ==> done
      ensures !done ==> Whites() < old(Whites()) || (Whites() == old(Whites()) && Idle(meta, queues) && !old(Idle(meta, queues)))
    {
      hide Inv, Closed, KeptOk, Grown, Onward, Turn, GcMoves.Whites;
      ghost var s0 := Now();
      var queuesDone := QueuesTurn();
      ghost var s1, d1 := Now(), dirty;
      var metasDone := MetasTurn();
      TurnTrans(h0, collectGen, s0, s1, Now());
      GrownTrans(old(dirty), d1, dirty);
      done := queuesDone && metasDone;
    }

    method ClearMeta(id: MetaId)
      requires Good()
      modifies this`mem
      ensures Good() && old(Now()).todo.Ok() && old(meta[id].ap <= meta[id].ep <= |mem|)
      ensures Now() == Wiped(old(Now()), id) && TailClear(mem, meta[id])
    {
      hide Inv, Closed, KeptOk;
      ghost var s := Now();
      MetaBounds(h0, collectGen, s, id);
      ClearKeepsInv(h0, collectGen, s, id);
      ClearTail(meta[id].ap, meta[id].ep);
      assert Now() == Wiped(s, id);
    }

    /** The unused tails of the meta pages are reset, whatever they hold. */
    method ClearTails()
      requires Good()
      modifies this`mem
      ensures Good() && Now() == old(Now()).(mem := mem) && |mem| == old(|mem|)
      ensures Now().todo.Ok() && TailsClear(mem, meta)
    {
      hide Inv, Closed, KeptOk;
      ClearMeta(MetaPtrs);
      ClearMeta(MetaData);
      ClearMeta(MetaWeak);
      ClearMeta(MetaPair);
      forall id ensures TailClear(mem, meta[id]) {
        match id
        case MetaPtrs =>
        case MetaData =>
        case MetaWeak =>
        case MetaPair =>
      }
    }

    /** collect_loop: scan until nothing is left to scan, then clear the free tails of the meta pages. */
    method CollectLoop()
      requires Good() && raw == {} && work == []
      modifies this`mem, this`segs, this`dirty, this`meta, this`queues, this`fwd, this`src, this`raw, this`work, this`workId
      ensures Good() && raw == {} && work == [] && Grown(old(dirty), dirty)
      ensures Turn(h0, collectGen, old(Now()), Now())
      ensures Now().todo.Ok() && Idle(meta, queues) && TailsClear(mem, meta)
      ensures old(Now()).todo.Ok() && (old(Idle(meta, queues)) ==> Now() == old(Now()).(mem := mem))
    {
      hide Inv, Closed, KeptOk, Grown, Onward, Turn, GcMoves.Whites;
      ghost var s0 := Now();
      MetaBounds(h0, collectGen, s0, MetaPair);
      GrownRefl(dirty);
      TurnRefl(h0, collectGen, s0);
      var done := false;
      while !done
        invariant Good() && raw == {} && work == [] && Grown(old(dirty), dirty) && Now().todo.Ok()
        invariant Turn(h0, collectGen, s0, Now())
        invariant done ==> Idle(meta, queues)
        invariant old(Idle(meta, queues)) ==> Now() == s0
        decreases Whites(), if Idle(meta, queues) then 0 else 1, if done then 0 else 1
      {
        ghost var s, d := Now(), dirty;
        done := CollectTurn();
        TurnTrans(h0, collectGen, s0, s, Now());
        GrownTrans(old(dirty), d, dirty);
      }
      ghost var s := Now();
      ClearTails();
      MemTurn(h0, collectGen, s, mem);
      TurnTrans(h0, collectGen, s0, s, Now());
    }

    // ---------- Dirty pages ----------

    /** A word of a dirty card: its object is gathered, and the bits of the page of the image are collected. */
    method ScanDirtyWord(w: nat, bits: bv4) returns (bits': bv4)
      requires Good() && PagesWanted(h0, collectGen, keep) && DirtyPage(h0, collectGen, segs, w)
      modifies this`mem, this`segs, this`dirty, this`meta, this`queues, this`fwd, this`src, this`raw
      ensures Good() && Grown(old(dirty), dirty) && Onward(collectGen, old(Now()), Now()) && raw == old(raw) && work == old(work)
      ensures bits' | bits == bits'
      ensures Older(collectGen, h0.segs, w) ==> WordDone(h0, collectGen, segs, fwd, src, bits', w)
      ensures NibbleFrom(h0, collectGen, Now(), bits, bits', w, w + 1)
    {
      hide Inv, Closed, KeptOk, Grown, Later, Onward, WordDone, NibbleFrom;
      ghost var s := Now();
      DirtyWordKnown(h0, collectGen, keep, s, w);
      if mem[w].Imm? {
        bits' := bits;
        GrownRefl(dirty);
        OnwardRefl(collectGen, s);
        DirtyImm(h0, collectGen, s, bits, w);
        NibbleSame(h0, collectGen, s, bits, w, w + 1);
      } else {
        bits' := ScanDirtyReference(w, bits);
      }
    }

    /** The word holds a reference: it gets its image, and the nibble of the page of the image is added to the bits. */
    method ScanDirtyReference(w: nat, bits: bv4) returns (bits': bv4)
      requires Good() && DirtyPage(h0, collectGen, segs, w) && w < |mem| && mem[w].Ptr? && GoodWord(h0.objs, h0.mem[w])
      requires Known(h0, fwd, mem[w]) && Wanted(h0, collectGen, keep, mem[w]) && Wanted(h0, collectGen, keep, h0.mem[w])
      requires if w in src then src[w] == w else mem[w] == h0.mem[w]
      modifies this`mem, this`segs, this`dirty, this`meta, this`queues, this`fwd, this`src, this`raw
      ensures Good() && Grown(old(dirty), dirty) && Onward(collectGen, old(Now()), Now()) && raw == old(raw) && work == old(work)
      ensures bits' | bits == bits' && WordDone(h0, collectGen, segs, fwd, src, bits', w)
      ensures NibbleFrom(h0, collectGen, Now(), bits, bits', w, w + 1)
    {
      hide Inv, Closed, KeptOk, Grown, Later, Onward, WordDone, NibbleFrom, IsImage, Known, Wanted, GoodWord, Gathered, GcMoves.Whites;
      ghost var s := Now();
      var x := mem[w];
      var y := Gather(x);
      ghost var t := Now();
      DirtyImage(h0, collectGen, s, t, w, x, y);
      TouchKept(h0, collectGen, keep, t, w, y);
      mem := mem[w := y];
      src := src[w := w];
      assert Now() == Touch(t, w, y);
      bits' := bits | segs[y.addr / 512].nib;
      DirtyRecorded(h0, collectGen, s, t, w, y, bits);
      NibbleOfWord(h0, collectGen, t, w, y, bits);
    }

    /** The words of card c of page p. */
    method ScanDirtyCard(p: nat, c: nat) returns (bits: bv4)
      requires Good() && PagesWanted(h0, collectGen, keep) && c < 8
      requires p < |h0.segs| && p < |segs| && segs[p].gen > collectGen && Scannable(segs[p].typ)
      modifies this`mem, this`segs, this`dirty, this`meta, this`queues, this`fwd, this`src, this`raw
      ensures Good() && Grown(old(dirty), dirty) && Onward(collectGen, old(Now()), Now()) && raw == old(raw) && work == old(work)
      ensures |h0.mem| == 512 * |h0.segs| && RangeDone(h0, collectGen, Now(), bits, 512 * p + 64 * c, 512 * p + 64 * c + 64)
      ensures NibbleFrom(h0, collectGen, Now(), 0, bits, 512 * p + 64 * c, 512 * p + 64 * c + 64)
    {
      hide Inv, Closed, KeptOk, Grown, Onward, WordDone, PagesWanted, DirtyPage, NibbleFrom, RangeDone;
      ghost var s0 := Now();
      InvSizes(h0, collectGen, s0);
      GrownRefl(dirty);
      OnwardRefl(collectGen, s0);
      var w := 512 * p + 64 * c;
      var end := w + 64;
      bits := 0;
      NoWords(h0, collectGen, s0, w);
      NibbleSame(h0, collectGen, s0, 0, w, w);
      while w < end
        invariant 512 * p + 64 * c <= w <= end
        invariant Good() && Grown(old(dirty), dirty) && Onward(collectGen, s0, Now()) && raw == old(raw) && work == old(work)
        invariant p < |segs| && segs[p].gen > collectGen && Scannable(segs[p].typ)
        invariant RangeDone(h0, collectGen, Now(), bits, 512 * p + 64 * c, w)
        invariant NibbleFrom(h0, collectGen, Now(), 0, bits, 512 * p + 64 * c, w)
      {
        ghost var s, d, b := Now(), dirty, bits;
        PageWord(h0, collectGen, s, p, w);
        bits := ScanDirtyWord(w, bits);
        GrownTrans(old(dirty), d, dirty);
        OnwardTrans(collectGen, s0, s, Now());
        OnwardPage(collectGen, s, Now(), p);
        InvSizes(h0, collectGen, Now());
        RangeGrows(h0, collectGen, s, Now(), b, bits, 512 * p + 64 * c, w);
        NibbleMore(h0, collectGen, s, Now(), 0, b, bits, 512 * p + 64 * c, w);
        w := w + 1;
      }
    }

    /** scan_dirty_pointers_page: the dirty cards are scanned, the others keep their bits; at the end the
        bits that make no sense for the generation of the page are cleared. */
    method ScanDirtyPointersPage(p: nat, mask: bv4)
      requires Good() && PagesWanted(h0, collectGen, keep) && Shaped(dirty) && |stray| == 8 && mask == DirtyNibble(collectGen)
      requires p < |h0.segs| && p < |segs| && segs[p].gen > collectGen && Scannable(segs[p].typ)
      requires forall c {:trigger dirty[p][c]} :: 0 <= c < 8 && dirty[p][c] & mask == 0 && Scannable(h0.segs[p].typ) ==>
                 |h0.mem| == 512 * |h0.segs| && RangeDone(h0, collectGen, Now(), dirty[p][c], 512 * p + 64 * c, 512 * p + 64 * c + 64)
      modifies this`mem, this`segs, this`dirty, this`meta, this`queues, this`fwd, this`src, this`raw
      ensures Good() && Shaped(dirty) && Onward(collectGen, old(Now()), Now()) && raw == old(raw) && work == old(work)
      ensures |dirty| >= |old(dirty)| && forall q {:trigger dirty[q]} :: 0 <= q < |old(dirty)| && q != p ==> dirty[q] == old(dirty)[q]
      ensures |h0.mem| == 512 * |h0.segs| && PageDone(h0, collectGen, Now(), dirty[p], p)
      ensures PageFrom(h0, collectGen, Now(), old(dirty)[p], dirty[p], p, old(segs)[p].gen)
    {
      hide Inv, Closed, KeptOk, Grown, Onward, PagesWanted, RangeDone, NibbleFrom, PageFrom, CardsFrom, DirtyNibble, CardsDone, Cleaned;
      ghost var s0, d0 := Now(), dirty;
      InvSizes(h0, collectGen, s0);
      GrownRefl(dirty);
      OnwardRefl(collectGen, s0);
      var pageBits := dirty[p];
      var bits: seq<bv4> := [];
      NoCards(h0, collectGen, s0, pageBits, p);
      while |bits| < 8
        invariant |bits| <= 8
        invariant Good() && Grown(d0, dirty) && Onward(collectGen, s0, Now()) && raw == old(raw) && work == old(work)
        invariant p < |segs| && segs[p].gen > collectGen && Scannable(segs[p].typ)
        invariant Scannable(h0.segs[p].typ) ==> CardsDone(h0, collectGen, Now(), bits, p)
        invariant CardsFrom(h0, collectGen, Now(), pageBits, bits, p) && segs[p] == s0.segs[p]
        decreases 8 - |bits|
      {
        ghost var s, d := Now(), dirty;
        if pageBits[|bits|] & mask != 0 {
          var b := ScanDirtyCard(p, |bits|);
          GrownTrans(d0, d, dirty);
          OnwardTrans(collectGen, s0, s, Now());
          OnwardPage(collectGen, s, Now(), p);
          CardsDoneGrowIf(h0, collectGen, s, Now(), bits, b, p);
          CardsFromGrow(h0, collectGen, s, Now(), pageBits, bits, b, p);
          bits := bits + [b];
        } else {
          OnwardRefl(collectGen, s);
          SkippedCard(h0, collectGen, s0, s, pageBits[|bits|], p, |bits|);
          CardsDoneGrowIf(h0, collectGen, s, s, bits, pageBits[|bits|], p);
          NibbleSame(h0, collectGen, s, pageBits[|bits|], 512 * p + 64 * |bits|, 512 * p + 64 * |bits| + 64);
          CardsFromGrow(h0, collectGen, s, s, pageBits, bits, pageBits[|bits|], p);
          bits := bits + [pageBits[|bits|]];
        }
      }
      GrownShaped(d0, dirty);
      CleanedPage(h0, collectGen, Now(), bits, stray, p);
      CleanedFrom(h0, collectGen, Now(), pageBits, bits, segs[p].gen, stray, p);
      dirty := dirty[p := Cleaned(bits, segs[p].gen, stray)];
    }

    /** One page that existed before the collection, as the dirty vector d0 has it. */
    method ScanDirtyPage(p: nat, mask: bv4, ghost d0: seq<seq<bv4>>)
      requires Good() && PagesWanted(h0, collectGen, keep) && CardsSound(h0, d0) && Shaped(dirty) && |stray| == 8 && mask == DirtyNibble(collectGen)
      requires p < |h0.segs| == |d0| <= |dirty| == |segs| && dirty[p] == d0[p]
      modifies this`mem, this`segs, this`dirty, this`meta, this`queues, this`fwd, this`src, this`raw
      ensures Good() && Shaped(dirty) && Onward(collectGen, old(Now()), Now()) && raw == old(raw) && work == old(work)
      ensures |dirty| >= |old(dirty)| && forall q {:trigger dirty[q]} :: 0 <= q < |old(dirty)| && q != p ==> dirty[q] == old(dirty)[q]
      ensures |h0.mem| == 512 * |h0.segs| && PageDone(h0, collectGen, Now(), dirty[p], p)
      ensures PageExact(h0, collectGen, Now(), d0[p], dirty[p], p)
    {
      hide Inv, Closed, KeptOk, Grown, Onward, PagesWanted, PageDone, RangeDone, PageExact, PageFrom, DirtyNibble;
      ghost var s := Now();
      InvSizes(h0, collectGen, s);
      PureCards(h0, collectGen, s, d0, p);
      if (exists c :: 0 <= c < 8 && dirty[p][c] & mask != 0) && segs[p].gen > collectGen && Scannable(segs[p].typ) {
        ScanDirtyPointersPage(p, mask);
        ScannedExact(h0, collectGen, s, Now(), d0[p], dirty[p], p);
      } else {
        OnwardRefl(collectGen, s);
        SkippedPage(h0, collectGen, s, d0, p);
        SkippedExact(h0, collectGen, s, d0[p], p);
      }
    }

    /** scan_dirty_pages: all the pages that existed before the collection. */
    method ScanDirtyPages()
      requires Good() && PagesWanted(h0, collectGen, keep) && CardsSound(h0, dirty) && |stray| == 8
      modifies this`mem, this`segs, this`dirty, this`meta, this`queues, this`fwd, this`src, this`raw
      ensures Good() && Shaped(dirty) && Onward(collectGen, old(Now()), Now()) && raw == old(raw) && work == old(work)
      ensures |h0.mem| == 512 * |h0.segs| <= 512 * |dirty| && PagesDone(h0, collectGen, Now(), dirty, |h0.segs|)
      ensures PagesExact(h0, collectGen, Now(), old(dirty), dirty, |h0.segs|)
    {
      hide Inv, Closed, KeptOk, Grown, Onward, PagesWanted, PageDone, RangeDone, PageExact, PageFrom;
      ghost var s0, d0 := Now(), dirty;
      InvSizes(h0, collectGen, s0);
      OnwardRefl(collectGen, s0);
      var mask := DirtyNibble(collectGen);
      var p, hi := 0, |dirty|;
      while p < hi
        invariant p <= hi == |h0.segs| <= |dirty| == |segs|
        invariant Good() && Shaped(dirty) && Onward(collectGen, s0, Now()) && raw == old(raw) && work == old(work)
        invariant forall q {:trigger dirty[q]} :: p <= q < hi ==> dirty[q] == d0[q]
        invariant PagesDone(h0, collectGen, Now(), dirty, p) && PagesExact(h0, collectGen, Now(), d0, dirty, p)
      {
        ghost var s, d := Now(), dirty;
        ScanDirtyPage(p, mask, d0);
        OnwardTrans(collectGen, s0, s, Now());
        PagesDoneKept(h0, collectGen, s, Now(), d, dirty, p);
        PagesExactKept(h0, collectGen, s, Now(), d0, d, dirty, p);
        p := p + 1;
      }
    }
  }
}
