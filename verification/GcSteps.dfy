/** The elementary steps of the collector as functions of its state; each keeps the invariant. */
module GcSteps {
  import opened Memory
  import opened GcState
  import opened GcOnce

  function Block(b: nat, n: nat): (ws: set<nat>)
    ensures forall w :: w in ws <==> b <= w < b + n
  {
    if n == 0 then {} else Block(b, n - 1) + {b + n - 1}
  }

  // ---------- Images do not change under later steps ----------

  lemma MovedNotOlder(h0: Heap, cg: nat, len: nat, segs: seq<Seg>, fwd: map<nat, nat>, a: nat)
    requires SegsStep(h0, cg, len, segs) && PlacesOk(h0, cg, segs, fwd) && a in fwd
    ensures !Older(cg, segs, a)
  {
    assert PlaceOk(h0, cg, segs, a, fwd[a]);
    assert SegOf(segs, a) == segs[a / 512] == h0.segs[a / 512];
  }

  lemma ImageKept(h0: Heap, cg: nat, s: St, t: St, v: Word, u: Word)
    requires Onward(cg, s, t) && SegsStep(h0, cg, |t.mem|, t.segs) && PlacesOk(h0, cg, t.segs, t.fwd)
    requires IsImage(cg, s.segs, s.fwd, v, u)
    ensures IsImage(cg, t.segs, t.fwd, v, u)
  {
    if v.Ptr? && v.addr !in s.fwd {
      assert t.segs[v.addr / 512] == s.segs[v.addr / 512];
      if v.addr in t.fwd { MovedNotOlder(h0, cg, |t.mem|, t.segs, t.fwd, v.addr); }
    }
  }

  // ---------- Allocation inside the current meta page ----------

  function BumpMeta(meta: map<MetaId, Meta>, id: MetaId, n: nat): map<MetaId, Meta>
    requires HasIds(meta)
  {
    meta[id := meta[id].(ap := meta[id].ap + n)]
  }

  function Bump(s: St, id: MetaId, n: nat): St
    requires HasIds(s.todo.meta)
  {
    s.(todo := s.todo.(meta := BumpMeta(s.todo.meta, id, n)), raw := s.raw + Block(s.todo.meta[id].ap, n))
  }

  /** One meta page changes; it keeps apart from the others. */
  lemma MetaChanges(h0: Heap, cg: nat, segs: seq<Seg>, meta: map<MetaId, Meta>, id: MetaId, m: Meta)
    requires HasIds(meta) && MetasOk(h0, cg, segs, meta) && MetaOk(h0, cg, segs, id, m)
    requires forall i {:trigger meta[i]} :: i != id && m.base > 0 && meta[i].base > 0 ==> m.ep <= meta[i].base || meta[i].ep <= m.base
    ensures MetasOk(h0, cg, segs, meta[id := m])
  {
    hide MetaOk;
    var meta' := meta[id := m];
    forall i ensures MetaOk(h0, cg, segs, i, meta'[i]) { assert i != id ==> meta'[i] == meta[i]; }
    forall i, j | i != j && meta'[i].base > 0 && meta'[j].base > 0 ensures meta'[i].ep <= meta'[j].base || meta'[j].ep <= meta'[i].base {
      assert i != id ==> meta'[i] == meta[i];
      assert j != id ==> meta'[j] == meta[j];
    }
  }

  lemma BumpMetasOk(h0: Heap, cg: nat, segs: seq<Seg>, meta: map<MetaId, Meta>, id: MetaId, n: nat)
    requires HasIds(meta) && MetasOk(h0, cg, segs, meta)
    requires meta[id].base > 0 && meta[id].ap + n <= meta[id].ep && n % 2 == 0
    ensures MetasOk(h0, cg, segs, BumpMeta(meta, id, n))
  {
    hide PagesAre, Tagged;
    assert MetaOk(h0, cg, segs, id, meta[id]);
    MetaChanges(h0, cg, segs, meta, id, meta[id].(ap := meta[id].ap + n));
  }

  lemma BumpFreeOk(h0: Heap, cg: nat, s: St, id: MetaId, n: nat)
    requires HasIds(s.todo.meta) && MetasOk(h0, cg, s.segs, s.todo.meta) && PlacesOk(h0, cg, s.segs, s.fwd)
    requires s.todo.meta[id].base > 0 && s.todo.meta[id].ap + n <= s.todo.meta[id].ep
    requires FreeOk(h0, s.fwd, s.src, s.raw, s.todo.meta)
    ensures FreeOk(h0, s.fwd, s.src, Bump(s, id, n).raw, Bump(s, id, n).todo.meta)
  {
    hide PagesAre, Tagged, PlacesOk, SizeOf;
    var t := Bump(s, id, n);
    forall i, w: nat | Free(t.todo.meta, i, w) ensures w !in t.src && w !in t.raw {
      assert Free(s.todo.meta, i, w);
      assert MetaOk(h0, cg, s.segs, i, s.todo.meta[i]) && MetaOk(h0, cg, s.segs, id, s.todo.meta[id]);
    }
    forall i, a | a in t.fwd ensures Clear(h0, a, t.fwd[a], t.todo.meta[i].ap, t.todo.meta[i].ep) {
      assert Clear(h0, a, s.fwd[a], s.todo.meta[i].ap, s.todo.meta[i].ep);
    }
  }

  lemma BumpColoursOk(h0: Heap, cg: nat, s: St, id: MetaId, n: nat)
    requires s.todo.Ok() && ColoursOk(h0, cg, s.mem, s.segs, s.fwd, s.src, s.todo)
    ensures ColoursOk(h0, cg, s.mem, s.segs, s.fwd, s.src, Bump(s, id, n).todo)
  {
    var t := Bump(s, id, n);
    forall w | w in s.src && s.todo.Waiting(w) ensures t.todo.Waiting(w) {}
  }

  lemma BumpTraced(h0: Heap, cg: nat, s: St, id: MetaId, n: nat)
    requires HasIds(s.todo.meta) && PlacesOk(h0, cg, s.segs, s.fwd)
    requires CopiesTraced(h0, s.fwd, s.src, s.raw)
    requires FreeOk(h0, s.fwd, s.src, s.raw, s.todo.meta)
    requires SourcesOk(h0, cg, s.segs, s.src, s.raw)
    requires s.todo.meta[id].ap + n <= s.todo.meta[id].ep
    ensures CopiesTraced(h0, s.fwd, s.src, Bump(s, id, n).raw)
    ensures SourcesOk(h0, cg, s.segs, s.src, Bump(s, id, n).raw)
  {
    forall w | w in s.src ensures w !in Bump(s, id, n).raw {
      assert !Free(s.todo.meta, id, w);
    }
    forall a | a in s.fwd ensures s.fwd[a] !in Bump(s, id, n).raw {
      assert Clear(h0, a, s.fwd[a], s.todo.meta[id].ap, s.todo.meta[id].ep);
      assert PlaceOk(h0, cg, s.segs, a, s.fwd[a]);
    }
  }

  lemma BumpRangesOk(h0: Heap, cg: nat, s: St, id: MetaId, n: nat)
    requires s.todo.Ok() && RangesOk(h0, cg, s.segs, s.src, s.todo)
    ensures RangesOk(h0, cg, s.segs, s.src, Bump(s, id, n).todo)
  {
    hide RangeOk;
    var t := Bump(s, id, n);
    forall i, r | RangeOk(h0, cg, s.segs, s.src, s.todo.meta, i, r)
      ensures RangeOk(h0, cg, s.segs, s.src, t.todo.meta, i, r)
    {
      RangeStays(h0, cg, s.segs, s.src, s.todo.meta, t.todo.meta, i, r);
    }
  }

  /** A stretch stays out of the way of a meta page whose free part has not grown. */
  lemma RangeStays(h0: Heap, cg: nat, segs: seq<Seg>, src: map<nat, nat>, meta: map<MetaId, Meta>, meta': map<MetaId, Meta>, id: MetaId, r: Range)
    requires HasIds(meta) && HasIds(meta') && RangeOk(h0, cg, segs, src, meta, id, r)
    requires forall i {:trigger meta'[i]} :: (meta[i].ap <= meta'[i].ap && meta'[i].ep <= meta[i].ep) || meta'[i].ep <= r.p || r.q <= meta'[i].ap
    ensures RangeOk(h0, cg, segs, src, meta', id, r)
  {
    forall i ensures r.q <= meta'[i].ap || meta'[i].ep <= r.p { assert r.q <= meta[i].ap || meta[i].ep <= r.p; }
  }

  lemma BumpNewPagesOk(h0: Heap, cg: nat, s: St, id: MetaId, n: nat)
    requires HasIds(s.todo.meta) && SegsStep(h0, cg, |s.mem|, s.segs) && MetasOk(h0, cg, s.segs, s.todo.meta)
    requires NewPagesOk(h0, s.mem, s.segs, s.src, s.raw, s.todo.meta)
    requires s.todo.meta[id].base > 0 && s.todo.meta[id].ap + n <= s.todo.meta[id].ep
    ensures NewPagesOk(h0, s.mem, s.segs, s.src, Bump(s, id, n).raw, Bump(s, id, n).todo.meta)
  {
    var t := Bump(s, id, n);
    assert MetaOk(h0, cg, s.segs, id, s.todo.meta[id]);
    forall w: nat, i | Free(s.todo.meta, i, w) && w !in t.raw ensures Free(t.todo.meta, i, w) {}
  }

  lemma BumpReserves(h0: Heap, cg: nat, s: St, id: MetaId, n: nat)
    requires s.todo.Ok() && MetasOk(h0, cg, s.segs, s.todo.meta)
    requires FreeOk(h0, s.fwd, s.src, s.raw, s.todo.meta)
    requires s.todo.meta[id].base > 0 && s.todo.meta[id].ap + n <= s.todo.meta[id].ep && 0 < n && n % 2 == 0
    ensures Reserved(h0, Bump(s, id, n), s.todo.meta[id].ap, n)
    ensures PagesAre(s.segs, s.todo.meta[id].ap, s.todo.meta[id].ap + n, Tagged(cg, MetaType(id), false))
  {
    var b := s.todo.meta[id].ap;
    var t := Bump(s, id, n);
    assert MetaOk(h0, cg, s.segs, id, s.todo.meta[id]);
    forall i ensures b + n <= t.todo.meta[i].ap || t.todo.meta[i].ep <= b {
      assert MetaOk(h0, cg, s.segs, i, s.todo.meta[i]);
    }
  }

  lemma BumpKeepsInv(h0: Heap, cg: nat, s: St, id: MetaId, n: nat)
    requires Inv(h0, cg, s) && n % 2 == 0
    requires s.todo.meta[id].base > 0 && s.todo.meta[id].ap + n <= s.todo.meta[id].ep
    ensures Inv(h0, cg, Bump(s, id, n))
  {
    BumpMetasOk(h0, cg, s.segs, s.todo.meta, id, n);
    BumpFreeOk(h0, cg, s, id, n);
    BumpColoursOk(h0, cg, s, id, n);
    BumpTraced(h0, cg, s, id, n);
    BumpRangesOk(h0, cg, s, id, n);
    BumpNewPagesOk(h0, cg, s, id, n);
    BumpOnce(h0, cg, s, id, n);
  }

  /** The words that are allocated were not queued. */
  lemma BumpOnce(h0: Heap, cg: nat, s: St, id: MetaId, n: nat)
    requires s.todo.Ok() && MetasOk(h0, cg, s.segs, s.todo.meta) && RangesOk(h0, cg, s.segs, s.src, s.todo) && s.todo.Once()
    requires s.todo.meta[id].ap + n <= s.todo.meta[id].ep
    ensures Bump(s, id, n).todo.Once()
  {
    hide MetasOk, RangesOk, Hits;
    var t := Bump(s, id, n);
    forall w: nat ensures t.todo.Times(w) <= 1 {
      assert s.todo.Times(w) <= 1;
      if s.todo.meta[id].ap <= w < s.todo.meta[id].ap + n { FreeNotCounted(h0, cg, s.segs, s.src, s.todo, id, w); }
    }
  }

  lemma BumpDone(h0: Heap, cg: nat, s: St, id: MetaId, n: nat)
    requires s.todo.Ok() && FreeOk(h0, s.fwd, s.src, s.raw, s.todo.meta) && s.todo.meta[id].ap + n <= s.todo.meta[id].ep
    ensures DoneStays(s, Bump(s, id, n))
  {
    var t := Bump(s, id, n);
    forall w | w in s.src && t.todo.Waiting(w) ensures s.todo.Waiting(w) {
      assert !Free(s.todo.meta, id, w);
    }
  }

  // ---------- Retiring a meta page ----------

  /** The words from lo to hi set to the fixnum zero. */
  function Zeroed(mem: seq<Word>, lo: nat, hi: nat): (m: seq<Word>)
    requires lo <= hi <= |mem|
    ensures |m| == |mem|
    ensures forall w {:trigger m[w]} :: 0 <= w < |mem| ==> m[w] == if lo <= w < hi then Imm(0) else mem[w]
  {
    mem[..lo] + seq(hi - lo, _ => Imm(0)) + mem[hi..]
  }

  const NO_META := Meta(0, 0, 0, 0)

  predicate Queued(id: MetaId) { id == MetaPtrs || id == MetaPair }

  /** The used part of the current page goes to the queue, if pages of this type are scanned. */
  function RetireAgenda(todo: Agenda, id: MetaId): Agenda
    requires todo.Ok()
  {
    var m := todo.meta[id];
    todo.(meta := todo.meta[id := NO_META],
          queues := if Queued(id) then todo.queues[id := [Range(m.aq, m.ap)] + todo.queues[id]] else todo.queues)
  }

  function Retire(s: St, id: MetaId): St
    requires s.todo.Ok() && s.todo.meta[id].ap <= s.todo.meta[id].ep <= |s.mem|
  {
    s.(mem := if Queued(id) then Zeroed(s.mem, s.todo.meta[id].ap, s.todo.meta[id].ep) else s.mem,
       todo := RetireAgenda(s.todo, id))
  }

  /** The free words are neither survivors nor words of the heap before. */
  lemma FreeWords(h0: Heap, cg: nat, s: St, id: MetaId, w: nat)
    requires s.todo.Ok() && MetasOk(h0, cg, s.segs, s.todo.meta) && PlacesOk(h0, cg, s.segs, s.fwd)
    requires FreeOk(h0, s.fwd, s.src, s.raw, s.todo.meta)
    requires s.todo.meta[id].ap <= w < s.todo.meta[id].ep
    ensures |h0.mem| <= w && w !in s.src && w !in s.raw
  {
    assert Free(s.todo.meta, id, w);
    assert MetaOk(h0, cg, s.segs, id, s.todo.meta[id]);
  }

  /** Changes to free or new words leave the old part of memory alone. */
  lemma OldPartKept(h0: Heap, cg: nat, mem: seq<Word>, mem': seq<Word>, segs: seq<Seg>, fwd: map<nat, nat>)
    requires WellFormed(h0) && |h0.mem| <= |mem| && |h0.mem| <= |mem'|
    requires forall w {:trigger mem'[w]} :: 0 <= w < |h0.mem| ==> mem'[w] == mem[w]
    requires PlacesOk(h0, cg, segs, fwd)
    requires MarksOk(h0, mem, fwd) && WhiteIntact(h0, cg, mem, segs, fwd)
    ensures MarksOk(h0, mem', fwd) && WhiteIntact(h0, cg, mem', segs, fwd)
  {
    forall a | a in fwd ensures a in h0.objs && a + 1 < |mem'| && mem'[a] == Fwd && mem'[a + 1] == Ptr(h0.objs[a], fwd[a]) {
      assert PlaceOk(h0, cg, segs, a, fwd[a]);
    }
    forall a, w | 0 <= a <= w && White(h0, cg, segs, fwd, a) && w < a + UsedOf(h0, a) ensures mem'[w] == h0.mem[w] {
      assert ObjectOk(h0, a);
      assert mem'[w] == mem[w];
    }
  }

  lemma RetireWaiting(todo: Agenda, id: MetaId, w: nat)
    requires todo.Ok() && todo.Waiting(w)
    ensures RetireAgenda(todo, id).Waiting(w)
  {
    var todo' := RetireAgenda(todo, id);
    var m := todo.meta[id];
    assert In(Range(m.aq, m.ap), w) <==> InMeta(m, w);
    if Queued(id) {
      assert Range(m.aq, m.ap) in todo'.queues[id];
      forall r | r in todo.queues[id] ensures r in todo'.queues[id] {}
    }
  }

  lemma OldIntactKept(h0: Heap, cg: nat, mem: seq<Word>, mem': seq<Word>, src: map<nat, nat>, src': map<nat, nat>)
    requires OldIntact(h0, cg, mem, src) && |h0.mem| <= |mem| && |h0.mem| <= |mem'|
    requires forall w {:trigger mem'[w]} :: 0 <= w < |h0.mem| && Fixed(h0, cg, w) && w !in src' ==> mem'[w] == mem[w]
    requires forall w {:trigger w in src'} :: w in src && w < |h0.mem| ==> w in src'
    ensures OldIntact(h0, cg, mem', src')
  {
    forall w {:trigger mem'[w]} | 0 <= w < |h0.mem| && Fixed(h0, cg, w) && w !in src' ensures mem'[w] == h0.mem[w] {
      assert mem[w] == h0.mem[w];
    }
  }

  lemma RetireColours(h0: Heap, cg: nat, s: St, id: MetaId)
    requires s.todo.Ok() && |s.mem| == 512 * |s.segs|
    requires MetasOk(h0, cg, s.segs, s.todo.meta) && PlacesOk(h0, cg, s.segs, s.fwd)
    requires FreeOk(h0, s.fwd, s.src, s.raw, s.todo.meta) && SourcesOk(h0, cg, s.segs, s.src, s.raw)
    requires ColoursOk(h0, cg, s.mem, s.segs, s.fwd, s.src, s.todo)
    requires s.todo.meta[id].ap <= s.todo.meta[id].ep <= |s.mem|
    ensures forall w {:trigger w in s.src} :: w in s.src ==> w < |s.mem| && Retire(s, id).mem[w] == s.mem[w]
    ensures ColoursOk(h0, cg, Retire(s, id).mem, s.segs, s.fwd, s.src, Retire(s, id).todo)
  {
    var t := Retire(s, id);
    var m := s.todo.meta[id];
    forall w | w in s.src
      ensures t.mem[w] == s.mem[w]
      ensures s.todo.Waiting(w) ==> t.todo.Waiting(w)
    {
      if m.ap <= w < m.ep { FreeWords(h0, cg, s, id, w); }
      if s.todo.Waiting(w) { RetireWaiting(s.todo, id, w); }
    }
  }

  lemma RetireRange(h0: Heap, cg: nat, s: St, id: MetaId)
    requires s.todo.Ok() && cg <= OLDEST && SegsStep(h0, cg, |s.mem|, s.segs) && Queued(id)
    requires MetasOk(h0, cg, s.segs, s.todo.meta)
    ensures RangeOk(h0, cg, s.segs, s.src, RetireAgenda(s.todo, id).meta, id, Range(s.todo.meta[id].aq, s.todo.meta[id].ap))
  {
    var m := s.todo.meta[id];
    var meta' := RetireAgenda(s.todo, id).meta;
    assert MetaOk(h0, cg, s.segs, id, m);
    forall w | m.aq <= w < m.ap ensures Older(cg, s.segs, w) && |h0.mem| <= w && SegOf(s.segs, w).typ == Pointers {
      assert SegOf(s.segs, w) == Tagged(cg, MetaType(id), false);
    }
    forall i ensures m.ap <= meta'[i].ap || meta'[i].ep <= m.aq { assert MetaOk(h0, cg, s.segs, i, s.todo.meta[i]); }
  }

  lemma RetireRanges(h0: Heap, cg: nat, s: St, id: MetaId)
    requires s.todo.Ok() && cg <= OLDEST && SegsStep(h0, cg, |s.mem|, s.segs)
    requires MetasOk(h0, cg, s.segs, s.todo.meta) && RangesOk(h0, cg, s.segs, s.src, s.todo)
    ensures RangesOk(h0, cg, s.segs, s.src, RetireAgenda(s.todo, id))
  {
    var todo := RetireAgenda(s.todo, id);
    var m := s.todo.meta[id];
    hide RangeOk, MetasOk, SegsStep;
    forall i, r | RangeOk(h0, cg, s.segs, s.src, s.todo.meta, i, r)
      ensures RangeOk(h0, cg, s.segs, s.src, todo.meta, i, r)
    {
      RangeStays(h0, cg, s.segs, s.src, s.todo.meta, todo.meta, i, r);
    }
    if Queued(id) { RetireRange(h0, cg, s, id); }
  }

  lemma RetireMetas(h0: Heap, cg: nat, s: St, id: MetaId)
    requires s.todo.Ok() && MetasOk(h0, cg, s.segs, s.todo.meta) && PlacesOk(h0, cg, s.segs, s.fwd)
    requires FreeOk(h0, s.fwd, s.src, s.raw, s.todo.meta)
    ensures MetasOk(h0, cg, s.segs, RetireAgenda(s.todo, id).meta)
    ensures FreeOk(h0, s.fwd, s.src, s.raw, RetireAgenda(s.todo, id).meta)
  {
    hide MetasOk, PlacesOk, SizeOf;
    MetaChanges(h0, cg, s.segs, s.todo.meta, id, NO_META);
    var meta' := RetireAgenda(s.todo, id).meta;
    forall i, w: nat | Free(meta', i, w) ensures w !in s.src && w !in s.raw { assert Free(s.todo.meta, i, w); }
    forall i, a | a in s.fwd ensures Clear(h0, a, s.fwd[a], meta'[i].ap, meta'[i].ep) {
      assert Clear(h0, a, s.fwd[a], s.todo.meta[i].ap, s.todo.meta[i].ep);
      assert i == id ==> meta'[i] == NO_META;
      assert i != id ==> meta'[i] == s.todo.meta[i];
    }
  }

  lemma RetireFreeWord(h0: Heap, cg: nat, segs: seq<Seg>, todo: Agenda, id: MetaId, w: nat)
    requires todo.Ok() && MetasOk(h0, cg, segs, todo.meta)
    requires FreeWord(todo.meta, w) && w < 512 * |segs| && Scannable(SegOf(segs, w).typ)
    requires id == MetaWeak ==> todo.meta[id].ap == todo.meta[id].ep
    ensures FreeWord(RetireAgenda(todo, id).meta, w) || (Queued(id) && todo.meta[id].ap <= w < todo.meta[id].ep)
  {
    hide MetasOk;
    var i :| Free(todo.meta, i, w);
    if i != id { assert Free(RetireAgenda(todo, id).meta, i, w); } else { FreeType(h0, cg, segs, todo.meta, id, w); }
  }

  lemma FreeType(h0: Heap, cg: nat, segs: seq<Seg>, meta: map<MetaId, Meta>, id: MetaId, w: nat)
    requires HasIds(meta) && MetasOk(h0, cg, segs, meta) && Free(meta, id, w)
    ensures w < 512 * |segs| && SegOf(segs, w).typ == MetaType(id)
  {
    assert MetaOk(h0, cg, segs, id, meta[id]);
    assert SegOf(segs, w) == Tagged(cg, MetaType(id), false);
  }

  lemma RetireNewPages(h0: Heap, cg: nat, s: St, id: MetaId)
    requires s.todo.Ok() && |s.mem| == 512 * |s.segs| && MetasOk(h0, cg, s.segs, s.todo.meta)
    requires NewPagesOk(h0, s.mem, s.segs, s.src, s.raw, s.todo.meta)
    requires s.todo.meta[id].ap <= s.todo.meta[id].ep <= |s.mem|
    requires id == MetaWeak ==> s.todo.meta[id].ap == s.todo.meta[id].ep
    ensures NewPagesOk(h0, Retire(s, id).mem, s.segs, s.src, s.raw, RetireAgenda(s.todo, id).meta)
  {
    var mem' := Retire(s, id).mem;
    forall w {:trigger mem'[w]} | |h0.mem| <= w < |mem'| && Scannable(SegOf(s.segs, w).typ)
      ensures w in s.src || mem'[w].Imm? || w in s.raw || FreeWord(RetireAgenda(s.todo, id).meta, w)
    {
      assert w in s.src || s.mem[w].Imm? || w in s.raw || FreeWord(s.todo.meta, w);
      if FreeWord(s.todo.meta, w) { RetireFreeWord(h0, cg, s.segs, s.todo, id, w); }
    }
  }

  lemma RetireKeepsInv(h0: Heap, cg: nat, s: St, id: MetaId)
    requires Inv(h0, cg, s)
    requires s.todo.meta[id].ap <= s.todo.meta[id].ep <= |s.mem|
    requires id == MetaWeak ==> s.todo.meta[id].ap == s.todo.meta[id].ep
    ensures Inv(h0, cg, Retire(s, id)) && Later(cg, s, Retire(s, id))
  {
    hide WellFormed, SegsStep, PlacesOk, MarksOk, CopiesApart, WhiteIntact, OldIntact, ObjectsWhole, CopiesTraced, PromotedTraced, SourcesOk, SrcInCopies, ColoursOk, MetasOk,
      FreeOk, RangesOk, NewPagesOk, DoneStays;
    var t := Retire(s, id);
    StSizes(h0, cg, s);
    RetireColours(h0, cg, s, id);
    RetireRanges(h0, cg, s, id);
    RetireMetas(h0, cg, s, id);
    RetireNewPages(h0, cg, s, id);
    forall w {:trigger t.mem[w]} | 0 <= w < |h0.mem| ensures t.mem[w] == s.mem[w] {
      if s.todo.meta[id].ap <= w < s.todo.meta[id].ep { FreeWords(h0, cg, s, id, w); }
    }
    OldPartKept(h0, cg, s.mem, t.mem, s.segs, s.fwd);
    OldIntactKept(h0, cg, s.mem, t.mem, s.src, s.src);
    RetireOnce(s.todo, id);
    RetireDone(s, id);
  }

  lemma StSizes(h0: Heap, cg: nat, s: St)
    requires WellFormed(h0) && SegsStep(h0, cg, |s.mem|, s.segs)
    ensures |h0.mem| == 512 * |h0.segs| <= |s.mem| == 512 * |s.segs| && |h0.segs| <= |s.segs|
  {
  }

  lemma RetireDone(s: St, id: MetaId)
    requires s.todo.Ok() && s.todo.meta[id].ap <= s.todo.meta[id].ep <= |s.mem|
    ensures DoneStays(s, Retire(s, id))
  {
    var t := Retire(s, id);
    forall w | w in s.src && t.todo.Waiting(w) ensures s.todo.Waiting(w) { RetireWaits(s.todo, id, w); }
  }

  /** The same words are queued. */
  lemma RetireOnce(todo: Agenda, id: MetaId)
    requires todo.Ok() && todo.Once()
    ensures RetireAgenda(todo, id).Once()
  {
    var m := todo.meta[id];
    forall w: nat ensures RetireAgenda(todo, id).Times(w) <= 1 {
      assert todo.Times(w) <= 1;
      HitsPush(Range(m.aq, m.ap), todo.queues[id], w);
    }
  }

  lemma RetireWaits(todo: Agenda, id: MetaId, w: nat)
    requires todo.Ok() && RetireAgenda(todo, id).Waiting(w)
    ensures todo.Waiting(w)
  {
    var m := todo.meta[id];
    if Queued(id) && InRanges([Range(m.aq, m.ap)] + todo.queues[id], w) {
      var r :| r in [Range(m.aq, m.ap)] + todo.queues[id] && In(r, w);
      assert r == Range(m.aq, m.ap) || r in todo.queues[id];
    }
  }

  // ---------- Mapping new pages ----------

  /** New pages of unknown contents after the others; the caller has yet to fill them. */
  function Mmap(s: St, junk: seq<Word>, pages: nat, seg: Seg): St {
    s.(mem := s.mem + junk,
       segs := s.segs + seq(pages, _ => seg),
       raw := s.raw + Block(|s.mem|, 512 * pages))
  }

  lemma MmapSegs(h0: Heap, cg: nat, s: St, junk: seq<Word>, pages: nat, typ: PageType, large: bool)
    requires SegsStep(h0, cg, |s.mem|, s.segs) && |junk| == 512 * pages && (large ==> typ == Pointers) && Generational(typ)
    ensures var t := Mmap(s, junk, pages, Tagged(cg, typ, large));
            && SegsStep(h0, cg, |t.mem|, t.segs)
            && (forall w {:trigger SegOf(t.segs, w)} :: 0 <= w < |s.mem| ==> SegOf(t.segs, w) == SegOf(s.segs, w))
            && PagesAre(t.segs, |s.mem|, |t.mem|, Tagged(cg, typ, large))
  {
    var t := Mmap(s, junk, pages, Tagged(cg, typ, large));
    forall p {:trigger t.segs[p]} | |h0.segs| <= p < |t.segs|
      ensures t.segs[p] == Tagged(cg, t.segs[p].typ, t.segs[p].large) && (t.segs[p].large ==> t.segs[p].typ == Pointers) && Generational(t.segs[p].typ)
    {
      if p < |s.segs| { assert t.segs[p] == s.segs[p]; }
    }
  }

  /** More pages after the others change nothing for the objects already placed. */
  ghost predicate Extends(segs: seq<Seg>, segs': seq<Seg>) {
    && |segs| <= |segs'|
    && (forall w {:trigger SegOf(segs', w)} {:trigger SegOf(segs, w)} :: 0 <= w < 512 * |segs| ==> SegOf(segs', w) == SegOf(segs, w))
  }

  lemma ExtendsPlaces(h0: Heap, cg: nat, segs: seq<Seg>, segs': seq<Seg>, fwd: map<nat, nat>)
    requires Extends(segs, segs') && PlacesOk(h0, cg, segs, fwd)
    ensures PlacesOk(h0, cg, segs', fwd)
  {
    forall a | a in fwd ensures PlaceOk(h0, cg, segs', a, fwd[a]) { assert PlaceOk(h0, cg, segs, a, fwd[a]); }
  }

  lemma ExtendsWhole(h0: Heap, cg: nat, segs: seq<Seg>, segs': seq<Seg>)
    requires Extends(segs, segs') && WellFormed(h0) && |h0.mem| <= 512 * |segs| && ObjectsWhole(h0, cg, segs)
    ensures ObjectsWhole(h0, cg, segs')
  {
    forall a, w | 0 <= a <= w && a in h0.objs && w < a + UsedOf(h0, a) && Older(cg, segs', w) ensures Older(cg, segs', a) {
      assert ObjectOk(h0, a);
      assert Older(cg, segs, w);
    }
  }

  lemma ExtendsMetas(h0: Heap, cg: nat, segs: seq<Seg>, segs': seq<Seg>, meta: map<MetaId, Meta>)
    requires Extends(segs, segs') && HasIds(meta) && MetasOk(h0, cg, segs, meta)
    ensures MetasOk(h0, cg, segs', meta)
  {
    forall i ensures MetaOk(h0, cg, segs', i, meta[i]) { assert MetaOk(h0, cg, segs, i, meta[i]); }
  }

  lemma ExtendsTraces(h0: Heap, cg: nat, segs: seq<Seg>, segs': seq<Seg>, fwd: map<nat, nat>, src: map<nat, nat>, raw: set<nat>)
    requires Extends(segs, segs') && WellFormed(h0) && |h0.mem| <= 512 * |segs|
    requires PlacesOk(h0, cg, segs, fwd) && PlacesOk(h0, cg, segs', fwd)
    requires CopiesTraced(h0, fwd, src, raw) && PromotedTraced(h0, cg, segs, src) && SourcesOk(h0, cg, segs, src, raw)
    ensures CopiesTraced(h0, fwd, src, raw) && PromotedTraced(h0, cg, segs', src) && SourcesOk(h0, cg, segs', src, raw)
  {
    forall a, w | 0 <= a <= w && a in h0.objs && Older(cg, segs', a) && !Older(cg, h0.segs, a) && w < a + UsedOf(h0, a)
      ensures w in src
    {
      assert ObjectOk(h0, a);
      assert Older(cg, segs, a);
    }
  }

  lemma ExtendsColours(h0: Heap, cg: nat, s: St, mem': seq<Word>, segs': seq<Seg>)
    requires Extends(s.segs, segs') && |s.mem| == 512 * |s.segs| && |mem'| == 512 * |segs'|
    requires forall w {:trigger mem'[w]} :: 0 <= w < |s.mem| ==> mem'[w] == s.mem[w]
    requires s.todo.Ok() && SourcesOk(h0, cg, s.segs, s.src, s.raw)
    requires ColoursOk(h0, cg, s.mem, s.segs, s.fwd, s.src, s.todo)
    ensures forall w {:trigger w in s.src} :: w in s.src ==> w < |s.mem|
    ensures ColoursOk(h0, cg, mem', segs', s.fwd, s.src, s.todo)
  {
  }

  lemma ExtendsRanges(h0: Heap, cg: nat, segs: seq<Seg>, segs': seq<Seg>, src: map<nat, nat>, todo: Agenda)
    requires Extends(segs, segs') && todo.Ok() && RangesOk(h0, cg, segs, src, todo)
    ensures RangesOk(h0, cg, segs', src, todo)
  {
    forall i, r | RangeOk(h0, cg, segs, src, todo.meta, i, r) ensures RangeOk(h0, cg, segs', src, todo.meta, i, r) {
      forall w | r.p <= w < r.q ensures Older(cg, segs', w) && (if w < |h0.mem| then w in src else SegOf(segs', w).typ == Pointers) {
        assert Older(cg, segs, w);
      }
    }
  }

  lemma ExtendsOldPart(h0: Heap, cg: nat, mem: seq<Word>, mem': seq<Word>, segs: seq<Seg>, segs': seq<Seg>, fwd: map<nat, nat>)
    requires WellFormed(h0) && |h0.mem| <= |mem| <= |mem'| && |h0.mem| <= 512 * |segs| && Extends(segs, segs')
    requires forall w {:trigger mem'[w]} :: 0 <= w < |h0.mem| ==> mem'[w] == mem[w]
    requires PlacesOk(h0, cg, segs, fwd) && MarksOk(h0, mem, fwd) && WhiteIntact(h0, cg, mem, segs, fwd)
    ensures MarksOk(h0, mem', fwd) && WhiteIntact(h0, cg, mem', segs', fwd)
  {
    OldPartKept(h0, cg, mem, mem', segs, fwd);
    forall a, w | 0 <= a <= w && White(h0, cg, segs', fwd, a) && w < a + UsedOf(h0, a) ensures mem'[w] == h0.mem[w] {
      assert ObjectOk(h0, a);
      assert White(h0, cg, segs, fwd, a);
    }
  }

  lemma MmapRaw(h0: Heap, cg: nat, s: St, n: nat)
    requires |s.mem| == 512 * |s.segs| && PlacesOk(h0, cg, s.segs, s.fwd) && SourcesOk(h0, cg, s.segs, s.src, s.raw)
    requires CopiesTraced(h0, s.fwd, s.src, s.raw)
    ensures SourcesOk(h0, cg, s.segs, s.src, s.raw + Block(|s.mem|, n))
    ensures CopiesTraced(h0, s.fwd, s.src, s.raw + Block(|s.mem|, n))
  {
    forall w | w in s.src ensures w !in Block(|s.mem|, n) { assert Older(cg, s.segs, w); }
    forall a | a in s.fwd ensures s.fwd[a] !in Block(|s.mem|, n) { assert PlaceOk(h0, cg, s.segs, a, s.fwd[a]); }
  }

  lemma MmapRegions(h0: Heap, cg: nat, s: St, junk: seq<Word>, pages: nat, seg: Seg)
    requires s.todo.Ok() && |s.mem| == 512 * |s.segs| && |junk| == 512 * pages
    requires Extends(s.segs, Mmap(s, junk, pages, seg).segs)
    requires MetasOk(h0, cg, s.segs, s.todo.meta)
    requires PlacesOk(h0, cg, s.segs, s.fwd) && PlacesOk(h0, cg, Mmap(s, junk, pages, seg).segs, s.fwd)
    requires FreeOk(h0, s.fwd, s.src, s.raw, s.todo.meta)
    requires NewPagesOk(h0, s.mem, s.segs, s.src, s.raw, s.todo.meta) && |h0.mem| <= |s.mem|
    ensures var t := Mmap(s, junk, pages, seg);
            && FreeOk(h0, t.fwd, t.src, t.raw, t.todo.meta)
            && NewPagesOk(h0, t.mem, t.segs, t.src, t.raw, t.todo.meta)
  {
    var t := Mmap(s, junk, pages, seg);
    forall i, w: nat | Free(t.todo.meta, i, w) ensures w !in t.src && w !in t.raw {
      assert Free(s.todo.meta, i, w);
      assert MetaOk(h0, cg, s.segs, i, s.todo.meta[i]);
    }
    forall w {:trigger t.mem[w]} | |h0.mem| <= w < |t.mem| && Scannable(SegOf(t.segs, w).typ)
      ensures w in t.src || t.mem[w].Imm? || w in t.raw || FreeWord(t.todo.meta, w)
    {
      if w < |s.mem| { assert t.mem[w] == s.mem[w]; }
    }
  }

  lemma MmapKeepsInv(h0: Heap, cg: nat, s: St, junk: seq<Word>, pages: nat, typ: PageType, large: bool)
    requires Inv(h0, cg, s) && |junk| == 512 * pages && (large ==> typ == Pointers) && Generational(typ)
    ensures Inv(h0, cg, Mmap(s, junk, pages, Tagged(cg, typ, large)))
  {
    var t := Mmap(s, junk, pages, Tagged(cg, typ, large));
    assert Extends(s.segs, t.segs) && SegsStep(h0, cg, |t.mem|, t.segs) by { MmapSegs(h0, cg, s, junk, pages, typ, large); }
    ExtendsPlaces(h0, cg, s.segs, t.segs, s.fwd);
    ExtendsOldPart(h0, cg, s.mem, t.mem, s.segs, t.segs, s.fwd);
    OldIntactKept(h0, cg, s.mem, t.mem, s.src, s.src);
    MmapRaw(h0, cg, s, 512 * pages);
    ExtendsWhole(h0, cg, s.segs, t.segs);
    ExtendsTraces(h0, cg, s.segs, t.segs, s.fwd, s.src, t.raw);
    MmapRegions(h0, cg, s, junk, pages, Tagged(cg, typ, large));
    assert MetasOk(h0, cg, t.segs, s.todo.meta) by { ExtendsMetas(h0, cg, s.segs, t.segs, s.todo.meta); }
    assert ColoursOk(h0, cg, t.mem, t.segs, t.fwd, t.src, t.todo) by { ExtendsColours(h0, cg, s, t.mem, t.segs); }
    assert RangesOk(h0, cg, t.segs, t.src, t.todo) by { ExtendsRanges(h0, cg, s.segs, t.segs, s.src, s.todo); }
  }

  // ---------- A fresh page becomes the current meta page ----------

  /** The n words at the start of the pages from base to end are allocated, the rest is free. */
  function Adopt(s: St, id: MetaId, base: nat, end: nat, n: nat): St
    requires base + n <= end
  {
    s.(todo := s.todo.(meta := s.todo.meta[id := Meta(base + n, base, end, base)]),
       raw := s.raw - Block(base + n, end - base - n))
  }

  lemma AdoptMetas(h0: Heap, cg: nat, s: St, id: MetaId, base: nat, end: nat, n: nat)
    requires s.todo.Ok() && MetasOk(h0, cg, s.segs, s.todo.meta)
    requires 0 < base && |h0.mem| <= base && base + n <= end && base % 2 == 0 && end % 2 == 0 && n % 2 == 0
    requires PagesAre(s.segs, base, end, Tagged(cg, MetaType(id), false))
    requires forall i {:trigger s.todo.meta[i]} :: s.todo.meta[i].ep <= base
    ensures MetasOk(h0, cg, s.segs, Adopt(s, id, base, end, n).todo.meta)
  {
    hide MetasOk;
    MetaChanges(h0, cg, s.segs, s.todo.meta, id, Meta(base + n, base, end, base));
  }

  /** Nothing of the state before reaches into the pages from base on, except words not filled yet. */
  ghost predicate Untouched(h0: Heap, s: St, base: nat)
    requires s.todo.Ok()
  {
    && (forall i {:trigger s.todo.meta[i]} :: s.todo.meta[i].ep <= base)
    && (forall a {:trigger a in s.fwd} :: a in s.fwd ==> s.fwd[a] + SizeOf(h0, a) <= base)
    && (forall w {:trigger w in s.src} :: w in s.src ==> w < base)
    && (forall i, r {:trigger r in s.todo.queues[i]} :: r in s.todo.queues[i] ==> r.q <= base)
    && (forall r {:trigger r in s.todo.work} :: r in s.todo.work ==> r.q <= base)
  }

  lemma AdoptFree(h0: Heap, cg: nat, s: St, id: MetaId, base: nat, end: nat, n: nat)
    requires s.todo.Ok() && PlacesOk(h0, cg, s.segs, s.fwd) && Untouched(h0, s, base)
    requires FreeOk(h0, s.fwd, s.src, s.raw, s.todo.meta)
    requires base + n <= end
    ensures FreeOk(h0, s.fwd, s.src, Adopt(s, id, base, end, n).raw, Adopt(s, id, base, end, n).todo.meta)
  {
    var t := Adopt(s, id, base, end, n);
    forall i, w: nat | Free(t.todo.meta, i, w) ensures w !in t.src && w !in t.raw {
      if i != id { assert Free(s.todo.meta, i, w); }
    }
  }

  lemma AdoptTraces(h0: Heap, cg: nat, s: St, id: MetaId, base: nat, end: nat, n: nat)
    requires s.todo.Ok() && PlacesOk(h0, cg, s.segs, s.fwd) && Untouched(h0, s, base)
    requires CopiesTraced(h0, s.fwd, s.src, s.raw) && SourcesOk(h0, cg, s.segs, s.src, s.raw)
    requires base + n <= end
    ensures CopiesTraced(h0, s.fwd, s.src, Adopt(s, id, base, end, n).raw)
    ensures SourcesOk(h0, cg, s.segs, s.src, Adopt(s, id, base, end, n).raw)
  {
    var raw' := Adopt(s, id, base, end, n).raw;
    forall a, w | a in s.fwd && s.fwd[a] <= w < s.fwd[a] + UsedOf(h0, a) && w !in raw' ensures w !in s.raw {
      assert s.fwd[a] + SizeOf(h0, a) <= base;
    }
  }

  lemma AdoptRanges(h0: Heap, cg: nat, s: St, id: MetaId, base: nat, end: nat, n: nat)
    requires s.todo.Ok() && PlacesOk(h0, cg, s.segs, s.fwd) && Untouched(h0, s, base)
    requires RangesOk(h0, cg, s.segs, s.src, s.todo) && base + n <= end
    ensures RangesOk(h0, cg, s.segs, s.src, Adopt(s, id, base, end, n).todo)
  {
    var t := Adopt(s, id, base, end, n);
    hide RangeOk, PlacesOk;
    forall i, r | RangeOk(h0, cg, s.segs, s.src, s.todo.meta, i, r) && r.q <= base
      ensures RangeOk(h0, cg, s.segs, s.src, t.todo.meta, i, r)
    {
      RangeStays(h0, cg, s.segs, s.src, s.todo.meta, t.todo.meta, i, r);
    }
  }

  lemma AdoptNewPages(h0: Heap, cg: nat, s: St, id: MetaId, base: nat, end: nat, n: nat)
    requires s.todo.Ok() && |s.mem| == 512 * |s.segs|
    requires NewPagesOk(h0, s.mem, s.segs, s.src, s.raw, s.todo.meta)
    requires s.todo.meta[id] == NO_META && base + n <= end
    ensures NewPagesOk(h0, s.mem, s.segs, s.src, Adopt(s, id, base, end, n).raw, Adopt(s, id, base, end, n).todo.meta)
  {
    var t := Adopt(s, id, base, end, n);
    forall w: nat | w in s.raw && w !in t.raw ensures FreeWord(t.todo.meta, w) { assert Free(t.todo.meta, id, w); }
    forall w: nat | FreeWord(s.todo.meta, w) ensures FreeWord(t.todo.meta, w) {
      var i :| Free(s.todo.meta, i, w);
      assert Free(t.todo.meta, i, w);
    }
  }

  lemma AdoptColours(h0: Heap, cg: nat, s: St, id: MetaId, base: nat, end: nat, n: nat)
    requires s.todo.Ok() && |s.mem| == 512 * |s.segs| && SourcesOk(h0, cg, s.segs, s.src, s.raw)
    requires ColoursOk(h0, cg, s.mem, s.segs, s.fwd, s.src, s.todo)
    requires s.todo.meta[id] == NO_META && base + n <= end
    ensures ColoursOk(h0, cg, s.mem, s.segs, s.fwd, s.src, Adopt(s, id, base, end, n).todo)
  {
    var t := Adopt(s, id, base, end, n);
    forall w | w in s.src && s.todo.Waiting(w) ensures t.todo.Waiting(w) {}
  }

  lemma AdoptKeepsInv(h0: Heap, cg: nat, s: St, id: MetaId, base: nat, end: nat, n: nat)
    requires Inv(h0, cg, s) && Untouched(h0, s, base) && s.todo.meta[id] == NO_META
    requires 0 < base && |h0.mem| <= base && base + n <= end && base % 2 == 0 && end % 2 == 0 && n % 2 == 0
    requires PagesAre(s.segs, base, end, Tagged(cg, MetaType(id), false))
    ensures Inv(h0, cg, Adopt(s, id, base, end, n))
  {
    AdoptMetas(h0, cg, s, id, base, end, n);
    AdoptFree(h0, cg, s, id, base, end, n);
    AdoptTraces(h0, cg, s, id, base, end, n);
    AdoptRanges(h0, cg, s, id, base, end, n);
    AdoptNewPages(h0, cg, s, id, base, end, n);
    AdoptColours(h0, cg, s, id, base, end, n);
    AdoptOnce(h0, s, id, base, end, n);
  }

  lemma AdoptOnce(h0: Heap, s: St, id: MetaId, base: nat, end: nat, n: nat)
    requires s.todo.Ok() && Untouched(h0, s, base) && s.todo.meta[id] == NO_META && base + n <= end && s.todo.Once()
    requires forall i {:trigger s.todo.meta[i]} :: s.todo.meta[i].ap <= s.todo.meta[i].ep
    ensures Adopt(s, id, base, end, n).todo.Once()
  {
    var t := Adopt(s, id, base, end, n);
    forall w: nat ensures t.todo.Times(w) <= 1 {
      assert s.todo.Times(w) <= 1;
      if base <= w { NotCounted(s.todo, w); }
    }
  }

  lemma MmapUntouched(h0: Heap, cg: nat, s: St, junk: seq<Word>, pages: nat, seg: Seg)
    requires s.todo.Ok() && |s.mem| == 512 * |s.segs| && MetasOk(h0, cg, s.segs, s.todo.meta)
    requires PlacesOk(h0, cg, s.segs, s.fwd) && SourcesOk(h0, cg, s.segs, s.src, s.raw)
    requires RangesOk(h0, cg, s.segs, s.src, s.todo)
    ensures Untouched(h0, Mmap(s, junk, pages, seg), |s.mem|)
  {
    forall i ensures s.todo.meta[i].ep <= |s.mem| { assert MetaOk(h0, cg, s.segs, i, s.todo.meta[i]); }
    forall a | a in s.fwd ensures s.fwd[a] + SizeOf(h0, a) <= |s.mem| { assert PlaceOk(h0, cg, s.segs, a, s.fwd[a]); }
    forall w | w in s.src ensures w < |s.mem| { assert Older(cg, s.segs, w); }
  }

  lemma AdoptReserves(h0: Heap, s: St, id: MetaId, base: nat, end: nat, n: nat)
    requires s.todo.Ok() && Untouched(h0, s, base)
    requires |h0.mem| <= base && 0 < n && base + n <= end <= 512 * |s.segs| && base % 2 == 0
    requires PagesAre(s.segs, base, end, SegOf(s.segs, base))
    requires forall w {:trigger w in s.raw} :: base <= w < end ==> w in s.raw
    ensures Reserved(h0, Adopt(s, id, base, end, n), base, n)
  {
  }

  /** New pages, the first n words of them allocated for objects of meta page id. */
  function MmapMeta(s: St, cg: nat, id: MetaId, n: nat, junk: seq<Word>, pages: nat): St
    requires s.todo.Ok() && n <= 512 * pages
  {
    Adopt(Mmap(s, junk, pages, Tagged(cg, MetaType(id), false)), id, |s.mem|, |s.mem| + 512 * pages, n)
  }

  /** What mapping pages gives, in one place. */
  lemma MmapAll(h0: Heap, cg: nat, s: St, junk: seq<Word>, pages: nat, typ: PageType, large: bool)
    requires Inv(h0, cg, s) && |junk| == 512 * pages && (large ==> typ == Pointers) && Generational(typ)
    ensures s.todo.Ok() && |h0.mem| <= |s.mem| == 512 * |s.segs| && 1 <= |h0.segs| && |h0.mem| == 512 * |h0.segs|
    ensures var m := Mmap(s, junk, pages, Tagged(cg, typ, large));
            && PagesAre(m.segs, |s.mem|, |s.mem| + 512 * pages, Tagged(cg, typ, large))
            && Untouched(h0, m, |s.mem|) && Extends(s.segs, m.segs) && |m.mem| == 512 * |m.segs|
    ensures forall w {:trigger w in s.raw} :: w in s.raw ==> w < |s.mem|
  {
    MmapSegs(h0, cg, s, junk, pages, typ, large);
    MmapUntouched(h0, cg, s, junk, pages, Tagged(cg, typ, large));
  }

  lemma MmapMetaKeepsInv(h0: Heap, cg: nat, s: St, id: MetaId, n: nat, junk: seq<Word>, pages: nat)
    requires Inv(h0, cg, s) && 0 < n <= 512 * pages && n % 2 == 0 && |junk| == 512 * pages && s.todo.meta[id] == NO_META
    ensures Inv(h0, cg, MmapMeta(s, cg, id, n, junk, pages))
  {
    hide Inv, Untouched, PagesAre, Extends;
    MmapAll(h0, cg, s, junk, pages, MetaType(id), false);
    var m := Mmap(s, junk, pages, Tagged(cg, MetaType(id), false));
    MmapKeepsInv(h0, cg, s, junk, pages, MetaType(id), false);
    EvenPages(|s.segs|, pages);
    AdoptKeepsInv(h0, cg, m, id, |s.mem|, |s.mem| + 512 * pages, n);
  }

  lemma EvenPages(p: nat, n: nat)
    ensures (512 * p) % 2 == 0 && (512 * p + 512 * n) % 2 == 0
  {
    assert 512 * p == 2 * (256 * p) && 512 * p + 512 * n == 2 * (256 * p + 256 * n);
  }

  lemma MmapMetaLater(h0: Heap, cg: nat, s: St, id: MetaId, n: nat, junk: seq<Word>, pages: nat)
    requires Inv(h0, cg, s) && n <= 512 * pages && |junk| == 512 * pages
    ensures Later(cg, s, MmapMeta(s, cg, id, n, junk, pages))
  {
    hide RangesOk, ColoursOk, NewPagesOk, CopiesTraced, WhiteIntact, MetasOk, FreeOk, PlacesOk, PromotedTraced, ObjectsWhole, DoneStays;
    forall w | w in s.src ensures w < |s.mem| { assert Older(cg, s.segs, w); }
    MetaDone(s, MmapMeta(s, cg, id, n, junk, pages), id, Meta(|s.mem| + n, |s.mem|, |s.mem| + 512 * pages, |s.mem|));
  }

  lemma MmapMetaReserves(h0: Heap, cg: nat, s: St, id: MetaId, n: nat, junk: seq<Word>, pages: nat)
    requires Inv(h0, cg, s) && 0 < n <= 512 * pages && |junk| == 512 * pages
    ensures Reserved(h0, MmapMeta(s, cg, id, n, junk, pages), |s.mem|, n)
    ensures PagesAre(MmapMeta(s, cg, id, n, junk, pages).segs, |s.mem|, |s.mem| + n, Tagged(cg, MetaType(id), false))
    ensures MmapMeta(s, cg, id, n, junk, pages).raw == s.raw + Block(|s.mem|, n)
  {
    hide Inv, Untouched, Extends;
    MmapAll(h0, cg, s, junk, pages, MetaType(id), false);
    var m := Mmap(s, junk, pages, Tagged(cg, MetaType(id), false));
    EvenPages(|s.segs|, pages);
    AdoptReserves(h0, m, id, |s.mem|, |s.mem| + 512 * pages, n);
  }
}
