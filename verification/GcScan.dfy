/** The steps of collect_loop: taking a stretch of words from a queue or a meta page, and scanning one word. */
module GcScan {
  import opened Memory
  import opened GcState
  import opened GcOnce
  import opened GcSteps
  import opened GcMoves

  function Step(id: MetaId): nat { if id == MetaPair then 2 else 1 }

  lemma EvenObject(h0: Heap, a: nat)
    requires WellFormed(h0) && a in h0.objs
    ensures a % 2 == 0
  {
    assert ObjectOk(h0, a);
  }

  /** Words of surviving pages may be overwritten without touching objects not reached yet. */
  lemma WriteMarks(h0: Heap, cg: nat, mem: seq<Word>, segs: seq<Seg>, fwd: map<nat, nat>, w: nat, u: Word)
    requires WellFormed(h0) && SegsStep(h0, cg, |mem|, segs)
    requires PlacesOk(h0, cg, segs, fwd) && MarksOk(h0, mem, fwd)
    requires w < |mem| && Older(cg, segs, w)
    ensures MarksOk(h0, mem[w := u], fwd)
  {
    hide WellFormed, PlacesOk, SegsStep;
    forall a | a in fwd ensures a + 1 < |mem| && a != w && a + 1 != w {
      MovedNotOlder(h0, cg, |mem|, segs, fwd, a);
      EvenObject(h0, a);
      SamePage(a);
    }
  }

  lemma WriteWhites(h0: Heap, cg: nat, mem: seq<Word>, segs: seq<Seg>, fwd: map<nat, nat>, w: nat, u: Word)
    requires WellFormed(h0) && |h0.mem| <= |mem| && ObjectsWhole(h0, cg, segs)
    requires WhiteIntact(h0, cg, mem, segs, fwd)
    requires w < |mem| && Older(cg, segs, w)
    ensures WhiteIntact(h0, cg, mem[w := u], segs, fwd)
  {
    var mem' := mem[w := u];
    forall a, x | 0 <= a <= x && White(h0, cg, segs, fwd, a) && x < a + UsedOf(h0, a) ensures mem'[x] == h0.mem[x] {
      assert ObjectOk(h0, a);
      assert mem[x] == h0.mem[x];
      assert x != w;
    }
  }

  lemma WriteOld(h0: Heap, cg: nat, s: St, w: nat, u: Word)
    requires OldIntact(h0, cg, s.mem, s.src) && |h0.mem| <= |s.mem| && w < |s.mem|
    requires w in s.src || u == s.mem[w] || w >= |h0.mem|
    ensures OldIntact(h0, cg, s.mem[w := u], s.src)
  {
    OldIntactKept(h0, cg, s.mem, s.mem[w := u], s.src, s.src);
  }

  // ---------- Scanning one word ----------

  /** The first word of the work list gets its new value and is done with. */
  function ScanWord(s: St, u: Word): St
    requires |s.todo.work| > 0 && s.todo.work[0].p < |s.mem|
  {
    var r := s.todo.work[0];
    s.(mem := s.mem[r.p := u], todo := s.todo.(work := [Range(r.p + Step(s.todo.workId), r.q)] + s.todo.work[1..]))
  }

  /** What the first word of the work list has to become. */
  ghost predicate Scans(h0: Heap, cg: nat, s: St, u: Word)
    requires |s.todo.work| > 0 && s.todo.work[0].p < |s.mem|
  {
    var w := s.todo.work[0].p;
    if w in s.src then s.src[w] < |h0.mem| && IsImage(cg, s.segs, s.fwd, h0.mem[s.src[w]], u) else u == s.mem[w]
  }

  lemma ScanWaiting(todo: Agenda, w: nat)
    requires todo.Ok() && |todo.work| > 0 && todo.Waiting(w)
    requires todo.work[0].p % 2 == 0 || todo.workId != MetaPair
    ensures w == todo.work[0].p || todo.(work := [Range(todo.work[0].p + Step(todo.workId), todo.work[0].q)] + todo.work[1..]).Waiting(w)
  {
    var r := todo.work[0];
    var todo' := todo.(work := [Range(r.p + Step(todo.workId), r.q)] + todo.work[1..]);
    if w != r.p && InRanges(todo.work, w) && Stride(todo.workId, w) {
      var x :| x in todo.work && In(x, w);
      if x == r {
        assert todo'.work[0] in todo'.work && In(todo'.work[0], w);
      } else {
        assert x in todo.work[1..];
        assert x in todo'.work;
      }
    }
  }

  lemma ScanColours(h0: Heap, cg: nat, s: St, u: Word)
    requires s.todo.Ok() && |s.todo.work| > 0 && s.todo.work[0].p < |s.mem|
    requires s.todo.work[0].p % 2 == 0 || s.todo.workId != MetaPair
    requires Scans(h0, cg, s, u)
    requires ColoursOk(h0, cg, s.mem, s.segs, s.fwd, s.src, s.todo)
    ensures ColoursOk(h0, cg, ScanWord(s, u).mem, s.segs, s.fwd, s.src, ScanWord(s, u).todo)
  {
    forall w | w in s.src && s.todo.Waiting(w) ensures w == s.todo.work[0].p || ScanWord(s, u).todo.Waiting(w) {
      ScanWaiting(s.todo, w);
    }
  }

  lemma ScanRanges(h0: Heap, cg: nat, s: St, u: Word)
    requires s.todo.Ok() && |s.todo.work| > 0 && s.todo.work[0].p < s.todo.work[0].q <= |s.mem|
    requires RangesOk(h0, cg, s.segs, s.src, s.todo)
    ensures RangesOk(h0, cg, s.segs, s.src, ScanWord(s, u).todo)
  {
    var t := ScanWord(s, u);
    var r := s.todo.work[0];
    assert r in s.todo.work;
    assert RangeOk(h0, cg, s.segs, s.src, s.todo.meta, s.todo.workId, r);
    assert RangeOk(h0, cg, s.segs, s.src, s.todo.meta, s.todo.workId, t.todo.work[0]);
    forall x | x in t.todo.work ensures RangeOk(h0, cg, s.segs, s.src, s.todo.meta, s.todo.workId, x) {
      if x != t.todo.work[0] {
        assert x in s.todo.work[1..];
        assert x in s.todo.work;
      }
    }
  }

  lemma ScanNewPages(h0: Heap, s: St, w: nat, u: Word)
    requires s.todo.Ok() && |s.mem| == 512 * |s.segs| && w < |s.mem|
    requires w in s.src || u == s.mem[w]
    requires NewPagesOk(h0, s.mem, s.segs, s.src, s.raw, s.todo.meta)
    ensures NewPagesOk(h0, s.mem[w := u], s.segs, s.src, s.raw, s.todo.meta)
  {
    var mem' := s.mem[w := u];
    forall x {:trigger mem'[x]} | |h0.mem| <= x < |mem'| && Scannable(SegOf(s.segs, x).typ)
      ensures x in s.src || mem'[x].Imm? || x in s.raw || FreeWord(s.todo.meta, x)
    {
      assert x in s.src || s.mem[x].Imm? || x in s.raw || FreeWord(s.todo.meta, x);
    }
  }

  lemma ScanKeepsInv(h0: Heap, cg: nat, s: St, u: Word)
    requires Inv(h0, cg, s)
    requires |s.todo.work| > 0 && s.todo.work[0].p < s.todo.work[0].q && s.todo.work[0].q <= |s.mem|
    requires Older(cg, s.segs, s.todo.work[0].p) && (s.todo.workId == MetaPair ==> s.todo.work[0].p % 2 == 0)
    requires Scans(h0, cg, s, u)
    ensures Inv(h0, cg, ScanWord(s, u))
  {
    WriteMarks(h0, cg, s.mem, s.segs, s.fwd, s.todo.work[0].p, u);
    WriteWhites(h0, cg, s.mem, s.segs, s.fwd, s.todo.work[0].p, u);
    WriteOld(h0, cg, s, s.todo.work[0].p, u);
    ScanColours(h0, cg, s, u);
    ScanRanges(h0, cg, s, u);
    ScanNewPages(h0, s, s.todo.work[0].p, u);
    ScanOnce(s, u);
  }

  /** The word that has been scanned is not queued any more, by any stretch. */
  lemma ScanOnce(s: St, u: Word)
    requires s.todo.Ok() && |s.todo.work| > 0 && s.todo.work[0].p < s.todo.work[0].q && s.todo.work[0].p < |s.mem| && s.todo.Once()
    ensures ScanWord(s, u).todo.Ok() && ScanWord(s, u).todo.Once()
    ensures s.todo.Times(s.todo.work[0].p) == 1 && ScanWord(s, u).todo.Times(s.todo.work[0].p) == 0
  {
    var t := ScanWord(s, u);
    var p := s.todo.work[0].p;
    forall w: nat ensures t.todo.Times(w) <= s.todo.Times(w) <= 1 && (w == p ==> t.todo.Times(w) < s.todo.Times(w)) {
      assert s.todo.Times(w) <= 1;
      assert [s.todo.work[0]] + s.todo.work[1..] == s.todo.work;
      HitsPush(s.todo.work[0], s.todo.work[1..], w);
      HitsPush(t.todo.work[0], s.todo.work[1..], w);
    }
  }

  lemma ScanWaits(s: St, u: Word, w: nat)
    requires s.todo.Ok() && |s.todo.work| > 0 && s.todo.work[0].p < |s.mem| && ScanWord(s, u).todo.Ok() && ScanWord(s, u).todo.Waiting(w)
    ensures s.todo.Waiting(w)
  {
    var t := ScanWord(s, u);
    if InRanges(t.todo.work, w) {
      var x :| x in t.todo.work && In(x, w);
      if x in s.todo.work[1..] {
        assert x in s.todo.work;
      } else {
        assert s.todo.work[0] in s.todo.work && In(s.todo.work[0], w);
      }
    }
  }

  lemma ScanDone(s: St, u: Word)
    requires s.todo.Ok() && |s.todo.work| > 0 && s.todo.work[0].p < |s.mem|
    ensures DoneStays(s, ScanWord(s, u))
  {
    forall w | w in s.src && ScanWord(s, u).todo.Waiting(w) ensures s.todo.Waiting(w) { ScanWaits(s, u, w); }
  }

  /** A word to be scanned belongs to a survivor or is not a reference. */
  lemma ScannedWord(h0: Heap, cg: nat, s: St, w: nat)
    requires s.todo.Ok() && |s.mem| == 512 * |s.segs|
    requires |s.todo.work| > 0 && s.todo.work[0].p == w < s.todo.work[0].q
    requires RangesOk(h0, cg, s.segs, s.src, s.todo)
    requires NewPagesOk(h0, s.mem, s.segs, s.src, s.raw, s.todo.meta)
    requires s.raw == {}
    ensures w < s.todo.work[0].q <= |s.mem| && Older(cg, s.segs, w)
    ensures s.todo.workId == MetaPair ==> w % 2 == 0
    ensures w in s.src || s.mem[w].Imm?
  {
    var r := s.todo.work[0];
    assert r in s.todo.work;
    assert RangeOk(h0, cg, s.segs, s.src, s.todo.meta, s.todo.workId, r);
    assert Older(cg, s.segs, w);
    assert forall i {:trigger Free(s.todo.meta, i, w)} :: !Free(s.todo.meta, i, w);
    assert !FreeWord(s.todo.meta, w);
  }

  /** Copies are not moved again. */
  lemma CopyNotMoved(h0: Heap, cg: nat, segs: seq<Seg>, fwd: map<nat, nat>, a: nat)
    requires PlacesOk(h0, cg, segs, fwd) && a in fwd
    ensures fwd[a] !in fwd
  {
    assert PlaceOk(h0, cg, segs, a, fwd[a]);
    forall c | c in fwd ensures c < |h0.mem| { assert PlaceOk(h0, cg, segs, c, fwd[c]); }
  }

  /** Scanning an image again gives the same image. */
  lemma ImageOfImage(h0: Heap, cg: nat, s: St, v: Word, x: Word, u: Word)
    requires SegsStep(h0, cg, |s.mem|, s.segs) && PlacesOk(h0, cg, s.segs, s.fwd) && cg <= OLDEST
    requires IsImage(cg, s.segs, s.fwd, v, x) && IsImage(cg, s.segs, s.fwd, x, u)
    ensures u == x
  {
    if v.Ptr? && v.addr in s.fwd { CopyNotMoved(h0, cg, s.segs, s.fwd, v.addr); }
  }

  // ---------- Taking stretches of words ----------

  function TakeQueue(todo: Agenda, id: MetaId): Agenda
    requires todo.Ok()
  {
    todo.(queues := todo.queues[id := []], work := todo.queues[id], workId := id)
  }

  function TakeMeta(todo: Agenda, id: MetaId): Agenda
    requires todo.Ok()
  {
    var m := todo.meta[id];
    todo.(meta := todo.meta[id := m.(aq := m.ap)], work := [Range(m.aq, m.ap)], workId := id)
  }

  function Drop(todo: Agenda): Agenda
    requires |todo.work| > 0
  {
    todo.(work := todo.work[1..])
  }

  lemma TakeQueueColours(h0: Heap, cg: nat, s: St, id: MetaId)
    requires s.todo.Ok() && s.todo.work == [] && Queued(id)
    requires ColoursOk(h0, cg, s.mem, s.segs, s.fwd, s.src, s.todo)
    ensures ColoursOk(h0, cg, s.mem, s.segs, s.fwd, s.src, TakeQueue(s.todo, id))
  {
    forall w | w in s.src && s.todo.Waiting(w) ensures TakeQueue(s.todo, id).Waiting(w) {}
  }

  lemma TakeQueueKeepsInv(h0: Heap, cg: nat, s: St, id: MetaId)
    requires Inv(h0, cg, s) && s.todo.work == [] && Queued(id)
    ensures Inv(h0, cg, s.(todo := TakeQueue(s.todo, id)))
  {
    TakeQueueColours(h0, cg, s, id);
    assert RangesOk(h0, cg, s.segs, s.src, TakeQueue(s.todo, id));
    TakeQueueOnce(s.todo, id);
  }

  /** The same words are queued. */
  lemma TakeQueueOnce(todo: Agenda, id: MetaId)
    requires todo.Ok() && todo.work == [] && Queued(id) && todo.Once()
    ensures TakeQueue(todo, id).Once()
    ensures forall w: nat {:trigger todo.Waiting(w)} :: TakeQueue(todo, id).Waiting(w) ==> todo.Waiting(w)
  {
    forall w: nat ensures TakeQueue(todo, id).Times(w) <= 1 { assert todo.Times(w) <= 1; }
  }

  lemma TakeMetaWaiting(todo: Agenda, id: MetaId, w: nat)
    requires todo.Ok() && todo.work == [] && Queued(id) && todo.Waiting(w)
    ensures TakeMeta(todo, id).Waiting(w)
  {
    var m := todo.meta[id];
    var r := Range(m.aq, m.ap);
    assert r in TakeMeta(todo, id).work;
    assert In(r, w) <==> InMeta(m, w);
  }

  lemma TakeMetaMetas(h0: Heap, cg: nat, segs: seq<Seg>, todo: Agenda, id: MetaId)
    requires todo.Ok() && MetasOk(h0, cg, segs, todo.meta)
    ensures MetasOk(h0, cg, segs, TakeMeta(todo, id).meta)
  {
    var meta' := TakeMeta(todo, id).meta;
    forall i ensures MetaOk(h0, cg, segs, i, meta'[i]) { assert MetaOk(h0, cg, segs, i, todo.meta[i]); }
  }

  lemma TakeMetaRange(h0: Heap, cg: nat, s: St, id: MetaId)
    requires s.todo.Ok() && cg <= OLDEST && SegsStep(h0, cg, |s.mem|, s.segs) && Queued(id)
    requires MetasOk(h0, cg, s.segs, s.todo.meta)
    ensures RangeOk(h0, cg, s.segs, s.src, TakeMeta(s.todo, id).meta, id, Range(s.todo.meta[id].aq, s.todo.meta[id].ap))
  {
    var m := s.todo.meta[id];
    var meta' := TakeMeta(s.todo, id).meta;
    assert MetaOk(h0, cg, s.segs, id, m);
    forall w | m.aq <= w < m.ap ensures Older(cg, s.segs, w) && |h0.mem| <= w && SegOf(s.segs, w).typ == Pointers {
      assert SegOf(s.segs, w) == Tagged(cg, MetaType(id), false);
    }
    forall i ensures m.ap <= meta'[i].ap || meta'[i].ep <= m.aq { assert MetaOk(h0, cg, s.segs, i, s.todo.meta[i]); }
  }

  lemma TakeMetaRanges(h0: Heap, cg: nat, s: St, id: MetaId)
    requires s.todo.Ok() && s.todo.work == [] && RangesOk(h0, cg, s.segs, s.src, s.todo)
    requires RangeOk(h0, cg, s.segs, s.src, TakeMeta(s.todo, id).meta, id, Range(s.todo.meta[id].aq, s.todo.meta[id].ap))
    ensures RangesOk(h0, cg, s.segs, s.src, TakeMeta(s.todo, id))
  {
    var meta' := TakeMeta(s.todo, id).meta;
    forall i, r | RangeOk(h0, cg, s.segs, s.src, s.todo.meta, i, r) ensures RangeOk(h0, cg, s.segs, s.src, meta', i, r) {}
  }

  lemma TakeMetaColours(h0: Heap, cg: nat, s: St, id: MetaId)
    requires s.todo.Ok() && s.todo.work == [] && Queued(id)
    requires ColoursOk(h0, cg, s.mem, s.segs, s.fwd, s.src, s.todo)
    ensures ColoursOk(h0, cg, s.mem, s.segs, s.fwd, s.src, TakeMeta(s.todo, id))
  {
    forall w | w in s.src && s.todo.Waiting(w) ensures TakeMeta(s.todo, id).Waiting(w) { TakeMetaWaiting(s.todo, id, w); }
  }

  /** Only the scan pointers of the meta pages differ. */
  lemma SameFree(h0: Heap, s: St, meta': map<MetaId, Meta>)
    requires s.todo.Ok() && HasIds(meta') && |s.mem| == 512 * |s.segs|
    requires forall i {:trigger meta'[i]} :: meta'[i].ap == s.todo.meta[i].ap && meta'[i].ep == s.todo.meta[i].ep
    requires FreeOk(h0, s.fwd, s.src, s.raw, s.todo.meta) && NewPagesOk(h0, s.mem, s.segs, s.src, s.raw, s.todo.meta)
    ensures FreeOk(h0, s.fwd, s.src, s.raw, meta') && NewPagesOk(h0, s.mem, s.segs, s.src, s.raw, meta')
  {
    forall i, w: nat | Free(meta', i, w) ensures w !in s.src && w !in s.raw { assert Free(s.todo.meta, i, w); }
    forall w: nat | FreeWord(s.todo.meta, w) ensures FreeWord(meta', w) {
      var i :| Free(s.todo.meta, i, w);
      assert Free(meta', i, w);
    }
  }

  lemma TakeMetaKeepsInv(h0: Heap, cg: nat, s: St, id: MetaId)
    requires Inv(h0, cg, s) && s.todo.work == [] && Queued(id)
    ensures Inv(h0, cg, s.(todo := TakeMeta(s.todo, id)))
  {
    TakeMetaMetas(h0, cg, s.segs, s.todo, id);
    TakeMetaRange(h0, cg, s, id);
    TakeMetaRanges(h0, cg, s, id);
    TakeMetaColours(h0, cg, s, id);
    SameFree(h0, s, TakeMeta(s.todo, id).meta);
    TakeMetaOnce(s.todo, id);
  }

  lemma TakeMetaOnce(todo: Agenda, id: MetaId)
    requires todo.Ok() && todo.work == [] && Queued(id) && todo.Once()
    ensures TakeMeta(todo, id).Once()
    ensures forall w: nat {:trigger todo.Waiting(w)} :: TakeMeta(todo, id).Waiting(w) ==> todo.Waiting(w)
  {
    var m := todo.meta[id];
    forall w: nat ensures TakeMeta(todo, id).Times(w) <= 1 && (TakeMeta(todo, id).Waiting(w) ==> todo.Waiting(w)) {
      assert todo.Times(w) <= 1;
      HitsPush(Range(m.aq, m.ap), [], w);
      assert [Range(m.aq, m.ap)] + [] == [Range(m.aq, m.ap)];
      assert InRanges([Range(m.aq, m.ap)], w) ==> InMeta(m, w);
    }
  }

  lemma DropWaiting(todo: Agenda, w: nat)
    requires todo.Ok() && |todo.work| > 0 && todo.work[0].p >= todo.work[0].q && todo.Waiting(w)
    ensures Drop(todo).Waiting(w)
  {
    if InRanges(todo.work, w) {
      var x :| x in todo.work && In(x, w);
      assert x in todo.work[1..];
    }
  }

  lemma DropKeepsInv(h0: Heap, cg: nat, s: St)
    requires Inv(h0, cg, s) && |s.todo.work| > 0 && s.todo.work[0].p >= s.todo.work[0].q
    ensures Inv(h0, cg, s.(todo := Drop(s.todo)))
  {
    var t := s.(todo := Drop(s.todo));
    assert ColoursOk(h0, cg, t.mem, t.segs, t.fwd, t.src, t.todo) by {
      forall w | w in s.src && s.todo.Waiting(w) ensures t.todo.Waiting(w) { DropWaiting(s.todo, w); }
    }
    assert RangesOk(h0, cg, t.segs, t.src, t.todo) by {
      forall r | r in t.todo.work ensures r in s.todo.work {}
    }
    DropOnce(s.todo);
  }

  lemma DropOnce(todo: Agenda)
    requires todo.Ok() && |todo.work| > 0 && todo.work[0].p >= todo.work[0].q && todo.Once()
    ensures Drop(todo).Once()
    ensures forall w: nat {:trigger todo.Waiting(w)} :: Drop(todo).Waiting(w) ==> todo.Waiting(w)
  {
    forall w: nat ensures Drop(todo).Times(w) <= 1 && (Drop(todo).Waiting(w) ==> todo.Waiting(w)) {
      assert todo.Times(w) <= 1;
      if InRanges(todo.work[1..], w) {
        var x :| x in todo.work[1..] && In(x, w);
        assert x in todo.work;
      }
    }
  }
}
