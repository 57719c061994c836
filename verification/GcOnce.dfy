/** No word is queued for scanning twice: how often a word is to be scanned, counted over all the stretches. */
module GcOnce {
  import opened Memory
  import opened GcState

  /** A stretch that is queued in front. */
  lemma HitsPush(r: Range, rs: seq<Range>, w: nat)
    ensures Hits([r] + rs, w) == (if In(r, w) then 1 else 0) + Hits(rs, w)
  {
    assert ([r] + rs)[1..] == rs;
  }

  lemma {:induction false} HitsIn(rs: seq<Range>, w: nat)
    ensures Hits(rs, w) > 0 <==> InRanges(rs, w)
    decreases |rs|
  {
    if rs != [] {
      HitsIn(rs[1..], w);
      if r :| r in rs && In(r, w) {
        assert r == rs[0] || r in rs[1..];
      }
      assert rs[0] in rs;
      if Hits(rs[1..], w) > 0 {
        var r :| r in rs[1..] && In(r, w);
        assert r in rs;
      }
    }
  }

  lemma WaitingCounts(todo: Agenda, w: nat)
    requires todo.Ok() && todo.Waiting(w)
    ensures todo.Times(w) > 0
  {
    HitsIn(todo.queues[MetaPair], w);
    HitsIn(todo.queues[MetaPtrs], w);
    HitsIn(todo.work, w);
  }

  /** A word that no stretch and no meta page holds. */
  lemma NotCounted(todo: Agenda, w: nat)
    requires todo.Ok() && !InMeta(todo.meta[MetaPair], w) && !InMeta(todo.meta[MetaPtrs], w)
    requires forall id, r {:trigger r in todo.queues[id]} :: r in todo.queues[id] ==> !In(r, w)
    requires forall r {:trigger r in todo.work} :: r in todo.work ==> !In(r, w)
    ensures todo.Times(w) == 0
  {
    HitsIn(todo.queues[MetaPair], w);
    HitsIn(todo.queues[MetaPtrs], w);
    HitsIn(todo.work, w);
  }

  lemma RangeMisses(h0: Heap, cg: nat, segs: seq<Seg>, src: map<nat, nat>, meta: map<MetaId, Meta>, i: MetaId, r: Range, id: MetaId, w: nat)
    requires HasIds(meta) && RangeOk(h0, cg, segs, src, meta, i, r) && Free(meta, id, w)
    ensures !In(r, w)
  {
  }

  /** Free words are not queued. */
  lemma FreeNotCounted(h0: Heap, cg: nat, segs: seq<Seg>, src: map<nat, nat>, todo: Agenda, id: MetaId, w: nat)
    requires todo.Ok() && MetasOk(h0, cg, segs, todo.meta) && RangesOk(h0, cg, segs, src, todo)
    requires Free(todo.meta, id, w)
    ensures todo.Times(w) == 0
  {
    hide PagesAre, RangeOk, Hits;
    forall i ensures !InMeta(todo.meta[i], w) {
      assert MetaOk(h0, cg, segs, i, todo.meta[i]) && MetaOk(h0, cg, segs, id, todo.meta[id]);
    }
    forall i, r | r in todo.queues[i] ensures !In(r, w) { RangeMisses(h0, cg, segs, src, todo.meta, i, r, id, w); }
    forall r | r in todo.work ensures !In(r, w) { RangeMisses(h0, cg, segs, src, todo.meta, todo.workId, r, id, w); }
    NotCounted(todo, w);
  }

  /** Words of objects not reached are not queued. */
  lemma WhiteNotCounted(h0: Heap, cg: nat, segs: seq<Seg>, fwd: map<nat, nat>, src: map<nat, nat>, todo: Agenda, a: nat, w: nat)
    requires todo.Ok() && MetasOk(h0, cg, segs, todo.meta) && RangesOk(h0, cg, segs, src, todo) && ObjectsWhole(h0, cg, segs)
    requires White(h0, cg, segs, fwd, a) && a <= w < a + UsedOf(h0, a) && w < |h0.mem|
    ensures todo.Times(w) == 0
  {
    assert !Older(cg, segs, w);
    forall i ensures !InMeta(todo.meta[i], w) { assert MetaOk(h0, cg, segs, i, todo.meta[i]); }
    forall i, r | r in todo.queues[i] ensures !In(r, w) { assert RangeOk(h0, cg, segs, src, todo.meta, i, r); }
    forall r | r in todo.work ensures !In(r, w) { assert RangeOk(h0, cg, segs, src, todo.meta, todo.workId, r); }
    NotCounted(todo, w);
  }

  /** A meta page that begins after all the survivors. */
  lemma MetaDone(s: St, t: St, id: MetaId, m: Meta)
    requires s.todo.Ok() && t.todo == s.todo.(meta := s.todo.meta[id := m])
    requires forall w {:trigger w in s.src} :: w in s.src ==> w < m.aq
    ensures DoneStays(s, t)
  {
  }

  // ---------- A stretch that is queued with the pointers ----------

  function Pushed(todo: Agenda, r: Range): Agenda
    requires todo.Ok()
  {
    todo.(queues := todo.queues[MetaPtrs := [r] + todo.queues[MetaPtrs]])
  }

  lemma PushOnce(todo: Agenda, r: Range)
    requires todo.Ok() && todo.Once()
    requires forall w: nat {:trigger todo.Times(w)} :: In(r, w) ==> todo.Times(w) == 0
    ensures Pushed(todo, r).Once()
  {
    forall w: nat ensures Pushed(todo, r).Times(w) <= 1 {
      assert todo.Times(w) <= 1;
      HitsPush(r, todo.queues[MetaPtrs], w);
    }
  }

  lemma PushWaits(todo: Agenda, r: Range, w: nat)
    requires todo.Ok() && Pushed(todo, r).Waiting(w)
    ensures todo.Waiting(w) || In(r, w)
  {
    var rs := todo.queues[MetaPtrs];
    if InRanges([r] + rs, w) {
      var x :| x in [r] + rs && In(x, w);
      assert x == r || x in rs;
    }
  }

  lemma PushDone(s: St, t: St, r: Range)
    requires s.todo.Ok() && t.todo == Pushed(s.todo, r)
    requires forall w {:trigger w in s.src} :: w in s.src ==> !In(r, w)
    ensures DoneStays(s, t)
  {
    forall w | w in s.src && t.todo.Waiting(w) ensures s.todo.Waiting(w) { PushWaits(s.todo, r, w); }
  }
}
