/** One turn of the scan loop: the reference found in a word is gathered and the word gets its image. */
module GcLoop {
  import opened Memory
  import opened GcState
  import opened GcOnce
  import opened GcSteps
  import opened GcMoves
  import opened GcAlloc
  import opened GcReach
  import opened GcGather
  import opened GcScan

  lemma OnwardTrans(cg: nat, s: St, t: St, u: St)
    requires Onward(cg, s, t) && Onward(cg, t, u)
    ensures Onward(cg, s, u)
  {
    forall p {:trigger u.segs[p]} | 0 <= p < |s.segs| ensures u.segs[p] == s.segs[p] || (s.segs[p].gen <= cg < u.segs[p].gen) {
      assert t.segs[p] == t.segs[p];
    }
  }

  lemma LaterOnward(cg: nat, s: St, t: St)
    requires Later(cg, s, t)
    ensures Onward(cg, s, t)
  {
  }

  lemma OnwardRefl(cg: nat, s: St)
    ensures Onward(cg, s, s)
  {
  }

  /** From s to t nothing has been moved, promoted or queued. */
  predicate Quiet(s: St, t: St) {
    t.fwd == s.fwd && t.segs == s.segs && t.src == s.src && t.todo.meta == s.todo.meta && t.todo.queues == s.todo.queues
  }

  ghost predicate Progress(h0: Heap, cg: nat, s: St, t: St) {
    && Onward(cg, s, t)
    && t.raw == s.raw
    && (Quiet(s, t) || Whites(h0, cg, t.segs, t.fwd) < Whites(h0, cg, s.segs, s.fwd))
  }

  /** From s to t some words have been scanned. */
  ghost predicate Turn(h0: Heap, cg: nat, s: St, t: St) {
    && Onward(cg, s, t)
    && ((t.fwd == s.fwd && t.segs == s.segs && t.src == s.src) || Whites(h0, cg, t.segs, t.fwd) < Whites(h0, cg, s.segs, s.fwd))
  }

  lemma TurnTrans(h0: Heap, cg: nat, s: St, t: St, u: St)
    requires Turn(h0, cg, s, t) && Turn(h0, cg, t, u)
    ensures Turn(h0, cg, s, u)
  {
    hide Onward;
    OnwardTrans(cg, s, t, u);
  }

  lemma TurnRefl(h0: Heap, cg: nat, s: St)
    ensures Turn(h0, cg, s, s)
  {
  }

  lemma ProgressRefl(h0: Heap, cg: nat, s: St)
    ensures Progress(h0, cg, s, s)
  {
  }

  lemma ProgressTrans(h0: Heap, cg: nat, s: St, t: St, u: St)
    requires Progress(h0, cg, s, t) && Progress(h0, cg, t, u)
    ensures Progress(h0, cg, s, u)
  {
    hide Onward;
    OnwardTrans(cg, s, t, u);
  }

  /** What a survivor holds can be gathered. */
  lemma SurvivorKnown(h0: Heap, cg: nat, keep: set<nat>, s: St, w: nat)
    requires Inv(h0, cg, s) && KeptOk(h0, cg, s.segs, s.fwd, s.src, keep)
    requires w in s.src && !WeakCar(|h0.mem|, s.segs, w)
    ensures w < |s.mem| && Known(h0, s.fwd, s.mem[w]) && Wanted(h0, cg, keep, s.mem[w])
  {
    var v := h0.mem[s.src[w]];
    assert GoodWord(h0.objs, v);
    if s.mem[w] != v {
      assert IsImage(cg, s.segs, s.fwd, v, s.mem[w]);
      CopyNotObject(h0, cg, s.segs, s.fwd, v.addr);
    }
  }

  lemma CopyNotObject(h0: Heap, cg: nat, segs: seq<Seg>, fwd: map<nat, nat>, a: nat)
    requires WellFormed(h0) && PlacesOk(h0, cg, segs, fwd) && a in fwd
    ensures a in h0.objs && fwd[a] !in h0.objs
  {
    assert PlaceOk(h0, cg, segs, a, fwd[a]);
    forall x | x in h0.objs ensures x < |h0.mem| { assert ObjectOk(h0, x); }
  }

  /** The word being scanned can be gathered. */
  lemma WorkKnown(h0: Heap, cg: nat, keep: set<nat>, s: St, w: nat)
    requires Inv(h0, cg, s) && KeptOk(h0, cg, s.segs, s.fwd, s.src, keep) && s.raw == {}
    requires |s.todo.work| > 0 && s.todo.work[0].p == w < s.todo.work[0].q
    ensures w < s.todo.work[0].q <= |s.mem| && Older(cg, s.segs, w)
    ensures s.todo.workId == MetaPair ==> w % 2 == 0
    ensures w in s.src || s.mem[w].Imm?
    ensures Known(h0, s.fwd, s.mem[w]) && Wanted(h0, cg, keep, s.mem[w])
  {
    ScannedWord(h0, cg, s, w);
    assert s.todo.work[0] in s.todo.work;
    assert RangeOk(h0, cg, s.segs, s.src, s.todo.meta, s.todo.workId, s.todo.work[0]);
    if w in s.src { SurvivorKnown(h0, cg, keep, s, w); }
  }

  /** The image of what a survivor held before gathering is the image of the word it comes from. */
  lemma ScansSurvivor(h0: Heap, cg: nat, s: St, t: St, w: nat, u: Word)
    requires Inv(h0, cg, s) && Inv(h0, cg, t) && Later(cg, s, t) && w in s.src && w < |s.mem|
    requires IsImage(cg, t.segs, t.fwd, s.mem[w], u)
    ensures w in t.src && t.src[w] < |h0.mem| && IsImage(cg, t.segs, t.fwd, h0.mem[t.src[w]], u)
  {
    var v := h0.mem[s.src[w]];
    if s.mem[w] != v {
      assert IsImage(cg, s.segs, s.fwd, v, s.mem[w]);
      LaterOnward(cg, s, t);
      ImageKept(h0, cg, s, t, v, s.mem[w]);
      ImageOfImage(h0, cg, t, v, s.mem[w], u);
    }
  }

  /** An immediate value is scanned without any effect. */
  lemma ScansImm(h0: Heap, cg: nat, s: St, w: nat)
    requires Inv(h0, cg, s) && |s.todo.work| > 0 && s.todo.work[0].p == w < |s.mem| && s.mem[w].Imm?
    ensures Scans(h0, cg, s, s.mem[w])
  {
    assert w in s.src ==> s.src[w] < |h0.mem|;
  }

  lemma GatheredScans(h0: Heap, cg: nat, s: St, t: St, w: nat, u: Word)
    requires Inv(h0, cg, s) && Gathered(h0, cg, s, t) && |s.todo.work| > 0 && s.todo.work[0].p == w < |s.mem|
    requires w in s.src || s.mem[w].Imm?
    requires IsImage(cg, t.segs, t.fwd, s.mem[w], u)
    requires s.mem[w].Imm? ==> t == s && u == s.mem[w]
    ensures |t.todo.work| > 0 && t.todo.work[0].p == w < |t.mem| && Scans(h0, cg, t, u)
  {
    hide Inv;
    if s.mem[w].Imm? {
      ScansImm(h0, cg, s, w);
    } else {
      ScansSurvivor(h0, cg, s, t, w, u);
    }
  }

  lemma GatheredWork(h0: Heap, cg: nat, s: St, t: St)
    requires Gathered(h0, cg, s, t)
    ensures t.todo.work == s.todo.work && t.todo.workId == s.todo.workId && t.raw == s.raw
  {
    hide Inv, Later;
  }

  /** One word has been gathered and set. */
  lemma ScanProgress(h0: Heap, cg: nat, keep: set<nat>, s: St, t: St, w: nat, u: Word)
    requires Inv(h0, cg, s) && Gathered(h0, cg, s, t) && s.raw == {}
    requires |s.todo.work| > 0 && s.todo.work[0].p == w < s.todo.work[0].q && w < |s.mem|
    requires KeptOk(h0, cg, t.segs, t.fwd, t.src, keep)
    requires w in s.src || s.mem[w].Imm?
    requires IsImage(cg, t.segs, t.fwd, s.mem[w], u)
    requires s.mem[w].Imm? ==> t == s && u == s.mem[w]
    ensures |t.todo.work| > 0 && t.todo.work[0].p < |t.mem|
    ensures Inv(h0, cg, ScanWord(t, u)) && Progress(h0, cg, s, ScanWord(t, u))
  {
    hide Inv, Later, Scans, KeptOk;
    GatheredScans(h0, cg, s, t, w, u);
    WorkKnown(h0, cg, keep, t, w);
    ScanKeepsInv(h0, cg, t, u);
    LaterOnward(cg, s, t);
    ScanOnward(h0, cg, t, u);
    OnwardTrans(cg, s, t, ScanWord(t, u));
  }

  lemma ScanOnward(h0: Heap, cg: nat, t: St, u: Word)
    requires Inv(h0, cg, t) && |t.todo.work| > 0 && t.todo.work[0].p < |t.mem|
    ensures Onward(cg, t, ScanWord(t, u))
  {
    hide Inv;
    InvAgenda(h0, cg, t);
    ScanDone(t, u);
  }

  lemma InvAgenda(h0: Heap, cg: nat, t: St)
    requires Inv(h0, cg, t)
    ensures t.todo.Ok() && t.todo.Once()
  {
  }

  /** A word that is scanned is scanned for the only time: it was queued once, and is not queued any more. What is
      done stays done in all that follows. */
  lemma ScannedOnce(h0: Heap, cg: nat, s: St, u: Word)
    requires Inv(h0, cg, s) && |s.todo.work| > 0 && s.todo.work[0].p < s.todo.work[0].q && s.todo.work[0].p < |s.mem|
    ensures s.todo.Times(s.todo.work[0].p) == 1
    ensures ScanWord(s, u).todo.Ok() && !ScanWord(s, u).todo.Waiting(s.todo.work[0].p)
    ensures forall t: St {:trigger Onward(cg, ScanWord(s, u), t)} :: s.todo.work[0].p in s.src && Onward(cg, ScanWord(s, u), t) ==>
              t.todo.Ok() && !t.todo.Waiting(s.todo.work[0].p)
  {
    hide Inv;
    InvAgenda(h0, cg, s);
    var p, n := s.todo.work[0].p, ScanWord(s, u);
    ScanOnce(s, u);
    if n.todo.Waiting(p) { WaitingCounts(n.todo, p); }
    assert p in s.src ==> p in n.src;
  }

  lemma ProgressTurn(h0: Heap, cg: nat, s: St, t: St)
    requires Progress(h0, cg, s, t)
    ensures Turn(h0, cg, s, t)
    ensures || Whites(h0, cg, t.segs, t.fwd) < Whites(h0, cg, s.segs, s.fwd)
            || (Whites(h0, cg, t.segs, t.fwd) == Whites(h0, cg, s.segs, s.fwd) && t.todo.meta == s.todo.meta && t.todo.queues == s.todo.queues)
  {
  }

  lemma DropProgress(h0: Heap, cg: nat, s: St)
    requires Inv(h0, cg, s) && |s.todo.work| > 0 && s.todo.work[0].p >= s.todo.work[0].q
    ensures Inv(h0, cg, s.(todo := Drop(s.todo))) && Progress(h0, cg, s, s.(todo := Drop(s.todo)))
  {
    hide Inv;
    InvAgenda(h0, cg, s);
    DropKeepsInv(h0, cg, s);
    DropOnce(s.todo);
  }

  lemma TakeQueueTurn(h0: Heap, cg: nat, s: St, id: MetaId)
    requires Inv(h0, cg, s) && s.todo.work == [] && Queued(id)
    ensures Inv(h0, cg, s.(todo := TakeQueue(s.todo, id))) && Turn(h0, cg, s, s.(todo := TakeQueue(s.todo, id)))
  {
    hide Inv;
    InvAgenda(h0, cg, s);
    TakeQueueKeepsInv(h0, cg, s, id);
    TakeQueueOnce(s.todo, id);
  }

  lemma TakeMetaTurn(h0: Heap, cg: nat, s: St, id: MetaId)
    requires Inv(h0, cg, s) && s.todo.work == [] && Queued(id)
    ensures Inv(h0, cg, s.(todo := TakeMeta(s.todo, id))) && Turn(h0, cg, s, s.(todo := TakeMeta(s.todo, id)))
  {
    hide Inv;
    InvAgenda(h0, cg, s);
    TakeMetaKeepsInv(h0, cg, s, id);
    TakeMetaOnce(s.todo, id);
  }

  /** Nothing is queued, and no meta page has words that have not been scanned. */
  predicate Idle(meta: map<MetaId, Meta>, queues: map<MetaId, seq<Range>>)
    requires HasIds(meta) && HasIds(queues)
  {
    && queues[MetaPair] == [] && queues[MetaPtrs] == []
    && meta[MetaPair].aq >= meta[MetaPair].ap && meta[MetaPtrs].aq >= meta[MetaPtrs].ap
  }

  // ---------- Clearing the free tails of the meta pages ----------

  function Wiped(s: St, id: MetaId): St
    requires s.todo.Ok() && s.todo.meta[id].ap <= s.todo.meta[id].ep <= |s.mem|
  {
    s.(mem := Zeroed(s.mem, s.todo.meta[id].ap, s.todo.meta[id].ep))
  }

  ghost predicate TailClear(mem: seq<Word>, m: Meta) {
    forall w {:trigger mem[w]} :: m.ap <= w < m.ep && w < |mem| ==> mem[w] == Imm(0)
  }

  ghost predicate TailsClear(mem: seq<Word>, meta: map<MetaId, Meta>)
    requires HasIds(meta)
  {
    forall id {:trigger meta[id]} :: TailClear(mem, meta[id])
  }

  lemma MemTurn(h0: Heap, cg: nat, s: St, mem': seq<Word>)
    requires |mem'| == |s.mem|
    ensures Turn(h0, cg, s, s.(mem := mem'))
  {
  }

  lemma ClearColours(h0: Heap, cg: nat, s: St, id: MetaId)
    requires s.todo.Ok() && |s.mem| == 512 * |s.segs|
    requires MetasOk(h0, cg, s.segs, s.todo.meta) && PlacesOk(h0, cg, s.segs, s.fwd)
    requires FreeOk(h0, s.fwd, s.src, s.raw, s.todo.meta)
    requires ColoursOk(h0, cg, s.mem, s.segs, s.fwd, s.src, s.todo)
    requires s.todo.meta[id].ap <= s.todo.meta[id].ep <= |s.mem|
    ensures ColoursOk(h0, cg, Wiped(s, id).mem, s.segs, s.fwd, s.src, s.todo)
  {
    forall w | w in s.src ensures Wiped(s, id).mem[w] == s.mem[w] {
      if s.todo.meta[id].ap <= w < s.todo.meta[id].ep { FreeWords(h0, cg, s, id, w); }
    }
  }

  lemma ClearNewPages(h0: Heap, s: St, id: MetaId)
    requires s.todo.Ok() && |s.mem| == 512 * |s.segs|
    requires NewPagesOk(h0, s.mem, s.segs, s.src, s.raw, s.todo.meta)
    requires s.todo.meta[id].ap <= s.todo.meta[id].ep <= |s.mem|
    ensures NewPagesOk(h0, Wiped(s, id).mem, s.segs, s.src, s.raw, s.todo.meta)
  {
    var mem' := Wiped(s, id).mem;
    forall w {:trigger mem'[w]} | |h0.mem| <= w < |mem'| && Scannable(SegOf(s.segs, w).typ)
      ensures w in s.src || mem'[w].Imm? || w in s.raw || FreeWord(s.todo.meta, w)
    {
      assert w in s.src || s.mem[w].Imm? || w in s.raw || FreeWord(s.todo.meta, w);
    }
  }

  lemma ClearOldPart(h0: Heap, cg: nat, s: St, id: MetaId)
    requires WellFormed(h0) && s.todo.Ok() && |h0.mem| <= |s.mem|
    requires MetasOk(h0, cg, s.segs, s.todo.meta) && PlacesOk(h0, cg, s.segs, s.fwd)
    requires FreeOk(h0, s.fwd, s.src, s.raw, s.todo.meta)
    requires s.todo.meta[id].ap <= s.todo.meta[id].ep <= |s.mem|
    requires MarksOk(h0, s.mem, s.fwd) && WhiteIntact(h0, cg, s.mem, s.segs, s.fwd) && OldIntact(h0, cg, s.mem, s.src)
    ensures MarksOk(h0, Wiped(s, id).mem, s.fwd) && WhiteIntact(h0, cg, Wiped(s, id).mem, s.segs, s.fwd)
    ensures OldIntact(h0, cg, Wiped(s, id).mem, s.src)
  {
    var mem' := Wiped(s, id).mem;
    forall w {:trigger mem'[w]} | 0 <= w < |h0.mem| ensures mem'[w] == s.mem[w] {
      if s.todo.meta[id].ap <= w < s.todo.meta[id].ep { FreeWords(h0, cg, s, id, w); }
    }
    OldPartKept(h0, cg, s.mem, mem', s.segs, s.fwd);
    OldIntactKept(h0, cg, s.mem, mem', s.src, s.src);
  }

  lemma ClearKeepsInv(h0: Heap, cg: nat, s: St, id: MetaId)
    requires Inv(h0, cg, s) && s.todo.meta[id].ap <= s.todo.meta[id].ep <= |s.mem|
    ensures Inv(h0, cg, Wiped(s, id))
  {
    ClearColours(h0, cg, s, id);
    ClearNewPages(h0, s, id);
    ClearOldPart(h0, cg, s, id);
    InvFromParts(h0, cg, s, Wiped(s, id));
  }
}
