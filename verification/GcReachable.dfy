/** What a collection has to keep: the least set of objects that holds what the roots and the older pages refer to,
    the guardian entries whose tconcs are in it, and everything its members refer to strongly. */
module GcReachable {
  import opened Memory
  import opened GcState
  import opened GcSteps
  import opened GcMoves
  import opened GcReach
  import opened GcDirty
  import opened GcGather
  import opened GcLoop
  import opened GcWeak
  import opened GcRoots
  import opened GcGuardians
  import opened Collector

  /** A set of objects that may be kept without losing anything. */
  ghost predicate Enough(h0: Heap, cg: nat, keep: set<nat>, roots: seq<Word>, entries: seq<Word>)
    requires |h0.mem| == 512 * |h0.segs|
  {
    && Closed(h0, cg, keep) && PagesWanted(h0, cg, keep) && RootsGood(h0, cg, keep, roots) && EntriesWanted(h0, cg, keep, entries)
  }

  /** Object a is in every such set. */
  ghost predicate Needed(h0: Heap, cg: nat, roots: seq<Word>, entries: seq<Word>, a: nat)
    requires |h0.mem| == 512 * |h0.segs|
  {
    forall keep {:trigger Enough(h0, cg, keep, roots, entries)} :: Enough(h0, cg, keep, roots, entries) ==> a in keep
  }

  /** The objects of the collected generations that have to be kept. Without entries: those that the program can still
      reach; with the entries: these, and those that only guardians keep. */
  ghost function Reachable(h0: Heap, cg: nat, roots: seq<Word>, entries: seq<Word>): (r: set<nat>)
    requires |h0.mem| == 512 * |h0.segs|
    ensures forall a {:trigger a in r} :: a in r <==> a in h0.objs && !Older(cg, h0.segs, a) && Needed(h0, cg, roots, entries, a)
  {
    set a | a in h0.objs && !Older(cg, h0.segs, a) && Needed(h0, cg, roots, entries, a)
  }

  lemma ReachableLeast(h0: Heap, cg: nat, keep: set<nat>, roots: seq<Word>, entries: seq<Word>)
    requires |h0.mem| == 512 * |h0.segs| && Enough(h0, cg, keep, roots, entries)
    ensures Reachable(h0, cg, roots, entries) <= keep
  {
  }

  ghost predicate InAll(h0: Heap, cg: nat, roots: seq<Word>, entries: seq<Word>, v: Word)
    requires |h0.mem| == 512 * |h0.segs|
  {
    forall keep {:trigger Enough(h0, cg, keep, roots, entries)} :: Enough(h0, cg, keep, roots, entries) ==> Wanted(h0, cg, keep, v)
  }

  lemma InAllWanted(h0: Heap, cg: nat, roots: seq<Word>, entries: seq<Word>, v: Word)
    requires |h0.mem| == 512 * |h0.segs| && InAll(h0, cg, roots, entries, v)
    ensures Wanted(h0, cg, Reachable(h0, cg, roots, entries), v)
  {
    hide Enough;
  }

  /** The least set is itself enough. */
  lemma ReachableEnough(h0: Heap, cg: nat, roots: seq<Word>, entries: seq<Word>)
    requires |h0.mem| == 512 * |h0.segs| && EntriesOk(h0, entries)
    requires RootsOk(h0, roots)
    ensures Enough(h0, cg, Reachable(h0, cg, roots, entries), roots, entries)
  {
    hide Reachable, Wanted;
    var r := Reachable(h0, cg, roots, entries);
    forall a, w {:trigger a in r, h0.mem[w]} | 0 <= a <= w < |h0.mem| && a in r && w < a + UsedOf(h0, a) && !WeakSlot(h0, a, w)
      ensures Wanted(h0, cg, r, h0.mem[w])
    {
      assert InAll(h0, cg, roots, entries, h0.mem[w]);
      InAllWanted(h0, cg, roots, entries, h0.mem[w]);
    }
    forall w {:trigger h0.mem[w]} | 0 <= w < |h0.mem| && Older(cg, h0.segs, w) && Scannable(SegOf(h0.segs, w).typ)
      ensures Wanted(h0, cg, r, h0.mem[w])
    {
      assert InAll(h0, cg, roots, entries, h0.mem[w]);
      InAllWanted(h0, cg, roots, entries, h0.mem[w]);
    }
    forall i {:trigger roots[i]} | 0 <= i < |roots| ensures GoodWord(h0.objs, roots[i]) && Wanted(h0, cg, r, roots[i]) {
      assert InAll(h0, cg, roots, entries, roots[i]);
      InAllWanted(h0, cg, roots, entries, roots[i]);
    }
    forall p {:trigger p in entries} | p in entries && p.addr < |h0.mem| && TargetKept(h0, cg, r, h0.mem[p.addr]) ensures Wanted(h0, cg, r, p) {
      EntryInAll(h0, cg, roots, entries, p);
      InAllWanted(h0, cg, roots, entries, p);
    }
  }

  lemma EntryInAll(h0: Heap, cg: nat, roots: seq<Word>, entries: seq<Word>, p: Word)
    requires |h0.mem| == 512 * |h0.segs| && p in entries && p.Ptr? && p.addr < |h0.mem|
    requires TargetKept(h0, cg, Reachable(h0, cg, roots, entries), h0.mem[p.addr])
    ensures InAll(h0, cg, roots, entries, p)
  {
    forall keep | Enough(h0, cg, keep, roots, entries) ensures Wanted(h0, cg, keep, p) {
      ReachableLeast(h0, cg, keep, roots, entries);
      assert TargetKept(h0, cg, keep, h0.mem[p.addr]);
    }
  }

  /** Guardians only add to what is kept. */
  lemma ReachableGrows(h0: Heap, cg: nat, roots: seq<Word>, entries: seq<Word>)
    requires |h0.mem| == 512 * |h0.segs|
    ensures Reachable(h0, cg, roots, []) <= Reachable(h0, cg, roots, entries)
  {
    forall keep | Enough(h0, cg, keep, roots, entries) ensures Enough(h0, cg, keep, roots, []) {}
  }

  // ---------- The survivors are what can be reached ----------

  /** When tracing has come to an end, a word is live just when its target is among the survivors or older. */
  lemma LiveIsKept(h0: Heap, cg: nat, s: St, v: Word)
    requires AtRest(h0, cg, s) && GoodWord(h0.objs, v)
    ensures Live(cg, s.segs, s.fwd, v) <==> TargetKept(h0, cg, Survived(h0, cg, s), v)
  {
    hide Inv, AtRest;
    if v.Ptr? {
      RestInv(h0, cg, s);
      if v.addr in s.fwd { MovedYoung(h0, cg, s, v.addr); }
      if Older(cg, h0.segs, v.addr) { OlderStays(h0, cg, s, v.addr); }
    }
  }

  lemma RestInv(h0: Heap, cg: nat, s: St)
    requires AtRest(h0, cg, s)
    ensures Inv(h0, cg, s) && |h0.mem| == 512 * |h0.segs| && WellFormed(h0)
  {
    hide Inv;
    InvSizes(h0, cg, s);
  }

  /** Once the roots and the dirty pages are traced, the survivors are enough to keep, guardians apart. */
  lemma SurvivorsEnough(h0: Heap, cg: nat, s: St, dirty: seq<seq<bv4>>, before: seq<Word>, now: seq<Word>)
    requires AtRest(h0, cg, s) && |h0.mem| == 512 * |h0.segs| && Shaped(dirty) && PagesDone(h0, cg, s, dirty, |h0.segs|)
    requires RootsDone(cg, s, before, now, |now|) && RootsOk(h0, before)
    ensures Enough(h0, cg, Survived(h0, cg, s), before, [])
  {
    hide Inv, AtRest, PagesDone, Survived, Shaped;
    var keep := Survived(h0, cg, s);
    SurvivedClosed(h0, cg, s, {});
    assert keep + {} == keep;
    forall w {:trigger h0.mem[w]} | 0 <= w < |h0.mem| && Older(cg, h0.segs, w) && Scannable(SegOf(h0.segs, w).typ)
      ensures Wanted(h0, cg, keep, h0.mem[w])
    {
      PageWordDone(h0, cg, s, dirty, w);
      LiveIsWanted(h0, cg, s, keep, h0.mem[w]);
    }
    forall i {:trigger before[i]} | 0 <= i < |before| ensures Wanted(h0, cg, keep, before[i]) {
      assert now[i] == now[i];
      LiveIsWanted(h0, cg, s, keep, before[i]);
    }
  }

  /** The cells of the entries that are kept are live themselves; the tconcs of the others are not. */
  ghost predicate EntriesSettled(h0: Heap, cg: nat, s: St, entries: seq<Word>) {
    forall p {:trigger p in entries} :: p in entries ==> EntryOk(h0, p) && (EntryLive(h0, cg, s, p, 0) ==> Live(cg, s.segs, s.fwd, p))
  }

  lemma SettledWanted(h0: Heap, cg: nat, s: St, entries: seq<Word>)
    requires AtRest(h0, cg, s) && EntriesSettled(h0, cg, s, entries)
    ensures EntriesWanted(h0, cg, Survived(h0, cg, s), entries)
  {
    hide Inv, AtRest, Survived, TargetKept, WellFormed;
    RestInv(h0, cg, s);
    var keep := Survived(h0, cg, s);
    forall p {:trigger p in entries} | p in entries && p.addr < |h0.mem| && TargetKept(h0, cg, keep, h0.mem[p.addr]) ensures Wanted(h0, cg, keep, p) {
      PairGood(h0, p.addr, 0);
      LiveIsKept(h0, cg, s, h0.mem[p.addr]);
      LiveIsWanted(h0, cg, s, keep, p);
    }
  }

  /** What is kept is exactly what has to be kept. */
  lemma SurvivorsReachable(h0: Heap, cg: nat, s: St, dirty: seq<seq<bv4>>, before: seq<Word>, now: seq<Word>, entries: seq<Word>)
    requires AtRest(h0, cg, s) && |h0.mem| == 512 * |h0.segs| && Shaped(dirty) && PagesDone(h0, cg, s, dirty, |h0.segs|)
    requires RootsDone(cg, s, before, now, |now|) && RootsOk(h0, before)
    requires EntriesSettled(h0, cg, s, entries) && KeptOk(h0, cg, s.segs, s.fwd, s.src, Reachable(h0, cg, before, entries))
    ensures Survived(h0, cg, s) == Reachable(h0, cg, before, entries)
  {
    hide Inv, AtRest, PagesDone, Survived, Shaped, Reachable, EntriesSettled;
    var keep := Survived(h0, cg, s);
    SurvivorsEnough(h0, cg, s, dirty, before, now);
    SettledWanted(h0, cg, s, entries);
    ReachableLeast(h0, cg, keep, before, entries);
  }
}
