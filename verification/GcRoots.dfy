/** The roots other than dirty pages: the stack, the next continuation, the symbol table, locatives and so on. */
module GcRoots {
  import opened Memory
  import opened GcState
  import opened GcSteps
  import opened GcReach
  import opened GcGather
  import opened GcLoop
  import opened Collector

  /** The roots refer to objects of the heap. */
  ghost predicate RootsOk(h: Heap, roots: seq<Word>) {
    forall i {:trigger roots[i]} :: 0 <= i < |roots| ==> GoodWord(h.objs, roots[i])
  }

  ghost predicate RootsGood(h0: Heap, cg: nat, keep: set<nat>, roots: seq<Word>) {
    forall i {:trigger roots[i]} :: 0 <= i < |roots| ==> GoodWord(h0.objs, roots[i]) && Wanted(h0, cg, keep, roots[i])
  }

  /** The first n roots have been replaced by their images. */
  ghost predicate RootsDone(cg: nat, s: St, before: seq<Word>, now: seq<Word>, n: nat) {
    && |now| == |before| && n <= |now|
    && (forall i {:trigger now[i]} :: 0 <= i < |now| ==> if i < n then IsImage(cg, s.segs, s.fwd, before[i], now[i]) else now[i] == before[i])
  }

  lemma RootsKept(h0: Heap, cg: nat, s: St, t: St, before: seq<Word>, now: seq<Word>, n: nat)
    requires Inv(h0, cg, t) && Onward(cg, s, t) && RootsDone(cg, s, before, now, n)
    ensures RootsDone(cg, t, before, now, n)
  {
    forall i {:trigger now[i]} | 0 <= i < n ensures IsImage(cg, t.segs, t.fwd, before[i], now[i]) {
      ImageKept(h0, cg, s, t, before[i], now[i]);
    }
  }

  method ScanRoots(gc: Gc)
    requires gc.Good() && RootsGood(gc.h0, gc.collectGen, gc.keep, gc.roots)
    modifies gc`mem, gc`segs, gc`dirty, gc`meta, gc`queues, gc`fwd, gc`src, gc`raw, gc`roots
    ensures gc.Good() && Onward(gc.collectGen, old(gc.Now()), gc.Now()) && Grown(old(gc.dirty), gc.dirty)
    ensures gc.raw == old(gc.raw) && gc.work == old(gc.work)
    ensures RootsDone(gc.collectGen, gc.Now(), old(gc.roots), gc.roots, |gc.roots|)
  {
    hide Inv, Closed, KeptOk, Grown, Onward, Later, IsImage;
    ghost var s0 := gc.Now();
    GrownRefl(gc.dirty);
    OnwardRefl(gc.collectGen, s0);
    var i := 0;
    while i < |gc.roots|
      invariant gc.Good() && Onward(gc.collectGen, s0, gc.Now()) && Grown(old(gc.dirty), gc.dirty)
      invariant gc.raw == old(gc.raw) && gc.work == old(gc.work)
      invariant RootsDone(gc.collectGen, gc.Now(), old(gc.roots), gc.roots, i)
    {
      ghost var s, d, r := gc.Now(), gc.dirty, gc.roots;
      var x := gc.roots[i];
      assert x == old(gc.roots)[i];
      var y := gc.Gather(x);
      GrownTrans(old(gc.dirty), d, gc.dirty);
      LaterOnward(gc.collectGen, s, gc.Now());
      OnwardTrans(gc.collectGen, s0, s, gc.Now());
      RootsKept(gc.h0, gc.collectGen, s, gc.Now(), old(gc.roots), r, i);
      gc.roots := gc.roots[i := y];
      i := i + 1;
    }
  }
}
