/** Only objects that can be reached are kept: the survivors stay within every set of objects
    that contains the targets of the roots and is closed under strong references. */
module GcReach {
  import opened Memory
  import opened GcState
  import opened GcSteps
  import opened GcMoves

  /** If v refers to an object that is being collected, the object is in keep. */
  predicate Wanted(h0: Heap, cg: nat, keep: set<nat>, v: Word) {
    v.Ptr? && v.addr in h0.objs && !Older(cg, h0.segs, v.addr) ==> v.addr in keep
  }

  /** The car of a weak pair is the only slot that does not keep its target alive. */
  predicate WeakSlot(h0: Heap, a: nat, w: nat) {
    w == a && a < 512 * |h0.segs| && SegOf(h0.segs, a).typ == WeakPairs
  }

  ghost predicate Closed(h0: Heap, cg: nat, keep: set<nat>) {
    forall a, w {:trigger a in keep, h0.mem[w]} ::
      0 <= a <= w < |h0.mem| && a in keep && w < a + UsedOf(h0, a) && !WeakSlot(h0, a, w) ==> Wanted(h0, cg, keep, h0.mem[w])
  }

  ghost predicate KeptOk(h0: Heap, cg: nat, segs: seq<Seg>, fwd: map<nat, nat>, src: map<nat, nat>, keep: set<nat>) {
    && (forall a {:trigger a in fwd} :: a in fwd ==> a in keep)
    && (forall a {:trigger a in h0.objs} :: 0 <= a && a in h0.objs && Older(cg, segs, a) && !Older(cg, h0.segs, a) ==> a in keep)
    && (forall w {:trigger w in src} :: w in src && src[w] < |h0.mem| && !WeakCar(|h0.mem|, segs, w) ==> Wanted(h0, cg, keep, h0.mem[src[w]]))
  }

  lemma MoveKept(h0: Heap, cg: nat, segs: seq<Seg>, fwd: map<nat, nat>, src: map<nat, nat>, keep: set<nat>, a: nat, b: nat, n: nat)
    requires Closed(h0, cg, keep) && KeptOk(h0, cg, segs, fwd, src, keep)
    requires a in keep && a in h0.objs && n <= UsedOf(h0, a)
    requires WeakSlot(h0, a, a) ==> WeakCar(|h0.mem|, segs, b)
    ensures KeptOk(h0, cg, segs, fwd[a := b], src + Trace(a, b, n), keep)
  {
    var src' := src + Trace(a, b, n);
    forall w | w in src' && src'[w] < |h0.mem| && !WeakCar(|h0.mem|, segs, w) ensures Wanted(h0, cg, keep, h0.mem[src'[w]]) {
      if w in Trace(a, b, n) { assert src'[w] == a + (w - b); }
    }
  }

  lemma FillKept(h0: Heap, cg: nat, segs: seq<Seg>, fwd: map<nat, nat>, src: map<nat, nat>, keep: set<nat>, c: nat, w: nat)
    requires Closed(h0, cg, keep) && KeptOk(h0, cg, segs, fwd, src, keep)
    requires c in keep && UsedOf(h0, c) == 2
    ensures KeptOk(h0, cg, segs, fwd, src[w := c + 1], keep)
  {
  }

  /** More pages and nothing else. */
  lemma ExtendsKept(h0: Heap, cg: nat, segs: seq<Seg>, segs': seq<Seg>, fwd: map<nat, nat>, src: map<nat, nat>, raw: set<nat>, keep: set<nat>)
    requires WellFormed(h0) && |h0.mem| <= 512 * |segs| && Extends(segs, segs')
    requires SourcesOk(h0, cg, segs, src, raw)
    requires KeptOk(h0, cg, segs, fwd, src, keep)
    ensures KeptOk(h0, cg, segs', fwd, src, keep)
  {
    forall a | a in h0.objs && Older(cg, segs', a) ensures Older(cg, segs, a) { assert ObjectOk(h0, a); }
    forall w | w in src ensures WeakCar(|h0.mem|, segs', w) == WeakCar(|h0.mem|, segs, w) { assert Older(cg, segs, w); }
  }

  lemma PromoteKept(h0: Heap, cg: nat, s: St, keep: set<nat>, a: nat, n: nat)
    requires WellFormed(h0) && s.todo.Ok() && |h0.mem| <= |s.mem| == 512 * |s.segs|
    requires a in h0.objs && a < |h0.mem| && n == UsedOf(h0, a) && 0 < n && a + n <= |h0.mem| && SegOf(h0.segs, a).large && a in keep
    requires PromotesTo(h0, cg, s.segs, Promote(cg, s, a, n).segs, a, n)
    requires SourcesOk(h0, cg, s.segs, s.src, s.raw)
    requires Closed(h0, cg, keep) && KeptOk(h0, cg, s.segs, s.fwd, s.src, keep)
    ensures KeptOk(h0, cg, Promote(cg, s, a, n).segs, s.fwd, Promote(cg, s, a, n).src, keep)
  {
    var t := Promote(cg, s, a, n);
    forall c | c in h0.objs && Older(cg, t.segs, c) && !Older(cg, h0.segs, c) ensures c in keep {
      assert ObjectOk(h0, c);
      if a / 512 <= c / 512 <= (a + n - 1) / 512 {
        LargeAlone(h0, a, c);
      } else {
        assert SegOf(t.segs, c) == SegOf(s.segs, c);
        assert Older(cg, s.segs, c);
      }
    }
    forall w | w in t.src && t.src[w] < |h0.mem| && !WeakCar(|h0.mem|, t.segs, w) ensures Wanted(h0, cg, keep, h0.mem[t.src[w]]) {
      if w in Trace(a, a, n) {
        assert t.src[w] == w;
        assert ObjectOk(h0, a);
        assert !WeakSlot(h0, a, w);
      } else {
        assert Older(cg, s.segs, w);
        assert w >= |h0.mem| ==> SegOf(t.segs, w) == SegOf(s.segs, w);
      }
    }
  }
}
