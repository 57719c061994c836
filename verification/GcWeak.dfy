/** After tracing: the cars of the weak pairs that have been kept. */
module GcWeak {
  import opened Memory
  import opened GcState
  import opened GcSteps
  import opened GcMoves
  import opened GcReach
  import opened GcGather
  import opened GcLoop
  import opened GcDirty
  import opened Collector

  /** What the car of a weak pair becomes: the copy if the object was kept, the broken weak pointer if it
      was not, the same as before otherwise. */
  ghost predicate IsWeakImage(cg: nat, segs: seq<Seg>, fwd: map<nat, nat>, v: Word, u: Word) {
    match v
    case Imm(_) => u == v
    case Ptr(k, a) => u == if a in fwd then Ptr(k, fwd[a]) else if Older(cg, segs, a) then v else BWP_OBJECT
    case Fwd => false
  }

  /** The cars of weak pairs below n are fixed, everything else is as it was when tracing ended. */
  ghost predicate WeakFixed(h0: Heap, cg: nat, s: St, mem: seq<Word>, n: nat) {
    && |mem| == |s.mem|
    && (forall w {:trigger mem[w]} :: 0 <= w < |mem| ==>
          if w < n && WeakCar(|h0.mem|, s.segs, w) && w in s.src
          then s.src[w] < |h0.mem| && IsWeakImage(cg, s.segs, s.fwd, h0.mem[s.src[w]], mem[w])
          else mem[w] == s.mem[w])
  }

  /** Nothing is left to scan and the free tails hold zeros. */
  ghost predicate Traced(h0: Heap, cg: nat, s: St) {
    Inv(h0, cg, s) && s.raw == {} && s.todo.work == [] && Idle(s.todo.meta, s.todo.queues) && TailsClear(s.mem, s.todo.meta)
  }

  lemma WeakCarKnown(h0: Heap, cg: nat, s: St, w: nat)
    requires Traced(h0, cg, s) && WeakCar(|h0.mem|, s.segs, w)
    ensures w < |s.mem| && (w in s.src || s.mem[w].Imm?)
    ensures w in s.src ==> s.src[w] < |h0.mem| && Known(h0, s.fwd, s.mem[w])
    ensures w in s.src ==> IsImage(cg, s.segs, s.fwd, h0.mem[s.src[w]], s.mem[w]) || s.mem[w] == h0.mem[s.src[w]]
  {
    assert w in s.src || s.mem[w].Imm? || FreeWord(s.todo.meta, w);
    if FreeWord(s.todo.meta, w) {
      var id :| Free(s.todo.meta, id, w);
      assert TailClear(s.mem, s.todo.meta[id]);
    }
    if w in s.src {
      var v := h0.mem[s.src[w]];
      assert GoodWord(h0.objs, v);
      if s.mem[w] != v && v.Ptr? && v.addr in s.fwd { CopyNotObject(h0, cg, s.segs, s.fwd, v.addr); }
    }
  }

  /** Looking at the first word of an object gives the same answer while weak pairs are being fixed. */
  lemma SameFirstWord(h0: Heap, cg: nat, s: St, mem: seq<Word>, n: nat, k: Kind, a: nat)
    requires Traced(h0, cg, s) && WeakFixed(h0, cg, s, mem, n) && Known(h0, s.fwd, Ptr(k, a))
    ensures a + 1 < |mem| == |s.mem| && a / 512 < |s.segs|
    ensures mem[a] == Fwd <==> a in s.fwd
    ensures a in s.fwd ==> mem[a + 1] == Ptr(k, s.fwd[a])
  {
    hide Inv, Known;
    FirstWord(h0, cg, s, k, a);
    MovedOld(h0, cg, s);
    if a in s.src { NotFwd(h0, cg, s, a); }
    assert mem[a] == s.mem[a] || (WeakCar(|h0.mem|, s.segs, a) && mem[a] != Fwd);
  }

  lemma NotFwd(h0: Heap, cg: nat, s: St, a: nat)
    requires Inv(h0, cg, s) && a in s.src
    ensures a < |s.mem| && s.mem[a] != Fwd
  {
    SurvivorNotFwd(h0, cg, s, a);
  }

  lemma MovedOld(h0: Heap, cg: nat, s: St)
    requires Inv(h0, cg, s)
    ensures forall a {:trigger a in s.fwd} :: a in s.fwd ==> a + 1 < |h0.mem|
  {
    forall a | a in s.fwd ensures a + 1 < |h0.mem| { assert PlaceOk(h0, cg, s.segs, a, s.fwd[a]); }
  }

  /** The word to store in the car of a weak pair that now holds x. */
  function FixedCar(cg: nat, segs: seq<Seg>, mem: seq<Word>, x: Word): Word
    requires x.Ptr? ==> x.addr + 1 < |mem| && x.addr / 512 < |segs|
  {
    if !x.Ptr? then x
    else if mem[x.addr] == Fwd then mem[x.addr + 1]
    else if segs[x.addr / 512].gen <= cg then BWP_OBJECT
    else x
  }

  lemma WeakStep(h0: Heap, cg: nat, s: St, mem: seq<Word>, w: nat)
    requires Traced(h0, cg, s) && WeakFixed(h0, cg, s, mem, w) && WeakCar(|h0.mem|, s.segs, w)
    ensures w < |mem| == |s.mem| && (mem[w].Ptr? ==> mem[w].addr + 1 < |mem| && mem[w].addr / 512 < |s.segs|)
    ensures WeakFixed(h0, cg, s, mem[w := FixedCar(cg, s.segs, mem, mem[w])], w + 2)
  {
    hide Inv;
    WeakCarKnown(h0, cg, s, w);
    var x := mem[w];
    assert x == s.mem[w];
    if w in s.src {
      var v := h0.mem[s.src[w]];
      if x.Ptr? {
        SameFirstWord(h0, cg, s, mem, w, x.kind, x.addr);
        WeakCase(h0, cg, s, v, x);
      }
    }
    var mem' := mem[w := FixedCar(cg, s.segs, mem, x)];
    forall y {:trigger mem'[y]} | 0 <= y < |mem'|
      ensures if y < w + 2 && WeakCar(|h0.mem|, s.segs, y) && y in s.src
              then s.src[y] < |h0.mem| && IsWeakImage(cg, s.segs, s.fwd, h0.mem[s.src[y]], mem'[y])
              else mem'[y] == s.mem[y]
    {
      if y != w { assert mem'[y] == mem[y]; }
    }
  }

  /** The car refers to the object as before, or to its copy. */
  lemma WeakCase(h0: Heap, cg: nat, s: St, v: Word, x: Word)
    requires Inv(h0, cg, s) && x.Ptr? && Known(h0, s.fwd, x)
    requires IsImage(cg, s.segs, s.fwd, v, x) || x == v
    ensures IsWeakImage(cg, s.segs, s.fwd, v, if x.addr in s.fwd then Ptr(x.kind, s.fwd[x.addr]) else if Older(cg, s.segs, x.addr) then x else BWP_OBJECT)
  {
    if x != v && v.Ptr? && v.addr in s.fwd {
      MovedKind(h0, cg, s, v.addr);
    }
  }

  lemma MovedKind(h0: Heap, cg: nat, s: St, a: nat)
    requires WellFormed(h0) && s.todo.Ok() && a in s.fwd && cg <= OLDEST && a in h0.objs
    requires SegsStep(h0, cg, |s.mem|, s.segs) && PlacesOk(h0, cg, s.segs, s.fwd)
    ensures s.fwd[a] !in s.fwd && Older(cg, s.segs, s.fwd[a])
  {
    assert PlaceOk(h0, cg, s.segs, a, s.fwd[a]);
    NewPageOlder(h0, cg, |s.mem|, s.segs, s.fwd[a]);
    forall x | x in s.fwd ensures x < |h0.mem| { assert PlaceOk(h0, cg, s.segs, x, s.fwd[x]); }
  }

  /** A page that is not a new page of weak pairs has no cars to fix. */
  lemma NoWeakCars(h0: Heap, cg: nat, s: St, mem: seq<Word>, p: nat)
    requires Inv(h0, cg, s) && WeakFixed(h0, cg, s, mem, 512 * p) && p < |s.segs|
    requires s.segs[p].typ != WeakPairs || s.segs[p].gen < NEW_GEN_TAG
    ensures WeakFixed(h0, cg, s, mem, 512 * p + 512)
  {
    forall w {:trigger mem[w]} | 512 * p <= w < 512 * p + 512 && w < |mem| ensures !WeakCar(|h0.mem|, s.segs, w) {
      assert w / 512 == p;
      assert p >= |h0.segs| ==> s.segs[p] == Tagged(cg, s.segs[p].typ, s.segs[p].large);
    }
  }

  lemma WeakPageCar(h0: Heap, cg: nat, s: St, p: nat, i: nat)
    requires Inv(h0, cg, s) && p < |s.segs| && s.segs[p].typ == WeakPairs && s.segs[p].gen >= NEW_GEN_TAG
    requires i < 256
    ensures WeakCar(|h0.mem|, s.segs, 512 * p + 2 * i)
  {
    var w := 512 * p + 2 * i;
    assert w / 512 == p;
    assert p < |h0.segs| ==> s.segs[p] == h0.segs[p] || s.segs[p] == Tagged(cg, Pointers, true);
  }

  /** fix_weak_pointers */
  method FixWeakPointers(gc: Gc)
    requires Traced(gc.h0, gc.collectGen, gc.Now())
    modifies gc`mem
    ensures WeakFixed(gc.h0, gc.collectGen, old(gc.Now()), gc.mem, |gc.mem|)
  {
    hide Inv, WeakFixed;
    ghost var s := gc.Now();
    InvSizes(gc.h0, gc.collectGen, s);
    WeakStart(gc.h0, gc.collectGen, s);
    var page := 0;
    while page < |gc.segs|
      invariant page <= |gc.segs| && |gc.mem| == |s.mem|
      invariant WeakFixed(gc.h0, gc.collectGen, s, gc.mem, 512 * page)
    {
      if gc.segs[page].typ == WeakPairs && gc.segs[page].gen >= NEW_GEN_TAG {
        var p, q := 512 * page, 512 * page + 512;
        ghost var i := 0;
        while p < q
          invariant p == 512 * page + 2 * i && p <= q && |gc.mem| == |s.mem|
          invariant WeakFixed(gc.h0, gc.collectGen, s, gc.mem, p)
        {
          WeakPageCar(gc.h0, gc.collectGen, s, page, i);
          WeakStep(gc.h0, gc.collectGen, s, gc.mem, p);
          gc.mem := gc.mem[p := FixedCar(gc.collectGen, gc.segs, gc.mem, gc.mem[p])];
          p, i := p + 2, i + 1;
        }
      } else {
        NoWeakCars(gc.h0, gc.collectGen, s, gc.mem, page);
      }
      page := page + 1;
    }
  }

  lemma WeakStart(h0: Heap, cg: nat, s: St)
    ensures WeakFixed(h0, cg, s, s.mem, 0)
  {
  }
}
