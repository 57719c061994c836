/** A collection together with the deliveries that end it: the queues of the tconcs afterwards. */
module GcDeliver {
  import opened Memory
  import opened GcState
  import opened GcSteps
  import opened GcMoves
  import opened GcReach
  import opened GcGather
  import opened GcLoop
  import opened GcDirty
  import opened GcWeak
  import opened GcFinish
  import opened GcRoots
  import opened GcGuardians
  import opened GcReachable
  import opened GcCollect
  import opened GcTheorems
  import opened Mutator
  import opened Tconc
  import opened Runs
  import opened Collector

  // ---------- Queues that the collector finds ----------

  /** The tconcs of the protected entries are queues of pairs of the heap, and the cells of the entries are in none of them. */
  ghost predicate Guarded(w: World, queues: map<nat, seq<nat>>) {
    && |w.lists| == GENERATIONS
    && QueuesOk(w.h.mem, queues) && QueuesInHeap(w.h, queues)
    && EntriesStrong(w.h, Entries(w)) && EntriesFresh(w.h.mem, queues, Entries(w))
  }

  /** The object at a survives. */
  ghost predicate Alive(cg: nat, s: St, a: nat) {
    a in s.fwd || Older(cg, s.segs, a)
  }

  /** Where pairs are after the collection. */
  function Places(fwd: map<nat, nat>, cells: seq<nat>): (r: seq<nat>)
    ensures |r| == |cells| && forall i {:trigger r[i]} :: 0 <= i < |r| ==> r[i] == Place(fwd, cells[i])
  {
    seq(|cells|, i requires 0 <= i < |cells| => Place(fwd, cells[i]))
  }

  // ---------- Pairs after the collection ----------

  lemma PairsApart(h: Heap, a: nat, b: nat)
    requires WellFormed(h) && a in h.objs && h.objs[a] == PairKind && b in h.objs && h.objs[b] == PairKind && a != b
    ensures a + 1 < |h.mem| && b + 1 < |h.mem| && (a + 2 <= b || b + 2 <= a)
  {
    assert ObjectOk(h, a) && ObjectOk(h, b);
  }

  lemma PairSize(h: Heap, a: nat)
    requires WellFormed(h) && a in h.objs && h.objs[a] == PairKind
    ensures a + 1 < |h.mem| == 512 * |h.segs| && UsedOf(h, a) == 2
  {
    assert ObjectOk(h, a);
  }

  /** A pair that survives is a pair afterwards, and holds its fields strongly if it did. */
  lemma PairMoved(h0: Heap, cg: nat, s: St, mem: seq<Word>, dirty: seq<seq<bv4>>, a: nat)
    requires Finished(h0, cg, s, mem, dirty) && (forall a :: a in s.fwd ==> a in h0.objs) && StrongPair(h0, a) && Alive(cg, s, a)
    ensures StrongPair(NextHeap(h0, cg, s, mem), Place(s.fwd, a)) && a + 1 < |h0.mem| && Place(s.fwd, a) + 1 < |mem|
  {
    hide Inv, WeakFixed, PagesDone, WellFormed;
    FinishedSizes(h0, cg, s, mem, dirty);
    PlaceOfObject(h0, cg, s, mem, dirty, a);
    PlaceWeak(h0, cg, s, mem, a);
    PairSize(h0, a);
  }

  /** What a strong field of a survivor holds afterwards. */
  lemma FieldMoved(h0: Heap, cg: nat, s: St, mem: seq<Word>, dirty: seq<seq<bv4>>, a: nat, i: nat)
    requires Finished(h0, cg, s, mem, dirty) && (forall a :: a in s.fwd ==> a in h0.objs) && StrongPair(h0, a) && Alive(cg, s, a) && i < 2
    ensures a + 1 < |h0.mem| && Place(s.fwd, a) + 1 < |mem|
    ensures GoodWord(h0.objs, h0.mem[a + i]) && IsImage(cg, s.segs, s.fwd, h0.mem[a + i], mem[Place(s.fwd, a) + i])
    ensures mem[Place(s.fwd, a) + i] == ImageOf(s.fwd, h0.mem[a + i])
    ensures h0.mem[a + i].Ptr? ==> Alive(cg, s, h0.mem[a + i].addr) && mem[Place(s.fwd, a) + i] == Ptr(h0.mem[a + i].kind, Place(s.fwd, h0.mem[a + i].addr))
  {
    hide Inv, WeakFixed, PagesDone, WellFormed;
    FinishedSizes(h0, cg, s, mem, dirty);
    PairMoved(h0, cg, s, mem, dirty, a);
    PairSize(h0, a);
    SlotImage(h0, cg, s, mem, dirty, a, i);
    WordGood(h0, a, a + i);
    ImageIsImageOf(cg, s.segs, s.fwd, h0.mem[a + i], mem[Place(s.fwd, a) + i]);
  }

  /** Different pairs are apart afterwards. */
  lemma MovedApart(h0: Heap, cg: nat, s: St, mem: seq<Word>, dirty: seq<seq<bv4>>, a: nat, b: nat)
    requires Finished(h0, cg, s, mem, dirty) && (forall a :: a in s.fwd ==> a in h0.objs)
    requires StrongPair(h0, a) && Alive(cg, s, a) && StrongPair(h0, b) && Alive(cg, s, b) && a != b
    ensures Place(s.fwd, a) + 2 <= Place(s.fwd, b) || Place(s.fwd, b) + 2 <= Place(s.fwd, a)
  {
    hide Inv, WeakFixed, PagesDone, WellFormed, Finished;
    FinishedSizes(h0, cg, s, mem, dirty);
    NextWellFormed(h0, cg, s, mem, dirty);
    PairMoved(h0, cg, s, mem, dirty, a);
    PairMoved(h0, cg, s, mem, dirty, b);
    DistinctPlaces(h0, cg, s, a, b);
    PairsApart(NextHeap(h0, cg, s, mem), Place(s.fwd, a), Place(s.fwd, b));
  }

  // ---------- One queue ----------

  lemma {:induction false} CellsAlive(h0: Heap, cg: nat, s: St, mem: seq<Word>, dirty: seq<seq<bv4>>, tc: nat, cells: seq<nat>, i: nat)
    requires Finished(h0, cg, s, mem, dirty) && (forall a :: a in s.fwd ==> a in h0.objs)
    requires IsQueue(h0.mem, tc, cells) && StrongPair(h0, tc) && (forall i {:trigger cells[i]} :: 0 <= i < |cells| ==> StrongPair(h0, cells[i]))
    requires Alive(cg, s, tc) && i < |cells|
    ensures Alive(cg, s, cells[i])
  {
    hide Finished, StrongPair, Alive, Place, Spread;
    if i == 0 {
      FieldMoved(h0, cg, s, mem, dirty, tc, 0);
    } else {
      CellsAlive(h0, cg, s, mem, dirty, tc, cells, i - 1);
      FieldMoved(h0, cg, s, mem, dirty, cells[i - 1], 1);
    }
  }

  lemma CellMoved(h0: Heap, cg: nat, s: St, mem: seq<Word>, dirty: seq<seq<bv4>>, tc: nat, cells: seq<nat>, i: nat)
    requires Finished(h0, cg, s, mem, dirty) && (forall a :: a in s.fwd ==> a in h0.objs)
    requires IsQueue(h0.mem, tc, cells) && StrongPair(h0, tc) && (forall i {:trigger cells[i]} :: 0 <= i < |cells| ==> StrongPair(h0, cells[i]))
    requires Alive(cg, s, tc) && i < |cells|
    ensures Alive(cg, s, cells[i]) && Place(s.fwd, cells[i]) + 1 < |mem| && cells[i] + 1 < |h0.mem|
    ensures mem[Place(s.fwd, cells[i])] == ImageOf(s.fwd, h0.mem[cells[i]])
    ensures i < |cells| - 1 ==> mem[Place(s.fwd, cells[i]) + 1] == Ptr(PairKind, Place(s.fwd, cells[i + 1]))
  {
    hide Finished, StrongPair, Alive, Place, Spread, IsImage, GoodWord, ImageOf;
    CellsAlive(h0, cg, s, mem, dirty, tc, cells, i);
    FieldMoved(h0, cg, s, mem, dirty, cells[i], 0);
    FieldMoved(h0, cg, s, mem, dirty, cells[i], 1);
  }

  /** A queue whose tconc survives is a queue afterwards, of the same cells where they are now. */
  lemma QueueMoved(h0: Heap, cg: nat, s: St, mem: seq<Word>, dirty: seq<seq<bv4>>, tc: nat, cells: seq<nat>)
    requires Finished(h0, cg, s, mem, dirty) && (forall a :: a in s.fwd ==> a in h0.objs)
    requires IsQueue(h0.mem, tc, cells) && StrongPair(h0, tc) && (forall i {:trigger cells[i]} :: 0 <= i < |cells| ==> StrongPair(h0, cells[i]))
    requires Alive(cg, s, tc)
    ensures forall i {:trigger cells[i]} :: 0 <= i < |cells| ==> Alive(cg, s, cells[i])
    ensures IsQueue(mem, Place(s.fwd, tc), Places(s.fwd, cells))
    ensures Contents(mem, Places(s.fwd, cells)) == Images(s.fwd, Contents(h0.mem, cells))
  {
    hide Finished, StrongPair, Alive, Place, Spread, Contents, Images, IsImage, GoodWord, ImageOf;
    var cells1 := Places(s.fwd, cells);
    FieldMoved(h0, cg, s, mem, dirty, tc, 0);
    FieldMoved(h0, cg, s, mem, dirty, tc, 1);
    forall i {:trigger cells[i]} | 0 <= i < |cells|
      ensures Alive(cg, s, cells[i]) && Place(s.fwd, cells[i]) < |mem| && cells[i] < |h0.mem| && mem[Place(s.fwd, cells[i])] == ImageOf(s.fwd, h0.mem[cells[i]])
    {
      CellMoved(h0, cg, s, mem, dirty, tc, cells, i);
    }
    forall i {:trigger cells1[i]} | 0 <= i < |cells1|
      ensures cells1[i] + 1 < |mem| && (i < |cells1| - 1 ==> mem[cells1[i] + 1] == Ptr(PairKind, cells1[i + 1]))
    {
      CellMoved(h0, cg, s, mem, dirty, tc, cells, i);
    }
    SpreadMoved(h0, cg, s, mem, dirty, tc, cells);
    ContentsMoved(h0.mem, mem, s.fwd, cells);
  }

  lemma SpreadMoved(h0: Heap, cg: nat, s: St, mem: seq<Word>, dirty: seq<seq<bv4>>, tc: nat, cells: seq<nat>)
    requires Finished(h0, cg, s, mem, dirty) && (forall a :: a in s.fwd ==> a in h0.objs)
    requires Spread([tc] + cells) && StrongPair(h0, tc) && Alive(cg, s, tc)
    requires forall i {:trigger cells[i]} :: 0 <= i < |cells| ==> StrongPair(h0, cells[i]) && Alive(cg, s, cells[i])
    ensures Spread([Place(s.fwd, tc)] + Places(s.fwd, cells))
  {
    hide Finished, StrongPair, Alive, Place;
    var a, b := [tc] + cells, [Place(s.fwd, tc)] + Places(s.fwd, cells);
    forall i, j {:trigger b[i], b[j]} | 0 <= i < j < |b| ensures b[i] + 2 <= b[j] || b[j] + 2 <= b[i] {
      assert b[i] == Place(s.fwd, a[i]) && b[j] == Place(s.fwd, a[j]) && a[j] == cells[j - 1];
      assert i > 0 ==> a[i] == cells[i - 1];
      assert a[i] != a[j];
      MovedApart(h0, cg, s, mem, dirty, a[i], a[j]);
    }
  }

  lemma ContentsMoved(m0: seq<Word>, m: seq<Word>, fwd: map<nat, nat>, cells: seq<nat>)
    requires forall i {:trigger cells[i]} :: 0 <= i < |cells| ==> cells[i] < |m0| && Place(fwd, cells[i]) < |m| && m[Place(fwd, cells[i])] == ImageOf(fwd, m0[cells[i]])
    ensures Contents(m, Places(fwd, cells)) == Images(fwd, Contents(m0, cells))
  {
    var x, y := Contents(m, Places(fwd, cells)), Images(fwd, Contents(m0, cells));
    forall i | 0 <= i < |x| ensures x[i] == y[i] { assert cells[i] == cells[i]; }
  }

  // ---------- All queues ----------

  ghost function LiveQueues(cg: nat, s: St, queues: map<nat, seq<nat>>): (r: set<nat>)
    ensures forall tc {:trigger tc in r} :: tc in r <==> tc in queues && Alive(cg, s, tc)
  {
    set tc | tc in queues && Alive(cg, s, tc)
  }

  /** The tconc that is at b now. */
  ghost function Source(cg: nat, s: St, queues: map<nat, seq<nat>>, b: nat): (tc: nat)
    requires exists tc :: tc in LiveQueues(cg, s, queues) && Place(s.fwd, tc) == b
    ensures tc in LiveQueues(cg, s, queues) && Place(s.fwd, tc) == b
  {
    var tc :| tc in LiveQueues(cg, s, queues) && Place(s.fwd, tc) == b; tc
  }

  /** The queues whose tconcs survive, where they are after the collection. */
  ghost function MovedQueues(cg: nat, s: St, queues: map<nat, seq<nat>>): (r: map<nat, seq<nat>>)
    ensures forall b {:trigger b in r} :: b in r <==> exists tc :: tc in LiveQueues(cg, s, queues) && Place(s.fwd, tc) == b
    ensures forall b {:trigger r[b]} :: b in r ==> r[b] == Places(s.fwd, queues[Source(cg, s, queues, b)])
  {
    var bs := set tc | tc in LiveQueues(cg, s, queues) :: Place(s.fwd, tc);
    map b | b in bs :: Places(s.fwd, queues[Source(cg, s, queues, b)])
  }

  lemma SourceIs(h0: Heap, cg: nat, s: St, queues: map<nat, seq<nat>>, tc: nat)
    requires Inv(h0, cg, s) && QueuesInHeap(h0, queues) && tc in queues && Alive(cg, s, tc)
    ensures var b := Place(s.fwd, tc); b in MovedQueues(cg, s, queues) && MovedQueues(cg, s, queues)[b] == Places(s.fwd, queues[tc])
  {
    hide Inv, Alive, Place;
    var b := Place(s.fwd, tc);
    assert tc in LiveQueues(cg, s, queues) && Place(s.fwd, tc) == b;
    var c := Source(cg, s, queues, b);
    assert c in LiveQueues(cg, s, queues);
    DistinctPlaces(h0, cg, s, tc, c);
    assert b in MovedQueues(cg, s, queues);
  }

  lemma AwayMoved(h0: Heap, cg: nat, s: St, mem: seq<Word>, dirty: seq<seq<bv4>>, tc: nat, cells: seq<nat>, p: nat)
    requires Finished(h0, cg, s, mem, dirty) && (forall a :: a in s.fwd ==> a in h0.objs)
    requires StrongPair(h0, tc) && Alive(cg, s, tc) && StrongPair(h0, p) && Alive(cg, s, p) && Away([tc] + cells, p)
    requires forall i {:trigger cells[i]} :: 0 <= i < |cells| ==> StrongPair(h0, cells[i]) && Alive(cg, s, cells[i])
    ensures Away([Place(s.fwd, tc)] + Places(s.fwd, cells), Place(s.fwd, p))
  {
    hide Finished, StrongPair, Alive, Place;
    var a, b := [tc] + cells, [Place(s.fwd, tc)] + Places(s.fwd, cells);
    forall i {:trigger b[i]} | 0 <= i < |b| ensures b[i] + 2 <= Place(s.fwd, p) || Place(s.fwd, p) + 2 <= b[i] {
      assert b[i] == Place(s.fwd, a[i]) && a[i] != p;
      assert i > 0 ==> a[i] == cells[i - 1];
      MovedApart(h0, cg, s, mem, dirty, a[i], p);
    }
  }

  /** Everything about the queue that is at b now. */
  lemma MovedQueue(h0: Heap, cg: nat, s: St, mem: seq<Word>, dirty: seq<seq<bv4>>, queues: map<nat, seq<nat>>, b: nat) returns (tc: nat)
    requires Finished(h0, cg, s, mem, dirty) && (forall a :: a in s.fwd ==> a in h0.objs)
    requires QueuesOk(h0.mem, queues) && QueuesInHeap(h0, queues) && b in MovedQueues(cg, s, queues)
    ensures tc in queues && Alive(cg, s, tc) && b == Place(s.fwd, tc) && MovedQueues(cg, s, queues)[b] == Places(s.fwd, queues[tc])
    ensures IsQueue(h0.mem, tc, queues[tc]) && IsQueue(mem, b, Places(s.fwd, queues[tc])) && StrongPair(h0, tc)
    ensures forall i {:trigger queues[tc][i]} :: 0 <= i < |queues[tc]| ==> StrongPair(h0, queues[tc][i]) && Alive(cg, s, queues[tc][i])
    ensures Contents(mem, Places(s.fwd, queues[tc])) == Images(s.fwd, Contents(h0.mem, queues[tc]))
  {
    hide Finished, StrongPair, Alive, Place, IsQueue;
    tc := Source(cg, s, queues, b);
    assert tc in LiveQueues(cg, s, queues);
    QueueMoved(h0, cg, s, mem, dirty, tc, queues[tc]);
  }

  lemma QueuesMoved(h0: Heap, cg: nat, s: St, mem: seq<Word>, dirty: seq<seq<bv4>>, queues: map<nat, seq<nat>>)
    requires Finished(h0, cg, s, mem, dirty) && (forall a :: a in s.fwd ==> a in h0.objs)
    requires QueuesOk(h0.mem, queues) && QueuesInHeap(h0, queues)
    ensures QueuesOk(mem, MovedQueues(cg, s, queues)) && QueuesInHeap(NextHeap(h0, cg, s, mem), MovedQueues(cg, s, queues))
  {
    hide Finished, StrongPair, Alive, Place, IsQueue, MovedQueues, Away;
    var q := MovedQueues(cg, s, queues);
    forall b {:trigger b in q} | b in q
      ensures IsQueue(mem, b, q[b]) && StrongPair(NextHeap(h0, cg, s, mem), b)
      ensures forall i {:trigger q[b][i]} :: 0 <= i < |q[b]| ==> StrongPair(NextHeap(h0, cg, s, mem), q[b][i])
    {
      var tc := MovedQueue(h0, cg, s, mem, dirty, queues, b);
      PairMoved(h0, cg, s, mem, dirty, tc);
      forall i {:trigger q[b][i]} | 0 <= i < |q[b]| ensures StrongPair(NextHeap(h0, cg, s, mem), q[b][i]) {
        PairMoved(h0, cg, s, mem, dirty, queues[tc][i]);
      }
    }
    forall b, c {:trigger b in q, c in q} | b in q && c in q && b != c ensures AllAway([b] + q[b], [c] + q[c]) {
      var tc := MovedQueue(h0, cg, s, mem, dirty, queues, b);
      var tc' := MovedQueue(h0, cg, s, mem, dirty, queues, c);
      AllAwayMoved(h0, cg, s, mem, dirty, queues, tc, tc');
    }
  }

  lemma AllAwayMoved(h0: Heap, cg: nat, s: St, mem: seq<Word>, dirty: seq<seq<bv4>>, queues: map<nat, seq<nat>>, x: nat, y: nat)
    requires Finished(h0, cg, s, mem, dirty) && (forall a :: a in s.fwd ==> a in h0.objs)
    requires QueuesOk(h0.mem, queues) && x in queues && y in queues && x != y && StrongPair(h0, x) && StrongPair(h0, y) && Alive(cg, s, x) && Alive(cg, s, y)
    requires forall i {:trigger queues[x][i]} :: 0 <= i < |queues[x]| ==> StrongPair(h0, queues[x][i]) && Alive(cg, s, queues[x][i])
    requires forall i {:trigger queues[y][i]} :: 0 <= i < |queues[y]| ==> StrongPair(h0, queues[y][i]) && Alive(cg, s, queues[y][i])
    ensures AllAway([Place(s.fwd, x)] + Places(s.fwd, queues[x]), [Place(s.fwd, y)] + Places(s.fwd, queues[y]))
  {
    hide Finished, StrongPair, Alive, Place, IsQueue, Away;
    var t, u := [y] + queues[y], [Place(s.fwd, y)] + Places(s.fwd, queues[y]);
    forall i {:trigger u[i]} | 0 <= i < |u| ensures Away([Place(s.fwd, x)] + Places(s.fwd, queues[x]), u[i]) {
      assert u[i] == Place(s.fwd, t[i]);
      assert i > 0 ==> t[i] == queues[y][i - 1];
      assert AllAway([x] + queues[x], [y] + queues[y]);
      assert Away([x] + queues[x], t[i]);
      AwayMoved(h0, cg, s, mem, dirty, x, queues[x], t[i]);
    }
  }

  // ---------- The cells of the entries ----------

  lemma EntryAlive(cg: nat, h0: Heap, s: St, p: Word)
    requires EntryOk(h0, p) && Live(cg, s.segs, s.fwd, p)
    ensures Alive(cg, s, p.addr) && ImageOf(s.fwd, p) == Ptr(PairKind, Place(s.fwd, p.addr))
  {
  }

  lemma AwayFromAll(h0: Heap, cg: nat, s: St, mem: seq<Word>, dirty: seq<seq<bv4>>, queues: map<nat, seq<nat>>, a: nat)
    requires Finished(h0, cg, s, mem, dirty) && (forall a :: a in s.fwd ==> a in h0.objs)
    requires QueuesOk(h0.mem, queues) && QueuesInHeap(h0, queues) && StrongPair(h0, a) && Alive(cg, s, a)
    requires forall tc {:trigger tc in queues} :: tc in queues ==> Away([tc] + queues[tc], a)
    ensures forall b {:trigger b in MovedQueues(cg, s, queues)} :: b in MovedQueues(cg, s, queues) ==> Away([b] + MovedQueues(cg, s, queues)[b], Place(s.fwd, a))
  {
    hide Finished, IsQueue, MovedQueues, Away, StrongPair, QueuesOk, QueuesInHeap, Alive, Place;
    var q := MovedQueues(cg, s, queues);
    forall b {:trigger b in q} | b in q ensures Away([b] + q[b], Place(s.fwd, a)) {
      var tc := MovedQueue(h0, cg, s, mem, dirty, queues, b);
      AwayMoved(h0, cg, s, mem, dirty, tc, queues[tc], a);
    }
  }

  lemma EntryMoved(h0: Heap, cg: nat, s: St, mem: seq<Word>, dirty: seq<seq<bv4>>, queues: map<nat, seq<nat>>, p: Word)
    requires Finished(h0, cg, s, mem, dirty) && (forall a :: a in s.fwd ==> a in h0.objs)
    requires QueuesOk(h0.mem, queues) && QueuesInHeap(h0, queues)
    requires EntryOk(h0, p) && StrongPair(h0, p.addr) && EntryFresh(h0.mem, queues, p) && Live(cg, s.segs, s.fwd, p)
    ensures EntryFresh(mem, MovedQueues(cg, s, queues), ImageOf(s.fwd, p)) && ImageOf(s.fwd, p) == Ptr(PairKind, Place(s.fwd, p.addr))
    ensures EntryOk(NextHeap(h0, cg, s, mem), ImageOf(s.fwd, p)) && StrongPair(NextHeap(h0, cg, s, mem), Place(s.fwd, p.addr))
  {
    hide Finished, IsQueue, MovedQueues, Away, StrongPair, QueuesOk, QueuesInHeap, Alive, Place, Live, ImageOf, EntryOk, Inv, WellFormed, NextHeap, IsImage, GoodWord;
    var a := p.addr;
    FinishedSizes(h0, cg, s, mem, dirty);
    EntryAlive(cg, h0, s, p);
    PairMoved(h0, cg, s, mem, dirty, a);
    StrongIsPair(NextHeap(h0, cg, s, mem), Place(s.fwd, a));
    FieldMoved(h0, cg, s, mem, dirty, a, 0);
    SourceIs(h0, cg, s, queues, h0.mem[a].addr);
    AwayFromAll(h0, cg, s, mem, dirty, queues, a);
  }

  lemma StrongIsPair(h: Heap, a: nat)
    requires StrongPair(h, a)
    ensures EntryOk(h, Ptr(PairKind, a))
  {
  }

  /** The cells in es are the cells in all, where they are now. */
  lemma EntriesMoved(h0: Heap, cg: nat, s: St, mem: seq<Word>, dirty: seq<seq<bv4>>, queues: map<nat, seq<nat>>, all: seq<Word>, es: seq<Word>)
    requires Finished(h0, cg, s, mem, dirty) && (forall a :: a in s.fwd ==> a in h0.objs)
    requires QueuesOk(h0.mem, queues) && QueuesInHeap(h0, queues) && EntriesStrong(h0, all) && EntriesFresh(h0.mem, queues, all) && Distinct(es)
    requires forall p {:trigger p in es} :: p in es ==> exists p0 {:trigger p0 in all} :: p0 in all && Live(cg, s.segs, s.fwd, p0) && p == ImageOf(s.fwd, p0)
    ensures EntriesFresh(mem, MovedQueues(cg, s, queues), es) && EntriesStrong(NextHeap(h0, cg, s, mem), es)
  {
    hide Finished, IsQueue, MovedQueues, Away, StrongPair, QueuesOk, QueuesInHeap, Live, ImageOf, WellFormed, EntryFresh;
    var h1 := NextHeap(h0, cg, s, mem);
    NextWellFormed(h0, cg, s, mem, dirty);
    forall p {:trigger p in es} | p in es
      ensures EntryOk(h1, p) && StrongPair(h1, p.addr) && EntryFresh(mem, MovedQueues(cg, s, queues), p)
    {
      var p0 :| p0 in all && Live(cg, s.segs, s.fwd, p0) && p == ImageOf(s.fwd, p0);
      var k :| 0 <= k < |all| && all[k] == p0;
      EntryMoved(h0, cg, s, mem, dirty, queues, p0);
    }
    forall k, l {:trigger es[k], es[l]} | 0 <= k < l < |es|
      ensures es[k].Ptr? && es[l].Ptr? && (es[k].addr + 2 <= es[l].addr || es[l].addr + 2 <= es[k].addr)
    {
      assert es[k] in es && es[l] in es && es[k] != es[l];
      PairsApart(h1, es[k].addr, es[l].addr);
    }
    forall k {:trigger es[k]} | 0 <= k < |es| ensures EntryFresh(mem, MovedQueues(cg, s, queues), es[k]) { assert es[k] in es; }
  }

  /** Every entry that is left, and every one that is to be delivered, is an entry from before. */
  lemma EntriesCame(w: World, cg: nat, r: Report, x: World, forward: seq<seq<Word>>, p: Word) returns (p0: Word)
    requires Fit(w) && Collection(w, cg, r, x, forward) && |x.lists| == GENERATIONS && p in Flat(forward) + Entries(x)
    ensures p0 in Entries(w) && Live(cg, r.end.segs, r.end.fwd, p0) && p == ImageOf(r.end.fwd, p0)
  {
    hide Protected, Flat, Collected, Exact, GuardiansServed, Live, ImageOf, Fit, Upper;
    if p in Flat(forward) {
      assert p in multiset(Images(r.end.fwd, r.forwarded));
      var k :| 0 <= k < |r.forwarded| && Images(r.end.fwd, r.forwarded)[k] == p;
      p0 := r.forwarded[k];
      CollectionSources(w, cg, r, x, forward);
      assert p0 in Lasting(w, cg, r);
    } else {
      var g := InProtected(x.lists, GENERATIONS, p);
      p0 := NewEntry(w, cg, r, x, forward, g, p);
    }
  }

  /** A collection leaves the queues and the entries as the deliveries need them. */
  lemma CollectionGuarded(w: World, cg: nat, r: Report, x: World, forward: seq<seq<Word>>, queues: map<nat, seq<nat>>)
    requires Fit(w) && Collection(w, cg, r, x, forward) && Guarded(w, queues)
    ensures Fit(x) && QueuesOk(x.h.mem, MovedQueues(cg, r.end, queues)) && QueuesInHeap(x.h, MovedQueues(cg, r.end, queues))
    ensures EntriesStrong(x.h, Flat(forward) + Entries(x)) && EntriesFresh(x.h.mem, MovedQueues(cg, r.end, queues), Flat(forward) + Entries(x))
  {
    hide Fit, Collection, Protected, Flat, QueuesOk, QueuesInHeap, EntriesStrong, EntriesFresh, Live, ImageOf, MovedQueues, Finished, Inv, WellFormed;
    EndInv(w, cg, r, x, forward);
    CollectionFit(w, cg, r, x, forward);
    QueuesMoved(w.h, cg, r.end, x.h.mem, r.scanned, queues);
    CollectionDistinct(w, cg, r, x, forward);
    var es := Flat(forward) + Entries(x);
    forall p {:trigger p in es} | p in es
      ensures exists p0 {:trigger p0 in Entries(w)} :: p0 in Entries(w) && Live(cg, r.end.segs, r.end.fwd, p0) && p == ImageOf(r.end.fwd, p0)
    {
      var p0 := EntriesCame(w, cg, r, x, forward, p);
    }
    EntriesMoved(w.h, cg, r.end, x.h.mem, r.scanned, queues, Entries(w), es);
  }

  // ---------- The items that are delivered ----------

  lemma DeliveredFirst(m: seq<Word>, p: Word, es: seq<Word>, tc: nat)
    ensures Delivered(m, [p] + es, tc) == (if Field(m, p, 0) == Ptr(PairKind, tc) then [Field(m, p, 1)] else []) + Delivered(m, es, tc)
  {
    hide Field;
    assert ([p] + es)[0] == p && ([p] + es)[1..] == es;
  }

  lemma {:induction false} DeliveredAppend(m: seq<Word>, a: seq<Word>, b: seq<Word>, tc: nat)
    ensures Delivered(m, a + b, tc) == Delivered(m, a, tc) + Delivered(m, b, tc)
    decreases |a|
  {
    if a == [] {
      assert a + b == b;
    } else {
      hide Delivered, Field;
      DeliveredAppend(m, a[1..], b, tc);
      DeliveredFirst(m, a[0], a[1..], tc);
      DeliveredFirst(m, a[0], a[1..] + b, tc);
      assert [a[0]] + a[1..] == a && [a[0]] + (a[1..] + b) == a + b;
    }
  }

  lemma Cancel(x: multiset<Word>, y: multiset<Word>, z: multiset<Word>)
    requires x + y == x + z
    ensures y == z
  {
    forall p ensures y[p] == z[p] { assert (x + y)[p] == x[p] + y[p] && (x + z)[p] == x[p] + z[p]; }
  }

  lemma Rotated(x: seq<Word>, y: seq<Word>, z: seq<Word>)
    ensures multiset(x + (y + z)) == multiset(y) + multiset(x + z)
  {
    assert multiset(x + (y + z)) == multiset(x) + (multiset(y) + multiset(z));
    assert multiset(x + z) == multiset(x) + multiset(z);
  }

  lemma Without(a: seq<Word>, b: seq<Word>, i: nat)
    requires multiset(a) == multiset(b) && a != [] && i < |b| && b[i] == a[0]
    ensures multiset(a[1..]) == multiset(b[..i] + b[i + 1..])
  {
    var x, y, z := b[..i], [b[i]], b[i + 1..];
    assert a == [a[0]] + a[1..] && b == x + (y + z);
    Rotated(x, y, z);
    assert multiset([a[0]] + a[1..]) == multiset([a[0]]) + multiset(a[1..]);
    Cancel(multiset([a[0]]), multiset(a[1..]), multiset(x + z));
  }

  lemma DeliveredWithout(m: seq<Word>, b: seq<Word>, i: nat, tc: nat)
    requires i < |b|
    ensures multiset(Delivered(m, b, tc)) == multiset(Delivered(m, [b[i]], tc)) + multiset(Delivered(m, b[..i] + b[i + 1..], tc))
  {
    hide Delivered;
    DeliveredAppend(m, b[..i], b[i + 1..], tc);
    DeliveredAppend(m, b[..i], [b[i]] + b[i + 1..], tc);
    DeliveredAppend(m, [b[i]], b[i + 1..], tc);
    assert b == b[..i] + ([b[i]] + b[i + 1..]);
    Rotated(Delivered(m, b[..i], tc), Delivered(m, [b[i]], tc), Delivered(m, b[i + 1..], tc));
  }

  /** The order of the entries decides only the order of the items. */
  lemma {:induction false} DeliveredSame(m: seq<Word>, a: seq<Word>, b: seq<Word>, tc: nat)
    requires multiset(a) == multiset(b)
    ensures multiset(Delivered(m, a, tc)) == multiset(Delivered(m, b, tc))
    decreases |a|
  {
    hide Delivered;
    if a == [] {
      assert |b| == |multiset(b)| == 0;
    } else {
      assert a[0] in multiset(a);
      var i :| 0 <= i < |b| && b[i] == a[0];
      Without(a, b, i);
      DeliveredSame(m, a[1..], b[..i] + b[i + 1..], tc);
      DeliveredWithout(m, b, i, tc);
      DeliveredWithout(m, a, 0, tc);
      assert a[..0] + a[0 + 1..] == a[1..];
    }
  }

  /** One entry holds for the tconc, where both are now, what it held. */
  lemma FieldsMoved(h0: Heap, cg: nat, s: St, mem: seq<Word>, dirty: seq<seq<bv4>>, queues: map<nat, seq<nat>>, p: Word, tc: nat)
    requires Finished(h0, cg, s, mem, dirty) && (forall a :: a in s.fwd ==> a in h0.objs)
    requires QueuesInHeap(h0, queues) && tc in queues && Alive(cg, s, tc)
    requires EntryOk(h0, p) && StrongPair(h0, p.addr) && EntryFresh(h0.mem, queues, p) && Live(cg, s.segs, s.fwd, p)
    ensures Field(mem, ImageOf(s.fwd, p), 1) == ImageOf(s.fwd, Field(h0.mem, p, 1))
    ensures Field(mem, ImageOf(s.fwd, p), 0) == Ptr(PairKind, Place(s.fwd, tc)) <==> Field(h0.mem, p, 0) == Ptr(PairKind, tc)
  {
    hide Finished, StrongPair, Away, QueuesInHeap, Alive, Place, Live, ImageOf, EntryOk, Inv, WellFormed, IsImage, GoodWord;
    var a := p.addr;
    FinishedSizes(h0, cg, s, mem, dirty);
    EntryAlive(cg, h0, s, p);
    FieldMoved(h0, cg, s, mem, dirty, a, 0);
    FieldMoved(h0, cg, s, mem, dirty, a, 1);
    TconcPlaces(h0, cg, s, queues, h0.mem[a], tc);
  }

  lemma TconcPlaces(h0: Heap, cg: nat, s: St, queues: map<nat, seq<nat>>, v: Word, tc: nat)
    requires Inv(h0, cg, s) && QueuesInHeap(h0, queues) && tc in queues && v.Ptr? && v.addr in queues
    ensures Ptr(v.kind, Place(s.fwd, v.addr)) == Ptr(PairKind, Place(s.fwd, tc)) <==> v == Ptr(PairKind, tc)
  {
    hide Inv, Place;
    DistinctPlaces(h0, cg, s, v.addr, tc);
  }

  lemma {:induction false} DeliveredMoved(h0: Heap, cg: nat, s: St, mem: seq<Word>, dirty: seq<seq<bv4>>, queues: map<nat, seq<nat>>, es: seq<Word>, tc: nat)
    requires Finished(h0, cg, s, mem, dirty) && (forall a :: a in s.fwd ==> a in h0.objs)
    requires QueuesInHeap(h0, queues) && tc in queues && Alive(cg, s, tc)
    requires forall p {:trigger p in es} :: p in es ==> EntryOk(h0, p) && StrongPair(h0, p.addr) && EntryFresh(h0.mem, queues, p) && Live(cg, s.segs, s.fwd, p)
    ensures Delivered(mem, Images(s.fwd, es), Place(s.fwd, tc)) == Images(s.fwd, Delivered(h0.mem, es, tc))
    decreases |es|
  {
    hide Finished, StrongPair, QueuesInHeap, Field, EntryFresh, Live, ImageOf, Alive, Place;
    if es != [] {
      var rest := es[1..];
      assert es[0] in es && forall p {:trigger p in rest} :: p in rest ==> p in es;
      DeliveredMoved(h0, cg, s, mem, dirty, queues, rest, tc);
      FieldsMoved(h0, cg, s, mem, dirty, queues, es[0], tc);
      assert Images(s.fwd, es)[1..] == Images(s.fwd, rest);
      var item := if Field(h0.mem, es[0], 0) == Ptr(PairKind, tc) then [Field(h0.mem, es[0], 1)] else [];
      ImagesAppend(s.fwd, item, Delivered(h0.mem, rest, tc));
    }
  }

  /** The items for a tconc are the objects of the entries that are forwarded and have this tconc. */
  lemma ItemsForwarded(w: World, cg: nat, r: Report, x: World, forward: seq<seq<Word>>, queues: map<nat, seq<nat>>, tc: nat)
    requires Fit(w) && Collection(w, cg, r, x, forward) && Guarded(w, queues) && tc in queues && Alive(cg, r.end, tc)
    ensures multiset(Delivered(x.h.mem, Flat(forward), Place(r.end.fwd, tc))) == multiset(Images(r.end.fwd, Delivered(w.h.mem, r.forwarded, tc)))
  {
    hide Fit, Protected, Flat, QueuesOk, QueuesInHeap, Live, ImageOf, Finished, Inv, WellFormed, EntryFresh, StrongPair, Delivered, Alive, Upper, Exact, GuardiansServed;
    EndInv(w, cg, r, x, forward);
    CollectionSources(w, cg, r, x, forward);
    forall p {:trigger p in r.forwarded} | p in r.forwarded
      ensures EntryOk(w.h, p) && StrongPair(w.h, p.addr) && EntryFresh(w.h.mem, queues, p) && Live(cg, r.end.segs, r.end.fwd, p)
    {
      assert p in Lasting(w, cg, r);
      var k :| 0 <= k < |Entries(w)| && Entries(w)[k] == p;
    }
    DeliveredMoved(w.h, cg, r.end, x.h.mem, r.scanned, queues, r.forwarded, tc);
    DeliveredSame(x.h.mem, Flat(forward), Images(r.end.fwd, r.forwarded), Place(r.end.fwd, tc));
  }

  // ---------- The collection and the deliveries ----------

  /** Entries that are left are not touched by the deliveries. */
  lemma DeliveredFit(x: World, y: World)
    requires Fit(x) && Sound(y.h, y.dirty) && y.roots == x.roots && y.lists == x.lists && y.h.segs == x.h.segs && y.h.objs == x.h.objs && |y.h.mem| == |x.h.mem|
    requires forall k {:trigger Entries(x)[k]} :: 0 <= k < |Entries(x)| ==> Field(y.h.mem, Entries(x)[k], 0) == Field(x.h.mem, Entries(x)[k], 0)
    ensures Fit(y)
  {
    hide Sound, Placed, Private, Distinct, Protected;
    forall p {:trigger p in Entries(x)} | p in Entries(x) ensures SameEntry(x.h, y.h, p) {
      var k :| 0 <= k < |Entries(x)| && Entries(x)[k] == p;
      PlacedEntry(x.h, x.lists, GENERATIONS, p);
      SoundSizes(x.h, x.dirty);
    }
    ListsStay(x.h, y.h, x.lists);
  }

  lemma SoundSizes(h: Heap, dirty: seq<seq<bv4>>)
    requires Sound(h, dirty)
    ensures |h.mem| == 512 * |h.segs|
  {
  }

  /** What the queues of the tconcs hold at the end: each whose tconc survives, what it held and then the objects of the
      entries forwarded to it. */
  ghost predicate QueuesServed(w: World, cg: nat, r: Report, x: World, forward: seq<seq<Word>>, before: map<nat, seq<nat>>, mem: seq<Word>, after: map<nat, seq<nat>>) {
    && after.Keys == MovedQueues(cg, r.end, before).Keys
    && forall tc {:trigger tc in before} :: tc in before && Alive(cg, r.end, tc) ==>
         var b := Place(r.end.fwd, tc);
         && b in after
         && Contents(mem, after[b]) == Images(r.end.fwd, Contents(w.h.mem, before[tc])) + Delivered(x.h.mem, Flat(forward), b)
         && multiset(Delivered(x.h.mem, Flat(forward), b)) == multiset(Images(r.end.fwd, Delivered(w.h.mem, r.forwarded, tc)))
  }

  lemma Serves(w: World, cg: nat, r: Report, x: World, forward: seq<seq<Word>>, before: map<nat, seq<nat>>, mem: seq<Word>, after: map<nat, seq<nat>>)
    requires Fit(w) && Collection(w, cg, r, x, forward) && Guarded(w, before) && after.Keys == MovedQueues(cg, r.end, before).Keys
    requires forall b {:trigger b in MovedQueues(cg, r.end, before)} :: b in MovedQueues(cg, r.end, before) ==>
               b in after && Contents(mem, after[b]) == Contents(x.h.mem, MovedQueues(cg, r.end, before)[b]) + Delivered(x.h.mem, Flat(forward), b)
    ensures QueuesServed(w, cg, r, x, forward, before, mem, after)
  {
    hide Fit, Collection, Protected, Flat, EntriesStrong, EntriesFresh, Finished, Inv, WellFormed, Contents, Delivered, Images, MovedQueues, StrongPair, IsQueue, Alive, Place;
    EndInv(w, cg, r, x, forward);
    forall tc {:trigger tc in before} | tc in before && Alive(cg, r.end, tc)
      ensures var b := Place(r.end.fwd, tc);
              && b in after && Contents(mem, after[b]) == Images(r.end.fwd, Contents(w.h.mem, before[tc])) + Delivered(x.h.mem, Flat(forward), b)
              && multiset(Delivered(x.h.mem, Flat(forward), b)) == multiset(Images(r.end.fwd, Delivered(w.h.mem, r.forwarded, tc)))
    {
      SourceIs(w.h, cg, r.end, before, tc);
      QueueMoved(w.h, cg, r.end, x.h.mem, r.scanned, tc, before[tc]);
      ItemsForwarded(w, cg, r, x, forward, before, tc);
    }
  }

  lemma SomeStrong(h: Heap, a: seq<Word>, b: seq<Word>)
    requires EntriesStrong(h, a + b)
    ensures EntriesStrong(h, b)
  {
    forall p {:trigger p in b} | p in b ensures p in a + b {}
  }

  lemma StrongSame(h: Heap, k: Heap, es: seq<Word>)
    requires EntriesStrong(h, es) && k.objs == h.objs && k.segs == h.segs
    ensures EntriesStrong(k, es)
  {
  }

  /** A collection, up to the point where the deliveries to guardians are made. Afterwards everything is as the next
      collection needs it. */
  method CollectAndDeliver(gc: Gc, cg: nat, ghost before: map<nat, seq<nat>>) returns (ghost r: Report, ghost x: World, ghost after: map<nat, seq<nat>>)
    requires |gc.stray| == 8 && Fit(WorldOf(gc)) && cg <= OLDEST && Guarded(WorldOf(gc), before)
    modifies gc
    ensures Collection(old(WorldOf(gc)), cg, r, x, gc.forwardList)
    ensures gc.roots == x.roots && gc.protectedList == x.lists && gc.segs == x.h.segs && gc.objs == x.h.objs
    ensures QueuesServed(old(WorldOf(gc)), cg, r, x, gc.forwardList, before, gc.mem, after)
    ensures Fit(WorldOf(gc)) && Guarded(WorldOf(gc), after)
  {
    hide Fit, Ready, Collection, Protected, Flat, QueuesOk, QueuesInHeap, EntriesStrong, EntriesFresh, QueuesServed, MovedQueues, Sound, WellFormed, CardsSound, Contents, Delivered, Field;
    ghost var w := WorldOf(gc);
    FitReady(w, cg);
    r := Collect(gc, cg);
    x := WorldOf(gc);
    ghost var forward, moved := gc.forwardList, MovedQueues(cg, r.end, before);
    CollectionGuarded(w, cg, r, x, forward, before);
    FitSound(x);
    after := FinalizeGuardians(gc, Entries(x), moved);
    Serves(w, cg, r, x, forward, before, gc.mem, after);
    DeliveredFit(x, WorldOf(gc));
    SomeStrong(x.h, Flat(forward), Entries(x));
    StrongSame(x.h, gc.Heap(), Entries(x));
  }

  lemma FitSound(x: World)
    requires Fit(x)
    ensures Sound(x.h, x.dirty) && |x.lists| == GENERATIONS
  {
    hide Sound;
  }
}
