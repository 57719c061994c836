/** What one call of gather_live_object does to the state of the collection. */
module GcGather {
  import opened Memory
  import opened GcState
  import opened GcSteps
  import opened GcMoves
  import opened GcAlloc
  import opened GcReach

  /** A reference found while collecting: to an object of the heap before, or to a copy. */
  ghost predicate Known(h0: Heap, fwd: map<nat, nat>, v: Word) {
    GoodWord(h0.objs, v) || (exists c :: c in fwd && c in h0.objs && v == Ptr(h0.objs[c], fwd[c]))
  }

  /** From s to t, some objects have been moved or promoted; what is being scanned has not changed. */
  ghost predicate Gathered(h0: Heap, cg: nat, s: St, t: St) {
    && Inv(h0, cg, t)
    && Later(cg, s, t)
    && t.raw == s.raw
    && t.todo.work == s.todo.work && t.todo.workId == s.todo.workId
    && (t == s || Whites(h0, cg, t.segs, t.fwd) < Whites(h0, cg, s.segs, s.fwd))
  }

  lemma GatheredRefl(h0: Heap, cg: nat, s: St)
    requires Inv(h0, cg, s)
    ensures Gathered(h0, cg, s, s)
  {
    hide Inv, Later;
    LaterRefl(h0, cg, s);
  }

  lemma GatheredForward(h0: Heap, cg: nat, s: St, t: St, a: nat)
    requires Gathered(h0, cg, s, t) && a in s.fwd
    ensures a in t.fwd && t.fwd[a] == s.fwd[a]
  {
    hide Inv;
  }

  // ---------- Looking at a reference ----------

  /** A survivor never holds the mark of a moved object. */
  lemma SurvivorNotFwd(h0: Heap, cg: nat, s: St, w: nat)
    requires s.todo.Ok() && w in s.src
    requires SourcesOk(h0, cg, s.segs, s.src, s.raw)
    requires ColoursOk(h0, cg, s.mem, s.segs, s.fwd, s.src, s.todo)
    ensures w < |s.mem| && s.mem[w] != Fwd
  {
  }

  lemma InvObject(h0: Heap, cg: nat, s: St, a: nat)
    requires Inv(h0, cg, s) && a in h0.objs
    ensures WellFormed(h0) && s.todo.Ok() && |h0.mem| <= |s.mem| == 512 * |s.segs|
    ensures a % 2 == 0 && a + 1 < |h0.mem| && 0 < UsedOf(h0, a) <= SizeOf(h0, a) && 2 <= SizeOf(h0, a) && a + SizeOf(h0, a) <= |h0.mem|
    ensures SizeOf(h0, a) <= UsedOf(h0, a) + 1
    ensures h0.objs[a] == PairKind ==> UsedOf(h0, a) == 2 == SizeOf(h0, a)
  {
    ObjectWords(h0, a);
  }

  /** What the collector reads of an object not reached before. */
  lemma WhiteObject(h0: Heap, cg: nat, s: St, a: nat)
    requires Inv(h0, cg, s) && White(h0, cg, s.segs, s.fwd, a)
    ensures a + 1 < |h0.mem| <= |s.mem| == 512 * |s.segs| && s.mem[a] == h0.mem[a] && |h0.mem| == 512 * |h0.segs|
    ensures SegOf(s.segs, a) == SegOf(h0.segs, a) && !Older(cg, h0.segs, a)
    ensures SegOf(h0.segs, a).large ==> h0.objs[a] == VectorKind && SizeOf(h0, a) >= 512
    ensures h0.objs[a] != PairKind ==> h0.mem[a].Imm? && h0.mem[a].n >= 0 && UsedOf(h0, a) == 1 + h0.mem[a].n
    ensures h0.objs[a] == PairKind ==> s.mem[a + 1] == h0.mem[a + 1] && GoodWord(h0.objs, h0.mem[a + 1])
  {
    ObjectWords(h0, a);
    var p := a / 512;
    assert p < |h0.segs| <= |s.segs|;
    PageStep(h0, cg, |s.mem|, s.segs, p);
    assert s.mem[a] == h0.mem[a];
    assert h0.objs[a] == PairKind ==> s.mem[a + 1] == h0.mem[a + 1];
  }

  lemma PageStep(h0: Heap, cg: nat, len: nat, segs: seq<Seg>, p: nat)
    requires SegsStep(h0, cg, len, segs) && p < |h0.segs|
    ensures p < |segs| && (segs[p] == h0.segs[p] || segs[p] == Tagged(cg, Pointers, true))
  {
  }

  lemma ObjectWords(h0: Heap, a: nat)
    requires WellFormed(h0) && a in h0.objs
    ensures a % 2 == 0 && a + 1 < |h0.mem| && 0 < UsedOf(h0, a) <= SizeOf(h0, a) && 2 <= SizeOf(h0, a) && a + SizeOf(h0, a) <= |h0.mem|
    ensures GoodWord(h0.objs, h0.mem[a]) && h0.mem[a] != Fwd
    ensures SegOf(h0.segs, a).large ==> h0.objs[a] == VectorKind && SizeOf(h0, a) >= 512 && SegOf(h0.segs, a).typ == Pointers
    ensures h0.objs[a] != PairKind ==> h0.mem[a].Imm? && h0.mem[a].n >= 0 && UsedOf(h0, a) == 1 + h0.mem[a].n
    ensures h0.objs[a] == PairKind ==> UsedOf(h0, a) == 2 == SizeOf(h0, a) && GoodWord(h0.objs, h0.mem[a + 1])
  {
    assert ObjectOk(h0, a);
    assert h0.mem[a] == h0.mem[a];
    assert h0.objs[a] == PairKind ==> h0.mem[a + 1] == h0.mem[a + 1];
  }

  /** An object that is neither moved nor waiting to be moved does not hold the mark. */
  lemma StayingNotFwd(h0: Heap, cg: nat, s: St, a: nat)
    requires WellFormed(h0) && s.todo.Ok() && a in h0.objs && Older(cg, s.segs, a) && |h0.mem| <= |s.mem|
    requires OldIntact(h0, cg, s.mem, s.src) && PromotedTraced(h0, cg, s.segs, s.src)
    requires SourcesOk(h0, cg, s.segs, s.src, s.raw)
    requires ColoursOk(h0, cg, s.mem, s.segs, s.fwd, s.src, s.todo)
    ensures a < |s.mem| && s.mem[a] != Fwd
  {
    ObjectWords(h0, a);
    if a in s.src {
      SurvivorNotFwd(h0, cg, s, a);
    } else {
      assert Older(cg, h0.segs, a);
      assert s.mem[a] == h0.mem[a];
    }
  }

  /** The tests that gather_live_object makes tell exactly what has become of the object. */
  lemma FirstWord(h0: Heap, cg: nat, s: St, k: Kind, a: nat)
    requires Inv(h0, cg, s) && Known(h0, s.fwd, Ptr(k, a))
    ensures a + 1 < |s.mem| == 512 * |s.segs|
    ensures s.mem[a] == Fwd <==> a in s.fwd
    ensures a in s.fwd ==> s.mem[a + 1] == Ptr(k, s.fwd[a])
    ensures a !in s.fwd && !Older(cg, s.segs, a) ==> a in h0.objs && h0.objs[a] == k && White(h0, cg, s.segs, s.fwd, a) && s.mem[a] == h0.mem[a]
  {
    if a in h0.objs {
      ObjectWords(h0, a);
      if a !in s.fwd && Older(cg, s.segs, a) {
        StayingNotFwd(h0, cg, s, a);
      } else if a !in s.fwd {
        assert White(h0, cg, s.segs, s.fwd, a);
        assert s.mem[a] == h0.mem[a];
      }
      NotACopy(h0, cg, s.segs, s.fwd, a);
    } else {
      var c :| c in s.fwd && c in h0.objs && Ptr(k, a) == Ptr(h0.objs[c], s.fwd[c]);
      ObjectWords(h0, c);
      CopyWords(h0, cg, s, c);
    }
  }

  lemma NotACopy(h0: Heap, cg: nat, segs: seq<Seg>, fwd: map<nat, nat>, a: nat)
    requires WellFormed(h0) && PlacesOk(h0, cg, segs, fwd) && a in h0.objs
    ensures forall c {:trigger fwd[c]} :: c in fwd ==> fwd[c] != a
  {
    assert ObjectOk(h0, a);
    forall c | c in fwd ensures fwd[c] != a { assert PlaceOk(h0, cg, segs, c, fwd[c]); }
  }

  lemma CopyWords(h0: Heap, cg: nat, s: St, c: nat)
    requires WellFormed(h0) && s.todo.Ok() && c in s.fwd && c in h0.objs && cg <= OLDEST
    requires SegsStep(h0, cg, |s.mem|, s.segs) && PlacesOk(h0, cg, s.segs, s.fwd) && CopiesTraced(h0, s.fwd, s.src, s.raw)
    requires SourcesOk(h0, cg, s.segs, s.src, s.raw)
    requires ColoursOk(h0, cg, s.mem, s.segs, s.fwd, s.src, s.todo)
    ensures s.fwd[c] + 1 < |s.mem| && s.mem[s.fwd[c]] != Fwd && s.fwd[c] !in s.fwd && Older(cg, s.segs, s.fwd[c])
    ensures s.fwd[c] !in h0.objs
  {
    ObjectWords(h0, c);
    assert PlaceOk(h0, cg, s.segs, c, s.fwd[c]);
    assert s.fwd[c] in s.src;
    SurvivorNotFwd(h0, cg, s, s.fwd[c]);
    NewPageOlder(h0, cg, |s.mem|, s.segs, s.fwd[c]);
    forall x | x in h0.objs ensures x < |h0.mem| { ObjectWords(h0, x); }
    forall x | x in s.fwd ensures x < |h0.mem| { assert PlaceOk(h0, cg, s.segs, x, s.fwd[x]); }
  }

  /** A reference to an object that has been dealt with is its own image, or the image is the one left with the mark. */
  lemma ImageNow(h0: Heap, cg: nat, s: St, k: Kind, a: nat)
    requires a in s.fwd || Older(cg, s.segs, a)
    ensures IsImage(cg, s.segs, s.fwd, Ptr(k, a), if a in s.fwd then Ptr(k, s.fwd[a]) else Ptr(k, a))
  {
  }

  // ---------- The places of copies ----------

  lemma SmallPlace(h0: Heap, cg: nat, s: St, id: MetaId, a: nat, b: nat)
    requires Inv(h0, cg, s) && White(h0, cg, s.segs, s.fwd, a)
    requires !SegOf(h0.segs, a).large
    requires Reserved(h0, s, b, SizeOf(h0, a)) && PagesAre(s.segs, b, b + SizeOf(h0, a), Tagged(cg, MetaType(id), false))
    requires match h0.objs[a]
             case PairKind => MetaType(id) == if SegOf(h0.segs, a).typ == WeakPairs then WeakPairs else Pointers
             case VectorKind => id == MetaPtrs
             case DataKind => id == MetaData
    ensures PlaceOk(h0, cg, s.segs, a, b)
  {
    ObjectWords(h0, a);
    assert SegOf(s.segs, b) == Tagged(cg, MetaType(id), false);
    assert Older(cg, s.segs, a) <==> Older(cg, h0.segs, a) by { assert s.segs[a / 512] == h0.segs[a / 512]; }
  }

  lemma LargePlace(h0: Heap, cg: nat, s: St, a: nat, b: nat)
    requires Inv(h0, cg, s) && White(h0, cg, s.segs, s.fwd, a)
    requires !SegOf(h0.segs, a).large && h0.objs[a] == VectorKind && SizeOf(h0, a) >= 512
    requires Reserved(h0, s, b, SizeOf(h0, a)) && PagesAre(s.segs, b, b + SizeOf(h0, a), Tagged(cg, Pointers, true)) && b % 512 == 0
    ensures PlaceOk(h0, cg, s.segs, a, b)
  {
    ObjectWords(h0, a);
    assert SegOf(s.segs, b) == Tagged(cg, Pointers, true);
    assert Older(cg, s.segs, a) <==> Older(cg, h0.segs, a) by { assert s.segs[a / 512] == h0.segs[a / 512]; }
  }

  /** The words just allocated in a meta page will be scanned. */
  lemma BumpedWaiting(todo: Agenda, id: MetaId, b: nat, n: nat)
    requires todo.Ok() && todo.meta[id].aq <= b && b + n == todo.meta[id].ap && b % 2 == 0 && 0 < n
    ensures id == MetaPtrs ==> forall w: nat {:trigger todo.Waiting(w)} :: b <= w < b + n ==> todo.Waiting(w)
    ensures id == MetaPair ==> todo.Waiting(b)
  {
    assert id == MetaPtrs || id == MetaPair ==> InMeta(todo.meta[id], b);
    forall w: nat | id == MetaPtrs && b <= w < b + n ensures todo.Waiting(w) { assert InMeta(todo.meta[id], w); }
  }

  /** Whites depend on the pages and the moved objects only. */
  lemma AllocatedWhite(h0: Heap, cg: nat, s: St, t: St, a: nat)
    requires Whites(h0, cg, t.segs, t.fwd) == Whites(h0, cg, s.segs, s.fwd)
    requires White(h0, cg, s.segs, s.fwd, a)
    ensures White(h0, cg, t.segs, t.fwd, a)
  {
    assert a in Whites(h0, cg, s.segs, s.fwd);
    assert a in Whites(h0, cg, t.segs, t.fwd);
  }

  // ---------- A vector or data object ----------

  lemma RawBack(raw: set<nat>, b: nat, n: nat)
    requires forall w {:trigger w in raw} :: w in raw ==> w < b || b + n <= w
    ensures raw + Block(b, n) - Block(b, n) == raw
  {
  }

  lemma InvMoveLater(h0: Heap, cg: nat, t: St, k: Kind, a: nat, b: nat, n: nat, mem1: seq<Word>, raw': set<nat>)
    requires Inv(h0, cg, t) && White(h0, cg, t.segs, t.fwd, a) && |mem1| == |t.mem|
    requires Reserved(h0, t, b, SizeOf(h0, a)) && n <= SizeOf(h0, a)
    requires forall w {:trigger mem1[w]} :: 0 <= w < |mem1| ==> (b <= w < b + SizeOf(h0, a)) || mem1[w] == t.mem[w]
    ensures a + 1 < |mem1|
    ensures Later(cg, t, Move(t, k, a, b, n, mem1, raw'))
    ensures Whites(h0, cg, t.segs, t.fwd[a := b]) < Whites(h0, cg, t.segs, t.fwd)
  {
    MoveLater(h0, cg, t, k, a, b, n, mem1, raw');
  }

  /** The object is moved from a to the n words allocated at b. */
  lemma MoveGathers(h0: Heap, cg: nat, s: St, t: St, a: nat, b: nat, mem1: seq<Word>)
    requires Later(cg, s, t) && Inv(h0, cg, t) && White(h0, cg, t.segs, t.fwd, a)
    requires t.raw == s.raw + Block(b, SizeOf(h0, a))
    requires forall w {:trigger w in s.raw} :: w in s.raw ==> w < b || b + SizeOf(h0, a) <= w
    requires t.todo.work == s.todo.work && t.todo.workId == s.todo.workId
    requires Whites(h0, cg, t.segs, t.fwd) == Whites(h0, cg, s.segs, s.fwd)
    requires PlaceOk(h0, cg, t.segs, a, b) && Reserved(h0, t, b, SizeOf(h0, a)) && |mem1| == |t.mem|
    requires forall w {:trigger mem1[w]} :: 0 <= w < |mem1| ==>
               mem1[w] == if b <= w < b + UsedOf(h0, a) then t.mem[a + (w - b)]
                          else if b <= w < b + SizeOf(h0, a) && h0.objs[a] != DataKind then Imm(0) else t.mem[w]
    requires forall w: nat {:trigger t.todo.Waiting(w)} :: b <= w < b + UsedOf(h0, a) ==>
               t.todo.Waiting(w) || WeakCar(|h0.mem|, t.segs, w) || h0.objs[a] == DataKind
    ensures a + 1 < |mem1|
    ensures Gathered(h0, cg, s, Move(t, h0.objs[a], a, b, UsedOf(h0, a), mem1, t.raw - Block(b, SizeOf(h0, a))))
  {
    hide Inv, Later, PlaceOk, Reserved;
    var raw' := t.raw - Block(b, SizeOf(h0, a));
    InvObject(h0, cg, t, a);
    MoveKeepsInv(h0, cg, t, a, b, mem1);
    InvMoveLater(h0, cg, t, h0.objs[a], a, b, UsedOf(h0, a), mem1, raw');
    RawBack(s.raw, b, SizeOf(h0, a));
    LaterTrans(cg, s, t, Move(t, h0.objs[a], a, b, UsedOf(h0, a), mem1, raw'));
  }

  /** Memory after n words have been copied from a to b; the last of the size words at b is cleared first,
      unless the object holds raw data. */
  function MovedWords(mem: seq<Word>, k: Kind, a: nat, b: nat, n: nat, size: nat): (m: seq<Word>)
    requires n <= size <= n + 1 && 0 < size && a + n <= b && b + size <= |mem|
    ensures |m| == |mem|
    ensures forall w {:trigger m[w]} :: 0 <= w < |mem| ==>
              m[w] == if b <= w < b + n then mem[a + (w - b)] else if b <= w < b + size && k != DataKind then Imm(0) else mem[w]
  {
    Copied(if k == DataKind then mem else mem[b + size - 1 := Imm(0)], a, b, n)
  }

  lemma InvExtendsKept(h0: Heap, cg: nat, s: St, t: St, keep: set<nat>)
    requires Inv(h0, cg, s) && Extends(s.segs, t.segs) && KeptOk(h0, cg, s.segs, s.fwd, s.src, keep)
    ensures KeptOk(h0, cg, t.segs, s.fwd, s.src, keep)
  {
    ExtendsKept(h0, cg, s.segs, t.segs, s.fwd, s.src, s.raw, keep);
  }

  /** A small vector or a data object, moved to words allocated in a meta page. */
  lemma SmallGathers(h0: Heap, cg: nat, keep: set<nat>, s: St, t: St, id: MetaId, a: nat, b: nat)
    requires Inv(h0, cg, s) && Closed(h0, cg, keep) && KeptOk(h0, cg, s.segs, s.fwd, s.src, keep) && a in keep
    requires White(h0, cg, s.segs, s.fwd, a) && !SegOf(h0.segs, a).large
    requires (h0.objs[a] == VectorKind && id == MetaPtrs) || (h0.objs[a] == DataKind && id == MetaData)
    requires Allocated(h0, cg, s, t, id, b, SizeOf(h0, a))
    ensures SizeOf(h0, a) <= UsedOf(h0, a) + 1 && 0 < UsedOf(h0, a) <= SizeOf(h0, a) && a + UsedOf(h0, a) <= b && a + 1 < b && b + SizeOf(h0, a) <= |t.mem|
    ensures var u := Move(t, h0.objs[a], a, b, UsedOf(h0, a), MovedWords(t.mem, h0.objs[a], a, b, UsedOf(h0, a), SizeOf(h0, a)), t.raw - Block(b, SizeOf(h0, a)));
            Inv(h0, cg, u) && Gathered(h0, cg, s, u) && KeptOk(h0, cg, u.segs, u.fwd, u.src, keep)
  {
    hide Inv, Later, KeptOk, Closed, Extends, PagesAre, SizeOf, UsedOf, Whites, MovedWords, Trace, Marked, WeakCar, Agenda.Waiting, PlaceOk;
    InvObject(h0, cg, s, a);
    InvObject(h0, cg, t, a);
    AllocatedWhite(h0, cg, s, t, a);
    SmallPlace(h0, cg, t, id, a, b);
    BumpedWaiting(t.todo, id, b, SizeOf(h0, a));
    MoveGathers(h0, cg, s, t, a, b, MovedWords(t.mem, h0.objs[a], a, b, UsedOf(h0, a), SizeOf(h0, a)));
    InvExtendsKept(h0, cg, s, t, keep);
    MoveKept(h0, cg, t.segs, t.fwd, t.src, keep, a, b, UsedOf(h0, a));
  }

  /** A large vector that is not on pages of its own yet, moved to new pages. */
  lemma LargeGathers(h0: Heap, cg: nat, keep: set<nat>, s: St, t: St, a: nat, b: nat)
    requires Inv(h0, cg, s) && Closed(h0, cg, keep) && KeptOk(h0, cg, s.segs, s.fwd, s.src, keep) && a in keep
    requires White(h0, cg, s.segs, s.fwd, a) && !SegOf(h0.segs, a).large
    requires h0.objs[a] == VectorKind && SizeOf(h0, a) >= 512
    requires AllocatedLarge(h0, cg, s, t, b, UsedOf(h0, a))
    ensures SizeOf(h0, a) <= UsedOf(h0, a) + 1 && 0 < UsedOf(h0, a) <= SizeOf(h0, a) && a + UsedOf(h0, a) <= b && a + 1 < b && b + SizeOf(h0, a) <= |t.mem|
    ensures var u := Move(t, VectorKind, a, b, UsedOf(h0, a), MovedWords(t.mem, VectorKind, a, b, UsedOf(h0, a), SizeOf(h0, a)), t.raw - Block(b, SizeOf(h0, a)));
            Inv(h0, cg, u) && Gathered(h0, cg, s, u) && KeptOk(h0, cg, u.segs, u.fwd, u.src, keep)
  {
    hide Inv, Later, KeptOk, Closed, Extends, PagesAre, UsedOf;
    InvObject(h0, cg, s, a);
    InvObject(h0, cg, t, a);
    AllocatedWhite(h0, cg, s, t, a);
    LargePlace(h0, cg, t, a, b);
    MoveGathers(h0, cg, s, t, a, b, MovedWords(t.mem, VectorKind, a, b, UsedOf(h0, a), SizeOf(h0, a)));
    InvExtendsKept(h0, cg, s, t, keep);
    MoveKept(h0, cg, t.segs, t.fwd, t.src, keep, a, b, UsedOf(h0, a));
  }

  /** A large vector on pages of its own stays there and is queued. */
  lemma PromoteGathers(h0: Heap, cg: nat, keep: set<nat>, s: St, a: nat)
    requires Inv(h0, cg, s) && Closed(h0, cg, keep) && KeptOk(h0, cg, s.segs, s.fwd, s.src, keep) && a in keep
    requires White(h0, cg, s.segs, s.fwd, a) && h0.objs[a] == VectorKind && a < |h0.mem| && SegOf(h0.segs, a).large
    ensures 0 < UsedOf(h0, a) && a + UsedOf(h0, a) <= 512 * |s.segs|
    ensures var u := Promote(cg, s, a, UsedOf(h0, a));
            Inv(h0, cg, u) && Gathered(h0, cg, s, u) && KeptOk(h0, cg, u.segs, u.fwd, u.src, keep) && Older(cg, u.segs, a) && a !in u.fwd
  {
    var n := UsedOf(h0, a);
    var u := Promote(cg, s, a, n);
    ObjectWords(h0, a);
    LargeOld(h0, cg, s, a);
    PromoteKeepsInv(h0, cg, s, a, n);
    PromoteChanges(h0, cg, s, a, n);
    PromoteLater(h0, cg, s, a, n);
    PromoteKept(h0, cg, s, keep, a, n);
    PromoteWhitesShrink(h0, cg, s.segs, u.segs, s.fwd, a, n);
  }

  lemma LargeAligned(h0: Heap, a: nat)
    requires WellFormed(h0) && a in h0.objs && a < |h0.mem| && SegOf(h0.segs, a).large
    ensures a % 512 == 0
  {
    assert ObjectOk(h0, a);
  }

  /** None of the pages of the object has been retagged yet. */
  lemma LargeOld(h0: Heap, cg: nat, s: St, a: nat)
    requires WellFormed(h0) && SegsStep(h0, cg, |s.mem|, s.segs) && ObjectsWhole(h0, cg, s.segs)
    requires White(h0, cg, s.segs, s.fwd, a) && a < |h0.mem| && SegOf(h0.segs, a).large
    ensures SegOf(h0.segs, a).gen <= cg
    ensures var n := UsedOf(h0, a); forall w {:trigger SegOf(s.segs, w)} :: 0 <= w < 512 * |s.segs| && a / 512 <= w / 512 <= (a + n - 1) / 512 ==> SegOf(s.segs, w).gen <= cg
  {
    var n := UsedOf(h0, a);
    ObjectWords(h0, a);
    LargeAligned(h0, a);
    assert SegOf(s.segs, a) == h0.segs[a / 512] || SegOf(s.segs, a) == Tagged(cg, Pointers, true);
    forall w {:trigger SegOf(s.segs, w)} | 0 <= w < 512 * |s.segs| && a / 512 <= w / 512 <= (a + n - 1) / 512 ensures SegOf(s.segs, w).gen <= cg {
      PageSpan(a, w, n);
      var p := 512 * (w / 512);
      assert !Older(cg, s.segs, p);
      assert SegOf(s.segs, p) == SegOf(s.segs, w);
    }
  }

  lemma PromoteWhitesShrink(h0: Heap, cg: nat, segs: seq<Seg>, segs': seq<Seg>, fwd: map<nat, nat>, a: nat, n: nat)
    requires WellFormed(h0) && PromotesTo(h0, cg, segs, segs', a, n) && White(h0, cg, segs, fwd, a) && 0 < n
    ensures Whites(h0, cg, segs', fwd) < Whites(h0, cg, segs, fwd)
  {
    forall c | c in Whites(h0, cg, segs', fwd) ensures c in Whites(h0, cg, segs, fwd) {
      assert ObjectOk(h0, c);
      assert Older(cg, segs, c) ==> Older(cg, segs', c);
    }
    assert Older(cg, segs', a);
    assert a in Whites(h0, cg, segs, fwd) && a !in Whites(h0, cg, segs', fwd);
  }

  // ---------- The spine of a list ----------

  /** Pair x moved to b; the cdr of the copy is not filled in yet. */
  function MovedPair(t: St, x: nat, b: nat): St
    requires x + 1 < |t.mem| && b < |t.mem|
  {
    Move(t, PairKind, x, b, 1, t.mem[b := t.mem[x]], t.raw - {b})
  }

  /** Part of a list has been moved, up to and including pair c, whose copy has no cdr yet. */
  ghost predicate SpineOk(h0: Heap, cg: nat, s: St, t: St, c: nat) {
    && Inv(h0, cg, t)
    && Later(cg, s, t)
    && Unfilled(h0, t, c)
    && t.fwd[c] + 1 !in s.raw && t.raw == s.raw + {t.fwd[c] + 1}
    && t.todo.work == s.todo.work && t.todo.workId == s.todo.workId
    && Whites(h0, cg, t.segs, t.fwd) < Whites(h0, cg, s.segs, s.fwd)
  }

  predicate PairMeta(h0: Heap, x: nat, id: MetaId) {
    x < 512 * |h0.segs| && id == if SegOf(h0.segs, x).typ == WeakPairs then MetaWeak else MetaPair
  }

  /** A pair is on no page of large vectors. */
  lemma StrongOrWeak(h0: Heap, cg: nat, s: St, x: nat)
    requires Inv(h0, cg, s) && x in h0.objs && h0.objs[x] == PairKind
    ensures |h0.mem| == 512 * |h0.segs| && x < |h0.mem| && !SegOf(h0.segs, x).large
  {
    ObjectWords(h0, x);
  }

  lemma PairMoveKeepsInv(h0: Heap, cg: nat, s: St, t: St, id: MetaId, x: nat, b: nat)
    requires Inv(h0, cg, s) && White(h0, cg, s.segs, s.fwd, x) && h0.objs[x] == PairKind && PairMeta(h0, x, id)
    requires Allocated(h0, cg, s, t, id, b, 2)
    ensures x + 1 < |t.mem| && b + 1 < |t.mem|
    ensures Inv(h0, cg, MovedPair(t, x, b))
    ensures WeakSlot(h0, x, x) ==> WeakCar(|h0.mem|, t.segs, b)
  {
    hide Inv, Later, Extends, Whites;
    InvObject(h0, cg, s, x);
    InvObject(h0, cg, t, x);
    AllocatedWhite(h0, cg, s, t, x);
    StrongOrWeak(h0, cg, s, x);
    SmallPlace(h0, cg, t, id, x, b);
    BumpedWaiting(t.todo, id, b, 2);
    MovePairKeepsInv(h0, cg, t, x, b, t.mem[b := t.mem[x]]);
  }

  lemma PairMoveLater(h0: Heap, cg: nat, s: St, t: St, id: MetaId, x: nat, b: nat)
    requires Inv(h0, cg, s) && White(h0, cg, s.segs, s.fwd, x) && h0.objs[x] == PairKind
    requires Allocated(h0, cg, s, t, id, b, 2)
    ensures x + 1 < |t.mem| && b + 1 < |t.mem|
    ensures Later(cg, s, MovedPair(t, x, b)) && Unfilled(h0, MovedPair(t, x, b), x)
    ensures MovedPair(t, x, b).raw == s.raw + {b + 1} && b !in s.raw && b + 1 !in s.raw && x + 1 < b
    ensures MovedPair(t, x, b).fwd == s.fwd[x := b] && MovedPair(t, x, b).segs == t.segs && |s.mem| <= |t.mem| == |MovedPair(t, x, b).mem|
    ensures MovedPair(t, x, b).todo.work == s.todo.work && MovedPair(t, x, b).todo.workId == s.todo.workId
    ensures Whites(h0, cg, t.segs, MovedPair(t, x, b).fwd) < Whites(h0, cg, s.segs, s.fwd)
  {
    hide Inv, Later, PagesAre;
    InvObject(h0, cg, s, x);
    InvObject(h0, cg, t, x);
    AllocatedWhite(h0, cg, s, t, x);
    InvMoveLater(h0, cg, t, PairKind, x, b, 1, t.mem[b := t.mem[x]], t.raw - {b});
    LaterTrans(cg, s, t, MovedPair(t, x, b));
    assert b !in s.raw && b + 1 !in s.raw;
    assert forall w {:trigger w in Block(b, 2)} :: w in Block(b, 2) <==> w == b || w == b + 1;
    assert b + 1 in t.raw;
  }

  lemma PairMoveKept(h0: Heap, cg: nat, keep: set<nat>, s: St, t: St, id: MetaId, x: nat, b: nat)
    requires Inv(h0, cg, s) && Closed(h0, cg, keep) && KeptOk(h0, cg, s.segs, s.fwd, s.src, keep) && x in keep
    requires White(h0, cg, s.segs, s.fwd, x) && h0.objs[x] == PairKind && PairMeta(h0, x, id)
    requires Allocated(h0, cg, s, t, id, b, 2)
    requires WeakSlot(h0, x, x) ==> WeakCar(|h0.mem|, t.segs, b)
    ensures x + 1 < |t.mem| && b + 1 < |t.mem|
    ensures KeptOk(h0, cg, t.segs, MovedPair(t, x, b).fwd, MovedPair(t, x, b).src, keep)
  {
    ObjectWords(h0, x);
    ExtendsKept(h0, cg, s.segs, t.segs, s.fwd, s.src, s.raw, keep);
    MoveKept(h0, cg, t.segs, t.fwd, t.src, keep, x, b, UsedOf(h0, x) - 1);
  }

  lemma CdrWanted(h0: Heap, cg: nat, keep: set<nat>, c: nat)
    requires Closed(h0, cg, keep) && c in keep && c in h0.objs && UsedOf(h0, c) == 2 && c + 1 < |h0.mem|
    ensures Wanted(h0, cg, keep, h0.mem[c + 1])
  {
    assert !WeakSlot(h0, c, c + 1);
  }

  /** The first pair of a list. */
  lemma PairStarts(h0: Heap, cg: nat, keep: set<nat>, s: St, t: St, id: MetaId, x: nat, b: nat)
    requires Inv(h0, cg, s) && Closed(h0, cg, keep) && KeptOk(h0, cg, s.segs, s.fwd, s.src, keep) && x in keep
    requires White(h0, cg, s.segs, s.fwd, x) && h0.objs[x] == PairKind && PairMeta(h0, x, id)
    requires Allocated(h0, cg, s, t, id, b, 2)
    ensures x + 1 < |t.mem| && b + 1 < |t.mem|
    ensures x + 1 < b && Inv(h0, cg, MovedPair(t, x, b)) && SpineOk(h0, cg, s, MovedPair(t, x, b), x)
    ensures Whites(h0, cg, t.segs, MovedPair(t, x, b).fwd) < Whites(h0, cg, s.segs, s.fwd)
    ensures KeptOk(h0, cg, t.segs, MovedPair(t, x, b).fwd, MovedPair(t, x, b).src, keep)
  {
    hide Inv;
    PairMoveKeepsInv(h0, cg, s, t, id, x, b);
    PairMoveLater(h0, cg, s, t, id, x, b);
    PairMoveKept(h0, cg, keep, s, t, id, x, b);
  }

  lemma InvFillLater(h0: Heap, cg: nat, s: St, c: nat, u: Word)
    requires Inv(h0, cg, s) && Unfilled(h0, s, c)
    ensures Later(cg, s, Fill(s, c, u))
  {
    hide Later;
    FillLater(h0, cg, s, c, u);
  }

  lemma FillLater(h0: Heap, cg: nat, s: St, c: nat, u: Word)
    requires Unfilled(h0, s, c) && SourcesOk(h0, cg, s.segs, s.src, s.raw) && |s.mem| == 512 * |s.segs|
    ensures Later(cg, s, Fill(s, c, u))
  {
    hide Agenda.Waiting;
    forall w | w in s.src ensures w < |s.mem| && w != s.fwd[c] + 1 { assert Older(cg, s.segs, w); }
  }

  /** The cdr of the copy of c is filled in with the image of the cdr of c. */
  lemma SpineFilled(h0: Heap, cg: nat, keep: set<nat>, t: St, c: nat, u: Word)
    requires Inv(h0, cg, t) && Unfilled(h0, t, c)
    requires Closed(h0, cg, keep) && KeptOk(h0, cg, t.segs, t.fwd, t.src, keep)
    requires IsImage(cg, t.segs, t.fwd, h0.mem[c + 1], u)
    ensures Inv(h0, cg, Fill(t, c, u)) && Later(cg, t, Fill(t, c, u))
    ensures KeptOk(h0, cg, t.segs, t.fwd, Fill(t, c, u).src, keep)
  {
    hide Inv, Later, Closed;
    InvObject(h0, cg, t, c);
    FillKeepsInv(h0, cg, t, c, u);
    InvFillLater(h0, cg, t, c, u);
    FillKept(h0, cg, t.segs, t.fwd, t.src, keep, c, t.fwd[c] + 1);
  }

  /** The next pair of a list; its copy becomes the cdr of the copy of the one before. */
  lemma PairContinues(h0: Heap, cg: nat, keep: set<nat>, s0: St, s: St, t: St, id: MetaId, c: nat, x: nat, b: nat)
    requires SpineOk(h0, cg, s0, s, c) && h0.mem[c + 1] == Ptr(PairKind, x)
    requires Closed(h0, cg, keep) && KeptOk(h0, cg, s.segs, s.fwd, s.src, keep) && x in keep
    requires White(h0, cg, s.segs, s.fwd, x) && h0.objs[x] == PairKind && PairMeta(h0, x, id)
    requires Allocated(h0, cg, s, t, id, b, 2)
    ensures c in s.fwd && x + 1 < |t.mem| && b + 1 < |t.mem| && c in MovedPair(t, x, b).fwd && MovedPair(t, x, b).fwd[c] + 1 < |t.mem|
    ensures x + 1 < b && x < s.fwd[c] && c != x && s.fwd[c] + 1 != b
    ensures Inv(h0, cg, Fill(MovedPair(t, x, b), c, Ptr(PairKind, b)))
    ensures SpineOk(h0, cg, s0, Fill(MovedPair(t, x, b), c, Ptr(PairKind, b)), x)
    ensures Whites(h0, cg, t.segs, MovedPair(t, x, b).fwd) < Whites(h0, cg, s.segs, s.fwd)
    ensures KeptOk(h0, cg, t.segs, MovedPair(t, x, b).fwd, Fill(MovedPair(t, x, b), c, Ptr(PairKind, b)).src, keep)
  {
    hide Inv, Later, KeptOk, Closed, Allocated, MovedPair, Whites, PairMeta, WeakSlot, WeakCar, Fill, Unfilled, SpineOk;
    SpineFacts(h0, cg, s0, s, c);
    InvObject(h0, cg, s, x);
    PairMoveKeepsInv(h0, cg, s, t, id, x, b);
    PairMoveLater(h0, cg, s, t, id, x, b);
    PairMoveKept(h0, cg, keep, s, t, id, x, b);
    var m := MovedPair(t, x, b);
    StillUnfilled(h0, s, m, c, x, b);
    SpineFilled(h0, cg, keep, m, c, Ptr(PairKind, b));
    SpineNext(h0, cg, s0, s, m, c, x, b, Ptr(PairKind, b));
  }

  lemma SpineFacts(h0: Heap, cg: nat, s0: St, s: St, c: nat)
    requires SpineOk(h0, cg, s0, s, c)
    ensures Inv(h0, cg, s) && Unfilled(h0, s, c) && c in s.fwd && |h0.mem| <= s.fwd[c] && s.fwd[c] + 1 in s.raw && c + 1 < |h0.mem|
  {
    hide Inv, Later;
  }

  /** Moving another pair leaves the copy of c waiting for its cdr. */
  lemma StillUnfilled(h0: Heap, s: St, m: St, c: nat, x: nat, b: nat)
    requires Unfilled(h0, s, c) && x !in s.fwd && m.fwd == s.fwd[x := b] && m.raw == s.raw + {b + 1} && |s.mem| <= |m.mem|
    ensures c != x && Unfilled(h0, m, c) && m.fwd[c] == s.fwd[c]
  {
  }

  lemma SpineNext(h0: Heap, cg: nat, s0: St, s: St, m: St, c: nat, x: nat, b: nat, u: Word)
    requires SpineOk(h0, cg, s0, s, c) && Later(cg, s, m) && Unfilled(h0, m, c) && Unfilled(h0, m, x)
    requires c != x && m.fwd == s.fwd[x := b] && m.raw == s.raw + {b + 1} && b + 1 !in s.raw && s.fwd[c] != b
    requires m.todo.work == s.todo.work && m.todo.workId == s.todo.workId && Whites(h0, cg, m.segs, m.fwd) < Whites(h0, cg, s.segs, s.fwd)
    requires Inv(h0, cg, Fill(m, c, u)) && Later(cg, m, Fill(m, c, u))
    ensures SpineOk(h0, cg, s0, Fill(m, c, u), x)
  {
    hide Inv, Later, Whites;
    LaterTrans(cg, s0, s, m);
    LaterTrans(cg, s0, m, Fill(m, c, u));
    assert Fill(m, c, u).raw == s0.raw + {b + 1};
  }

  /** The end of the list. */
  lemma PairEnds(h0: Heap, cg: nat, keep: set<nat>, s0: St, t: St, c: nat, u: Word)
    requires SpineOk(h0, cg, s0, t, c)
    requires Closed(h0, cg, keep) && KeptOk(h0, cg, t.segs, t.fwd, t.src, keep)
    requires IsImage(cg, t.segs, t.fwd, h0.mem[c + 1], u)
    ensures Gathered(h0, cg, s0, Fill(t, c, u))
    ensures KeptOk(h0, cg, t.segs, t.fwd, Fill(t, c, u).src, keep)
  {
    hide Inv;
    SpineFilled(h0, cg, keep, t, c, u);
    LaterTrans(cg, s0, t, Fill(t, c, u));
  }

  /** Something else has been gathered while the cdr of the copy of c is not filled in. */
  lemma SpineGathered(h0: Heap, cg: nat, s0: St, s: St, t: St, c: nat)
    requires SpineOk(h0, cg, s0, s, c) && Gathered(h0, cg, s, t)
    ensures SpineOk(h0, cg, s0, t, c)
  {
    hide Inv;
    LaterTrans(cg, s0, s, t);
    assert c in s.fwd;
  }
}
