/** Moving, promoting and scanning objects: each step keeps the invariant. */
module GcMoves {
  import opened Memory
  import opened GcState
  import opened GcOnce
  import opened GcSteps

  // ---------- Moving an object ----------

  /** memcpy of n words from a to b. */
  function Copied(mem: seq<Word>, a: nat, b: nat, n: nat): (m: seq<Word>)
    requires a + n <= |mem| && b + n <= |mem|
    ensures |m| == |mem|
    ensures forall w {:trigger m[w]} :: 0 <= w < |mem| ==> m[w] == if b <= w < b + n then mem[a + (w - b)] else mem[w]
  {
    mem[..b] + mem[a..a + n] + mem[b + n..]
  }

  /** The first word becomes the mark, the second the reference to the copy. */
  function Marked(mem: seq<Word>, k: Kind, a: nat, b: nat): (m: seq<Word>)
    requires a + 1 < |mem|
    ensures |m| == |mem|
    ensures forall w {:trigger m[w]} :: 0 <= w < |mem| ==> m[w] == if w == a then Fwd else if w == a + 1 then Ptr(k, b) else mem[w]
  {
    mem[a := Fwd][a + 1 := Ptr(k, b)]
  }

  /** Words b to b+n come from words a to a+n. */
  function Trace(a: nat, b: nat, n: nat): (m: map<nat, nat>)
    ensures forall w :: w in m <==> b <= w < b + n
    ensures forall w :: b <= w < b + n ==> m[w] == a + (w - b)
  {
    if n == 0 then map[] else Trace(a, b, n - 1)[b + n - 1 := a + n - 1]
  }

  /** The n words at a are copied to b; mem1 is memory with the copy in place. */
  function Move(s: St, k: Kind, a: nat, b: nat, n: nat, mem1: seq<Word>, raw1: set<nat>): St
    requires a + 1 < |mem1|
  {
    s.(mem := Marked(mem1, k, a, b), fwd := s.fwd[a := b], src := s.src + Trace(a, b, n), raw := raw1)
  }

  lemma SamePage(a: nat)
    requires a % 2 == 0
    ensures (a + 1) / 512 == a / 512
  {
  }

  /** Pages of older generations do not change. */
  lemma OlderStays(h0: Heap, cg: nat, s: St, a: nat)
    requires Inv(h0, cg, s) && Older(cg, h0.segs, a)
    ensures Older(cg, s.segs, a)
  {
    assert s.segs[a / 512] == h0.segs[a / 512];
  }

  /** What one object's words mean for the others. */
  lemma WhiteWords(h0: Heap, cg: nat, segs: seq<Seg>, fwd: map<nat, nat>, a: nat)
    requires WellFormed(h0) && |h0.segs| <= |segs| && White(h0, cg, segs, fwd, a)
    ensures a + 1 < |h0.mem| && a + SizeOf(h0, a) <= |h0.mem| && 2 <= SizeOf(h0, a)
    ensures !Older(cg, segs, a) && !Older(cg, segs, a + 1)
    ensures forall c {:trigger c in h0.objs} :: c in h0.objs && c != a ==> c + SizeOf(h0, c) <= a || a + SizeOf(h0, a) <= c
    ensures forall c {:trigger c in h0.objs} :: c in h0.objs ==> 0 <= c && 2 <= SizeOf(h0, c) && UsedOf(h0, c) <= SizeOf(h0, c)
  {
    assert ObjectOk(h0, a);
    assert !Older(cg, segs, a + 1) by { SamePage(a); }
    forall c | c in h0.objs ensures 0 <= c && 2 <= SizeOf(h0, c) && UsedOf(h0, c) <= SizeOf(h0, c) { assert ObjectOk(h0, c); }
  }

  /** A used word of an object that may hold references is a good word, and of one that may not is none. */
  lemma WordGood(h0: Heap, a: nat, w: nat)
    requires WellFormed(h0) && a in h0.objs && a <= w < a + UsedOf(h0, a)
    ensures w < |h0.mem| && GoodWord(h0.objs, h0.mem[w]) && (h0.objs[a] == DataKind ==> h0.mem[w].Imm?)
  {
    assert ObjectOk(h0, a);
    assert a in h0.objs && h0.mem[w] == h0.mem[w];
  }

  lemma MoveMarks(h0: Heap, cg: nat, s: St, a: nat, b: nat, mem1: seq<Word>)
    requires WellFormed(h0) && |h0.segs| <= |s.segs| && |h0.mem| <= |s.mem| == |mem1|
    requires White(h0, cg, s.segs, s.fwd, a)
    requires forall w {:trigger mem1[w]} :: 0 <= w < |h0.mem| ==> mem1[w] == s.mem[w]
    requires PlacesOk(h0, cg, s.segs, s.fwd) && MarksOk(h0, s.mem, s.fwd)
    ensures a + 1 < |mem1|
    ensures MarksOk(h0, Marked(mem1, h0.objs[a], a, b), s.fwd[a := b])
  {
    WhiteWords(h0, cg, s.segs, s.fwd, a);
    var mem', fwd' := Marked(mem1, h0.objs[a], a, b), s.fwd[a := b];
    forall c | c in fwd' ensures c in h0.objs && c + 1 < |mem'| && mem'[c] == Fwd && mem'[c + 1] == Ptr(h0.objs[c], fwd'[c]) {
      if c != a {
        assert PlaceOk(h0, cg, s.segs, c, s.fwd[c]);
        assert mem1[c] == s.mem[c] && mem1[c + 1] == s.mem[c + 1];
      }
    }
  }

  lemma MoveWhites(h0: Heap, cg: nat, s: St, a: nat, b: nat, mem1: seq<Word>)
    requires WellFormed(h0) && |h0.segs| <= |s.segs| && |h0.mem| <= |s.mem| == |mem1| && a + 1 < |mem1|
    requires White(h0, cg, s.segs, s.fwd, a)
    requires forall w {:trigger mem1[w]} :: 0 <= w < |h0.mem| ==> mem1[w] == s.mem[w]
    requires WhiteIntact(h0, cg, s.mem, s.segs, s.fwd)
    ensures WhiteIntact(h0, cg, Marked(mem1, h0.objs[a], a, b), s.segs, s.fwd[a := b])
  {
    WhiteWords(h0, cg, s.segs, s.fwd, a);
    var mem' := Marked(mem1, h0.objs[a], a, b);
    forall c, w | 0 <= c <= w && White(h0, cg, s.segs, s.fwd[a := b], c) && w < c + UsedOf(h0, c) ensures mem'[w] == h0.mem[w] {
      assert ObjectOk(h0, c);
      assert White(h0, cg, s.segs, s.fwd, c);
      assert s.mem[w] == h0.mem[w];
      assert mem1[w] == s.mem[w];
    }
  }

  lemma MoveOld(h0: Heap, cg: nat, s: St, a: nat, b: nat, n: nat, mem1: seq<Word>)
    requires WellFormed(h0) && |h0.mem| <= |s.mem| == |mem1| && a + 1 < |mem1| && |h0.mem| <= b
    requires a in h0.objs && !Fixed(h0, cg, a) && a < |h0.mem|
    requires forall w {:trigger mem1[w]} :: 0 <= w < |h0.mem| ==> mem1[w] == s.mem[w]
    requires OldIntact(h0, cg, s.mem, s.src)
    ensures OldIntact(h0, cg, Marked(mem1, h0.objs[a], a, b), s.src + Trace(a, b, n))
  {
    assert ObjectOk(h0, a);
    assert !Fixed(h0, cg, a + 1) by { SamePage(a); }
    OldIntactKept(h0, cg, s.mem, Marked(mem1, h0.objs[a], a, b), s.src, s.src + Trace(a, b, n));
  }

  lemma MoveCovers(h0: Heap, s: St, a: nat, b: nat, n: nat)
    requires SrcInCopies(h0, s.fwd, s.src) && n <= UsedOf(h0, a) && a !in s.fwd
    ensures SrcInCopies(h0, s.fwd[a := b], s.src + Trace(a, b, n))
  {
    var fwd' := s.fwd[a := b];
    forall w {:trigger w in s.src + Trace(a, b, n)} | w in s.src + Trace(a, b, n) && |h0.mem| <= w ensures InCopy(h0, fwd', w) {
      if w in Trace(a, b, n) {
        assert a in fwd' && fwd'[a] <= w < fwd'[a] + UsedOf(h0, a);
      } else {
        var c :| c in s.fwd && s.fwd[c] <= w < s.fwd[c] + UsedOf(h0, c);
        assert c in fwd' && fwd'[c] <= w < fwd'[c] + UsedOf(h0, c);
      }
    }
  }

  lemma MovePlaces(h0: Heap, cg: nat, s: St, a: nat, b: nat)
    requires s.todo.Ok() && PlacesOk(h0, cg, s.segs, s.fwd) && CopiesApart(h0, s.fwd)
    requires PlaceOk(h0, cg, s.segs, a, b) && Reserved(h0, s, b, SizeOf(h0, a)) && a !in s.fwd
    ensures PlacesOk(h0, cg, s.segs, s.fwd[a := b]) && CopiesApart(h0, s.fwd[a := b])
  {
  }

  lemma MoveFree(h0: Heap, s: St, a: nat, b: nat, src': map<nat, nat>, raw': set<nat>)
    requires s.todo.Ok() && FreeOk(h0, s.fwd, s.src, s.raw, s.todo.meta) && Reserved(h0, s, b, SizeOf(h0, a))
    requires raw' <= s.raw
    requires forall w {:trigger w in src'} :: w in src' ==> w in s.src || w in s.raw
    ensures FreeOk(h0, s.fwd[a := b], src', raw', s.todo.meta)
  {
    forall i, w: nat | Free(s.todo.meta, i, w) ensures w !in src' && w !in raw' { assert w !in s.src && w !in s.raw; }
  }

  lemma MoveTraced(h0: Heap, s: St, a: nat, b: nat, n: nat, raw': set<nat>)
    requires s.todo.Ok() && CopiesTraced(h0, s.fwd, s.src, s.raw) && Reserved(h0, s, b, SizeOf(h0, a))
    requires a !in s.fwd && n <= SizeOf(h0, a) && b !in raw'
    requires forall w :: b <= w < b + UsedOf(h0, a) ==> w < b + n || w in raw'
    requires raw' <= s.raw && (forall w :: w in s.raw && w !in raw' ==> b <= w < b + SizeOf(h0, a))
    requires forall w {:trigger w in s.src} :: w in s.src ==> w !in s.raw
    ensures CopiesTraced(h0, s.fwd[a := b], s.src + Trace(a, b, n), raw')
  {
    var fwd', src' := s.fwd[a := b], s.src + Trace(a, b, n);
    forall c, w | c in fwd' && fwd'[c] <= w < fwd'[c] + UsedOf(h0, c) && w !in raw'
      ensures w in src' && src'[w] == c + (w - fwd'[c])
    {
      if c != a {
        assert Clear(h0, c, s.fwd[c], b, b + SizeOf(h0, a));
        assert w !in s.raw;
        assert w in s.src && w !in Trace(a, b, n);
      }
    }
  }

  lemma MoveSources(h0: Heap, cg: nat, s: St, a: nat, b: nat, n: nat, raw': set<nat>)
    requires WellFormed(h0) && s.todo.Ok() && SegsStep(h0, cg, |s.mem|, s.segs) && cg <= OLDEST
    requires SourcesOk(h0, cg, s.segs, s.src, s.raw) && Reserved(h0, s, b, SizeOf(h0, a))
    requires a in h0.objs && n <= UsedOf(h0, a) && raw' <= s.raw
    requires forall w :: b <= w < b + n ==> w !in raw'
    ensures SourcesOk(h0, cg, s.segs, s.src + Trace(a, b, n), raw')
    ensures forall w {:trigger w in s.src} :: w in s.src ==> (s.src + Trace(a, b, n))[w] == s.src[w]
  {
    hide WellFormed, SegsStep;
    StSizes(h0, cg, s);
    var src' := s.src + Trace(a, b, n);
    forall w | w in src' && b <= w < b + n
      ensures src'[w] < |h0.mem| && Older(cg, s.segs, w) && GoodWord(h0.objs, h0.mem[src'[w]])
    {
      NewPageOlder(h0, cg, |s.mem|, s.segs, w);
      WordGood(h0, a, a + (w - b));
    }
  }

  lemma NewPageOlder(h0: Heap, cg: nat, len: nat, segs: seq<Seg>, w: nat)
    requires SegsStep(h0, cg, len, segs) && |h0.mem| == 512 * |h0.segs| && cg <= OLDEST
    requires |h0.mem| <= w < 512 * |segs|
    ensures Older(cg, segs, w)
  {
    assert SegOf(segs, w) == segs[w / 512];
  }

  /** Images are the same after one more object has been moved. */
  lemma MoveImages(h0: Heap, cg: nat, segs: seq<Seg>, fwd: map<nat, nat>, a: nat, b: nat, v: Word, u: Word)
    requires IsImage(cg, segs, fwd, v, u) && !Older(cg, segs, a) && a !in fwd
    ensures IsImage(cg, segs, fwd[a := b], v, u)
  {
  }

  /** A word of the copy holds what the word of the object holds. */
  lemma CopiedColour(h0: Heap, cg: nat, s: St, a: nat, b: nat, n: nat, mem1: seq<Word>, w: nat)
    requires WellFormed(h0) && s.todo.Ok() && |h0.segs| <= |s.segs| && |h0.mem| <= |s.mem| == |mem1|
    requires White(h0, cg, s.segs, s.fwd, a) && WhiteIntact(h0, cg, s.mem, s.segs, s.fwd)
    requires n <= UsedOf(h0, a) && |h0.mem| <= b && b + n <= |mem1| && a + 1 < |mem1| && b <= w < b + n
    requires mem1[w] == s.mem[a + (w - b)]
    requires s.todo.Waiting(w) || WeakCar(|h0.mem|, s.segs, w) || h0.objs[a] == DataKind
    ensures a + (w - b) < |h0.mem|
    ensures var mem' := Marked(mem1, h0.objs[a], a, b);
            || IsImage(cg, s.segs, s.fwd[a := b], h0.mem[a + (w - b)], mem'[w])
            || ((s.todo.Waiting(w) || WeakCar(|h0.mem|, s.segs, w)) && mem'[w] == h0.mem[a + (w - b)])
  {
    hide WellFormed;
    WhiteWords(h0, cg, s.segs, s.fwd, a);
    WordGood(h0, a, a + (w - b));
    var mem' := Marked(mem1, h0.objs[a], a, b);
    assert mem'[w] == mem1[w] == s.mem[a + (w - b)] == h0.mem[a + (w - b)];
  }

  /** The other survivors keep their colours. */
  lemma OtherColours(h0: Heap, cg: nat, s: St, a: nat, b: nat, mem1: seq<Word>, w: nat)
    requires WellFormed(h0) && s.todo.Ok() && |h0.segs| <= |s.segs| && |h0.mem| <= |s.mem| == |mem1| && a + 1 < |mem1|
    requires White(h0, cg, s.segs, s.fwd, a) && w in s.src && SourcesOk(h0, cg, s.segs, s.src, s.raw)
    requires ColoursOk(h0, cg, s.mem, s.segs, s.fwd, s.src, s.todo)
    requires w < |mem1| && w !in s.raw ==> mem1[w] == s.mem[w]
    ensures w < |mem1| && s.src[w] < |h0.mem|
    ensures var mem' := Marked(mem1, h0.objs[a], a, b);
            || IsImage(cg, s.segs, s.fwd[a := b], h0.mem[s.src[w]], mem'[w])
            || ((s.todo.Waiting(w) || WeakCar(|h0.mem|, s.segs, w)) && mem'[w] == h0.mem[s.src[w]])
  {
    hide WellFormed;
    WhiteWords(h0, cg, s.segs, s.fwd, a);
    var mem' := Marked(mem1, h0.objs[a], a, b);
    assert Older(cg, s.segs, w) && w !in s.raw;
    assert mem'[w] == s.mem[w];
    if IsImage(cg, s.segs, s.fwd, h0.mem[s.src[w]], s.mem[w]) {
      MoveImages(h0, cg, s.segs, s.fwd, a, b, h0.mem[s.src[w]], s.mem[w]);
    }
  }

  lemma MoveColours(h0: Heap, cg: nat, s: St, a: nat, b: nat, n: nat, mem1: seq<Word>)
    requires WellFormed(h0) && s.todo.Ok() && |h0.segs| <= |s.segs| && |h0.mem| <= |s.mem| == |mem1|
    requires White(h0, cg, s.segs, s.fwd, a)
    requires SourcesOk(h0, cg, s.segs, s.src, s.raw)
    requires ColoursOk(h0, cg, s.mem, s.segs, s.fwd, s.src, s.todo)
    requires WhiteIntact(h0, cg, s.mem, s.segs, s.fwd)
    requires n <= UsedOf(h0, a) && |h0.mem| <= b && b + n <= |mem1| && a + 1 < |mem1|
    requires forall w {:trigger mem1[w]} :: 0 <= w < |mem1| && w !in s.raw ==> mem1[w] == s.mem[w]
    requires forall w {:trigger mem1[w]} :: b <= w < b + n ==> mem1[w] == s.mem[a + (w - b)] && w in s.raw
    requires forall w: nat {:trigger s.todo.Waiting(w)} :: b <= w < b + n ==>
               s.todo.Waiting(w) || WeakCar(|h0.mem|, s.segs, w) || h0.objs[a] == DataKind
    ensures ColoursOk(h0, cg, Marked(mem1, h0.objs[a], a, b), s.segs, s.fwd[a := b], s.src + Trace(a, b, n), s.todo)
  {
    var mem', src' := Marked(mem1, h0.objs[a], a, b), s.src + Trace(a, b, n);
    hide WellFormed, White, WhiteIntact, SourcesOk, IsImage, WeakCar, Marked, Agenda.Waiting;
    forall w | w in src'
      ensures w < |mem'| && src'[w] < |h0.mem|
      ensures || IsImage(cg, s.segs, s.fwd[a := b], h0.mem[src'[w]], mem'[w])
              || ((s.todo.Waiting(w) || WeakCar(|h0.mem|, s.segs, w)) && mem'[w] == h0.mem[src'[w]])
    {
      if w in Trace(a, b, n) {
        assert s.todo.Waiting(w) || WeakCar(|h0.mem|, s.segs, w) || h0.objs[a] == DataKind;
        CopiedColour(h0, cg, s, a, b, n, mem1, w);
      } else {
        OtherColours(h0, cg, s, a, b, mem1, w);
      }
    }
  }

  /** More words become survivors. */
  lemma MorePromoted(h0: Heap, cg: nat, segs: seq<Seg>, src: map<nat, nat>, src': map<nat, nat>)
    requires PromotedTraced(h0, cg, segs, src)
    requires forall w {:trigger w in src'} {:trigger w in src} :: w in src ==> w in src'
    ensures PromotedTraced(h0, cg, segs, src')
  {
  }

  lemma MoveRegions(h0: Heap, cg: nat, s: St, a: nat, b: nat, n: nat, mem': seq<Word>, raw': set<nat>)
    requires s.todo.Ok() && |s.mem| == 512 * |s.segs| == |mem'|
    requires RangesOk(h0, cg, s.segs, s.src, s.todo) && NewPagesOk(h0, s.mem, s.segs, s.src, s.raw, s.todo.meta)
    requires raw' <= s.raw
    requires forall w {:trigger mem'[w]} :: |h0.mem| <= w < |mem'| && w !in s.raw ==> mem'[w] == s.mem[w]
    requires forall w {:trigger mem'[w]} :: |h0.mem| <= w < |mem'| && w in s.raw && w !in raw' && Scannable(SegOf(s.segs, w).typ) ==>
               b <= w < b + n || mem'[w].Imm?
    ensures RangesOk(h0, cg, s.segs, s.src + Trace(a, b, n), s.todo)
    ensures NewPagesOk(h0, mem', s.segs, s.src + Trace(a, b, n), raw', s.todo.meta)
  {
    var src' := s.src + Trace(a, b, n);
    forall i, r | RangeOk(h0, cg, s.segs, s.src, s.todo.meta, i, r) ensures RangeOk(h0, cg, s.segs, src', s.todo.meta, i, r) {
      forall w | r.p <= w < r.q ensures Older(cg, s.segs, w) && (if w < |h0.mem| then w in src' else SegOf(s.segs, w).typ == Pointers) {
        assert Older(cg, s.segs, w);
      }
    }
    forall w {:trigger mem'[w]} | |h0.mem| <= w < |mem'| && Scannable(SegOf(s.segs, w).typ)
      ensures w in src' || mem'[w].Imm? || w in raw' || FreeWord(s.todo.meta, w)
    {
      if w !in s.raw { assert mem'[w] == s.mem[w]; }
    }
  }

  /** A vector or data object is moved as a whole. */
  lemma MoveKeepsInv(h0: Heap, cg: nat, s: St, a: nat, b: nat, mem1: seq<Word>)
    requires Inv(h0, cg, s) && White(h0, cg, s.segs, s.fwd, a)
    requires PlaceOk(h0, cg, s.segs, a, b) && Reserved(h0, s, b, SizeOf(h0, a)) && |mem1| == |s.mem|
    requires forall w {:trigger mem1[w]} :: 0 <= w < |mem1| ==>
               mem1[w] == if b <= w < b + UsedOf(h0, a) then s.mem[a + (w - b)]
                          else if b <= w < b + SizeOf(h0, a) && h0.objs[a] != DataKind then Imm(0) else s.mem[w]
    requires forall w: nat {:trigger s.todo.Waiting(w)} :: b <= w < b + UsedOf(h0, a) ==>
               s.todo.Waiting(w) || WeakCar(|h0.mem|, s.segs, w) || h0.objs[a] == DataKind
    ensures a + 1 < |mem1|
    ensures Inv(h0, cg, Move(s, h0.objs[a], a, b, UsedOf(h0, a), mem1, s.raw - Block(b, SizeOf(h0, a))))
  {
    hide WellFormed, SegsStep, PlacesOk, MarksOk, CopiesApart, WhiteIntact, OldIntact, ObjectsWhole, CopiesTraced, PromotedTraced, SrcInCopies, ColoursOk, MetasOk, FreeOk,
      RangesOk, NewPagesOk;
    StSizes(h0, cg, s);
    var n, raw' := UsedOf(h0, a), s.raw - Block(b, SizeOf(h0, a));
    WhiteWords(h0, cg, s.segs, s.fwd, a);
    MoveMarks(h0, cg, s, a, b, mem1);
    MoveWhites(h0, cg, s, a, b, mem1);
    MoveOld(h0, cg, s, a, b, n, mem1);
    MoveCovers(h0, s, a, b, n);
    MovePlaces(h0, cg, s, a, b);
    MoveTraced(h0, s, a, b, n, raw');
    MoveSources(h0, cg, s, a, b, n, raw');
    MorePromoted(h0, cg, s.segs, s.src, s.src + Trace(a, b, n));
    MoveFree(h0, s, a, b, s.src + Trace(a, b, n), raw');
    MoveColours(h0, cg, s, a, b, n, mem1);
    MoveRegions(h0, cg, s, a, b, n, Marked(mem1, h0.objs[a], a, b), raw');
  }

  lemma MovePairColours(h0: Heap, cg: nat, s: St, a: nat, b: nat, n: nat, mem1: seq<Word>)
    requires WellFormed(h0) && s.todo.Ok() && |h0.segs| <= |s.segs| && |h0.mem| <= |s.mem| == |mem1|
    requires White(h0, cg, s.segs, s.fwd, a) && h0.objs[a] == PairKind && n == 1
    requires SourcesOk(h0, cg, s.segs, s.src, s.raw)
    requires ColoursOk(h0, cg, s.mem, s.segs, s.fwd, s.src, s.todo)
    requires WhiteIntact(h0, cg, s.mem, s.segs, s.fwd)
    requires |h0.mem| <= b && b in s.raw && b < |mem1| && a + 1 < |mem1|
    requires forall w {:trigger mem1[w]} :: 0 <= w < |mem1| ==> mem1[w] == if w == b then s.mem[a] else s.mem[w]
    requires s.todo.Waiting(b) || WeakCar(|h0.mem|, s.segs, b)
    ensures ColoursOk(h0, cg, Marked(mem1, PairKind, a, b), s.segs, s.fwd[a := b], s.src + Trace(a, b, n), s.todo)
  {
    MoveColours(h0, cg, s, a, b, n, mem1);
  }

  lemma MovePairTraced(h0: Heap, s: St, a: nat, b: nat, n: nat)
    requires s.todo.Ok() && CopiesTraced(h0, s.fwd, s.src, s.raw) && Reserved(h0, s, b, SizeOf(h0, a))
    requires a !in s.fwd && n == 1 && UsedOf(h0, a) == 2
    requires forall w {:trigger w in s.src} :: w in s.src ==> w !in s.raw
    ensures CopiesTraced(h0, s.fwd[a := b], s.src + Trace(a, b, n), s.raw - {b})
  {
    MoveTraced(h0, s, a, b, n, s.raw - {b});
  }

  lemma MovePairSources(h0: Heap, cg: nat, s: St, a: nat, b: nat, n: nat)
    requires WellFormed(h0) && s.todo.Ok() && SegsStep(h0, cg, |s.mem|, s.segs) && cg <= OLDEST
    requires SourcesOk(h0, cg, s.segs, s.src, s.raw) && Reserved(h0, s, b, SizeOf(h0, a))
    requires a in h0.objs && n == 1 && UsedOf(h0, a) == 2
    ensures SourcesOk(h0, cg, s.segs, s.src + Trace(a, b, n), s.raw - {b})
    ensures forall w {:trigger w in s.src} :: w in s.src ==> (s.src + Trace(a, b, n))[w] == s.src[w]
  {
    MoveSources(h0, cg, s, a, b, n, s.raw - {b});
  }

  /** The car of a pair is copied; its cdr is still to be filled in. */
  lemma MovePairKeepsInv(h0: Heap, cg: nat, s: St, a: nat, b: nat, mem1: seq<Word>)
    requires Inv(h0, cg, s) && White(h0, cg, s.segs, s.fwd, a) && h0.objs[a] == PairKind
    requires PlaceOk(h0, cg, s.segs, a, b) && Reserved(h0, s, b, 2) && |mem1| == |s.mem|
    requires forall w {:trigger mem1[w]} :: 0 <= w < |mem1| ==> mem1[w] == if w == b then s.mem[a] else s.mem[w]
    requires s.todo.Waiting(b) || WeakCar(|h0.mem|, s.segs, b)
    ensures a + 1 < |mem1|
    ensures Inv(h0, cg, Move(s, PairKind, a, b, 1, mem1, s.raw - {b}))
  {
    hide WellFormed, SegsStep, PlacesOk, MarksOk, CopiesApart, WhiteIntact, OldIntact, ObjectsWhole, CopiesTraced, PromotedTraced, SrcInCopies, ColoursOk, MetasOk, FreeOk,
      RangesOk, NewPagesOk;
    StSizes(h0, cg, s);
    WhiteWords(h0, cg, s.segs, s.fwd, a);
    var raw' := s.raw - {b};
    var n := UsedOf(h0, a) - 1;
    assert SizeOf(h0, a) == 2 && n == 1;
    MovePairColours(h0, cg, s, a, b, n, mem1);
    MoveMarks(h0, cg, s, a, b, mem1);
    MoveWhites(h0, cg, s, a, b, mem1);
    MoveOld(h0, cg, s, a, b, n, mem1);
    MoveCovers(h0, s, a, b, n);
    MovePlaces(h0, cg, s, a, b);
    MovePairTraced(h0, s, a, b, n);
    MovePairSources(h0, cg, s, a, b, n);
    MorePromoted(h0, cg, s.segs, s.src, s.src + Trace(a, b, n));
    MoveFree(h0, s, a, b, s.src + Trace(a, b, n), raw');
    MoveRegions(h0, cg, s, a, b, n, Marked(mem1, PairKind, a, b), raw');
  }

  /** The cdr of the copy of pair c is filled with the image of the cdr of c. */
  function Fill(s: St, c: nat, u: Word): St
    requires c in s.fwd && s.fwd[c] + 1 < |s.mem|
  {
    var w := s.fwd[c] + 1;
    s.(mem := s.mem[w := u], src := s.src[w := c + 1], raw := s.raw - {w})
  }

  ghost predicate Unfilled(h0: Heap, s: St, c: nat) {
    && c in s.fwd && c in h0.objs && h0.objs[c] == PairKind && c + 1 < |h0.mem| <= s.fwd[c] && s.fwd[c] + 1 < |s.mem|
    && s.fwd[c] + 1 in s.raw
  }

  lemma FillTraces(h0: Heap, cg: nat, s: St, c: nat, u: Word)
    requires WellFormed(h0) && Unfilled(h0, s, c) && CopiesApart(h0, s.fwd) && CopiesTraced(h0, s.fwd, s.src, s.raw)
    ensures CopiesTraced(h0, s.fwd, Fill(s, c, u).src, Fill(s, c, u).raw)
  {
    hide WellFormed;
    var w' := s.fwd[c] + 1;
    forall a | a in s.fwd && s.fwd[a] <= w' < s.fwd[a] + UsedOf(h0, a) ensures a == c {}
    var t := Fill(s, c, u);
    forall a, w | a in s.fwd && s.fwd[a] <= w < s.fwd[a] + UsedOf(h0, a) && w !in t.raw
      ensures w in t.src && t.src[w] == a + (w - s.fwd[a])
    {
      if w != w' { assert a in s.fwd && w !in s.raw; }
    }
  }

  lemma FillSources(h0: Heap, cg: nat, s: St, c: nat, u: Word)
    requires WellFormed(h0) && Unfilled(h0, s, c) && SegsStep(h0, cg, |s.mem|, s.segs) && cg <= OLDEST
    requires SourcesOk(h0, cg, s.segs, s.src, s.raw)
    ensures SourcesOk(h0, cg, s.segs, Fill(s, c, u).src, Fill(s, c, u).raw)
  {
    hide WellFormed, SegsStep;
    StSizes(h0, cg, s);
    WordGood(h0, c, c + 1);
    NewPageOlder(h0, cg, |s.mem|, s.segs, s.fwd[c] + 1);
  }

  lemma FillColours(h0: Heap, cg: nat, s: St, c: nat, u: Word)
    requires s.todo.Ok() && Unfilled(h0, s, c)
    requires SourcesOk(h0, cg, s.segs, s.src, s.raw)
    requires ColoursOk(h0, cg, s.mem, s.segs, s.fwd, s.src, s.todo)
    requires IsImage(cg, s.segs, s.fwd, h0.mem[c + 1], u)
    ensures ColoursOk(h0, cg, Fill(s, c, u).mem, s.segs, s.fwd, Fill(s, c, u).src, s.todo)
  {
  }

  lemma FillRegions(h0: Heap, cg: nat, s: St, c: nat, u: Word)
    requires s.todo.Ok() && |s.mem| == 512 * |s.segs| && Unfilled(h0, s, c)
    requires FreeOk(h0, s.fwd, s.src, s.raw, s.todo.meta)
    requires RangesOk(h0, cg, s.segs, s.src, s.todo) && NewPagesOk(h0, s.mem, s.segs, s.src, s.raw, s.todo.meta)
    ensures var t := Fill(s, c, u);
            && FreeOk(h0, t.fwd, t.src, t.raw, t.todo.meta)
            && RangesOk(h0, cg, t.segs, t.src, t.todo) && NewPagesOk(h0, t.mem, t.segs, t.src, t.raw, t.todo.meta)
  {
    var t := Fill(s, c, u);
    forall i, w: nat | Free(s.todo.meta, i, w) ensures w !in t.src && w !in t.raw { assert w !in s.src && w !in s.raw; }
    forall i, r | RangeOk(h0, cg, s.segs, s.src, s.todo.meta, i, r) ensures RangeOk(h0, cg, t.segs, t.src, t.todo.meta, i, r) {
      forall w | r.p <= w < r.q ensures Older(cg, t.segs, w) && (if w < |h0.mem| then w in t.src else SegOf(t.segs, w).typ == Pointers) { assert Older(cg, s.segs, w); }
    }
    forall w {:trigger t.mem[w]} | |h0.mem| <= w < |t.mem| && Scannable(SegOf(t.segs, w).typ)
      ensures w in t.src || t.mem[w].Imm? || w in t.raw || FreeWord(t.todo.meta, w)
    {
      if w != s.fwd[c] + 1 { assert t.mem[w] == s.mem[w]; }
    }
  }

  lemma FillOldPart(h0: Heap, cg: nat, s: St, c: nat, u: Word)
    requires WellFormed(h0) && Unfilled(h0, s, c) && PlacesOk(h0, cg, s.segs, s.fwd)
    requires MarksOk(h0, s.mem, s.fwd) && WhiteIntact(h0, cg, s.mem, s.segs, s.fwd)
    ensures |h0.mem| <= |s.mem|
    ensures MarksOk(h0, Fill(s, c, u).mem, s.fwd) && WhiteIntact(h0, cg, Fill(s, c, u).mem, s.segs, s.fwd)
  {
    OldPartKept(h0, cg, s.mem, Fill(s, c, u).mem, s.segs, s.fwd);
  }

  /** A step that changes neither the pages nor the agenda. */
  lemma InvFromParts(h0: Heap, cg: nat, s: St, t: St)
    requires Inv(h0, cg, s)
    requires t.segs == s.segs && t.fwd == s.fwd && t.todo == s.todo && |t.mem| == |s.mem|
    requires MarksOk(h0, t.mem, s.fwd) && WhiteIntact(h0, cg, t.mem, s.segs, s.fwd) && OldIntact(h0, cg, t.mem, t.src)
    requires CopiesTraced(h0, s.fwd, t.src, t.raw) && PromotedTraced(h0, cg, s.segs, t.src)
    requires SourcesOk(h0, cg, s.segs, t.src, t.raw) && SrcInCopies(h0, s.fwd, t.src)
    requires ColoursOk(h0, cg, t.mem, s.segs, s.fwd, t.src, s.todo)
    requires FreeOk(h0, s.fwd, t.src, t.raw, s.todo.meta) && RangesOk(h0, cg, s.segs, t.src, s.todo)
    requires NewPagesOk(h0, t.mem, s.segs, t.src, t.raw, s.todo.meta)
    ensures Inv(h0, cg, t)
  {
  }

  lemma FillOld(h0: Heap, cg: nat, s: St, c: nat, u: Word)
    requires Unfilled(h0, s, c) && OldIntact(h0, cg, s.mem, s.src) && |h0.mem| <= |s.mem|
    ensures OldIntact(h0, cg, Fill(s, c, u).mem, Fill(s, c, u).src)
  {
    OldIntactKept(h0, cg, s.mem, Fill(s, c, u).mem, s.src, Fill(s, c, u).src);
  }

  lemma FillCovers(h0: Heap, s: St, c: nat, u: Word)
    requires Unfilled(h0, s, c) && SrcInCopies(h0, s.fwd, s.src)
    ensures SrcInCopies(h0, s.fwd, Fill(s, c, u).src)
  {
    var w := s.fwd[c] + 1;
    assert c in s.fwd && s.fwd[c] <= w < s.fwd[c] + UsedOf(h0, c);
  }

  lemma FillKeepsInv(h0: Heap, cg: nat, s: St, c: nat, u: Word)
    requires Inv(h0, cg, s) && Unfilled(h0, s, c) && IsImage(cg, s.segs, s.fwd, h0.mem[c + 1], u)
    ensures Inv(h0, cg, Fill(s, c, u))
  {
    FillColours(h0, cg, s, c, u);
    FillTraces(h0, cg, s, c, u);
    FillSources(h0, cg, s, c, u);
    FillRegions(h0, cg, s, c, u);
    FillOldPart(h0, cg, s, c, u);
    FillOld(h0, cg, s, c, u);
    FillCovers(h0, s, c, u);
    MorePromoted(h0, cg, s.segs, s.src, Fill(s, c, u).src);
    InvFromParts(h0, cg, s, Fill(s, c, u));
  }

  // ---------- Promoting a large vector in place ----------

  function PromotedSegs(segs: seq<Seg>, first: nat, last: nat, seg: Seg): (s: seq<Seg>)
    requires first <= last < |segs|
    ensures |s| == |segs|
    ensures forall p {:trigger s[p]} :: 0 <= p < |segs| ==> s[p] == if first <= p <= last then seg else segs[p]
  {
    segs[..first] + seq(last - first + 1, _ => seg) + segs[last + 1..]
  }

  lemma RetaggedPage(cg: nat, s: St, a: nat, n: nat)
    requires s.todo.Ok() && 0 < n && a + n <= 512 * |s.segs|
    ensures a < 512 * |Promote(cg, s, a, n).segs| && SegOf(Promote(cg, s, a, n).segs, a) == Tagged(cg, Pointers, true)
  {
  }

  /** enqueue_large_ptr: retag the pages of the n words at a and queue the words. */
  function Promote(cg: nat, s: St, a: nat, n: nat): St
    requires s.todo.Ok() && 0 < n && a + n <= 512 * |s.segs|
  {
    s.(segs := PromotedSegs(s.segs, a / 512, (a + n - 1) / 512, Tagged(cg, Pointers, true)),
       src := s.src + Trace(a, a, n),
       todo := s.todo.(queues := s.todo.queues[MetaPtrs := [Range(a, a + n)] + s.todo.queues[MetaPtrs]]))
  }

  lemma PageStart(w: nat)
    ensures 512 * (w / 512) <= w && (512 * (w / 512)) / 512 == w / 512 && 512 * (w / 512) % 512 == 0
  {
  }

  lemma PageSpan(a: nat, c: nat, n: nat)
    requires a % 512 == 0 && 0 < n && a / 512 <= c / 512 <= (a + n - 1) / 512
    ensures a <= 512 * (c / 512) < a + n
  {
  }

  /** The pages of a large object hold nothing else. */
  lemma LargeAlone(h0: Heap, a: nat, c: nat)
    requires WellFormed(h0) && a in h0.objs && c in h0.objs && a < |h0.mem| && SegOf(h0.segs, a).large
    requires a / 512 <= c / 512 <= (a + UsedOf(h0, a) - 1) / 512
    ensures c == a
  {
    assert ObjectOk(h0, a) && ObjectOk(h0, c);
    PageStart(c);
    PageSpan(a, c, UsedOf(h0, a));
    var w := 512 * (c / 512);
    assert SegOf(h0.segs, w) == SegOf(h0.segs, c);
    assert SegOf(h0.segs, w) == SegOf(h0.segs, a);
    assert w % 512 == 0;
    LargeStart(c, w);
  }

  /** A page of a large object holds no word of another object either. */
  lemma LargeAloneWord(h0: Heap, a: nat, c: nat, w: nat)
    requires WellFormed(h0) && a in h0.objs && c in h0.objs && a < |h0.mem| && SegOf(h0.segs, a).large
    requires c <= w < c + UsedOf(h0, c) && a / 512 <= w / 512 <= (a + UsedOf(h0, a) - 1) / 512
    ensures c == a
  {
    assert ObjectOk(h0, a) && ObjectOk(h0, c);
    PageStart(w);
    PageSpan(a, w, UsedOf(h0, a));
    var p := 512 * (w / 512);
    assert SegOf(h0.segs, p) == SegOf(h0.segs, w);
    assert SegOf(h0.segs, p) == SegOf(h0.segs, a);
    assert SegOf(h0.segs, c).large;
    if c < p {
      assert c + SizeOf(h0, c) <= a || c == a;
    } else {
      LargeAlone(h0, a, c);
    }
  }

  lemma LargeStart(c: nat, w: nat)
    requires c % 512 == 0 && w == 512 * (c / 512)
    ensures c == w
  {
  }

  lemma PromotedPage(h0: Heap, cg: nat, len: nat, segs: seq<Seg>, a: nat, n: nat, p: nat)
    requires WellFormed(h0) && SegsStep(h0, cg, len, segs) && a in h0.objs && a < |h0.mem| && SegOf(h0.segs, a).large
    requires n == UsedOf(h0, a) && a / 512 <= p <= (a + n - 1) / 512
    ensures p < |h0.segs| && h0.segs[p] == SegOf(h0.segs, a)
  {
    assert ObjectOk(h0, a);
    var w := if p == a / 512 then a else 512 * p;
    PageStart(a);
    assert a <= w < a + SizeOf(h0, a) && w / 512 == p;
    assert SegOf(h0.segs, w) == SegOf(h0.segs, a);
  }

  lemma PromoteSegs(h0: Heap, cg: nat, s: St, a: nat, n: nat)
    requires WellFormed(h0) && SegsStep(h0, cg, |s.mem|, s.segs) && s.todo.Ok()
    requires White(h0, cg, s.segs, s.fwd, a) && a < |h0.mem| && SegOf(h0.segs, a).large && SegOf(h0.segs, a).gen <= cg
    requires n == UsedOf(h0, a) && 0 < n && a + n <= 512 * |s.segs|
    ensures SegsStep(h0, cg, |s.mem|, Promote(cg, s, a, n).segs)
  {
    var t := Promote(cg, s, a, n);
    var last := (a + n - 1) / 512;
    assert a / 512 <= last;
    PromotedPage(h0, cg, |s.mem|, s.segs, a, n, last);
    forall p {:trigger t.segs[p]} | 0 <= p < |h0.segs|
      ensures t.segs[p] == h0.segs[p] || (h0.segs[p].large && h0.segs[p].gen <= cg && t.segs[p] == Tagged(cg, Pointers, true))
    {
      if a / 512 <= p <= (a + n - 1) / 512 {
        PromotedPage(h0, cg, |s.mem|, s.segs, a, n, p);
      } else {
        assert t.segs[p] == s.segs[p];
      }
    }
    forall p {:trigger t.segs[p]} | |h0.segs| <= p < |t.segs|
      ensures t.segs[p] == Tagged(cg, t.segs[p].typ, t.segs[p].large) && (t.segs[p].large ==> t.segs[p].typ == Pointers) && Generational(t.segs[p].typ)
    {
      assert t.segs[p] == s.segs[p];
    }
  }

  /** How the page of a word changes. */
  ghost predicate PromotesTo(h0: Heap, cg: nat, segs: seq<Seg>, segs': seq<Seg>, a: nat, n: nat) {
    && |segs'| == |segs| && |h0.segs| <= |segs| && a + n <= |h0.mem| == 512 * |h0.segs|
    && (forall w {:trigger SegOf(segs', w)} {:trigger SegOf(segs, w)} :: 0 <= w < 512 * |segs| ==>
          SegOf(segs', w) == if a / 512 <= w / 512 <= (a + n - 1) / 512 then Tagged(cg, Pointers, true) else SegOf(segs, w))
    && (forall w {:trigger SegOf(segs', w)} {:trigger SegOf(segs, w)} :: |h0.mem| <= w < 512 * |segs| ==> SegOf(segs', w) == SegOf(segs, w))
    && (forall w {:trigger Older(cg, segs', w)} {:trigger Older(cg, segs, w)} :: 0 <= w && Older(cg, segs, w) ==> Older(cg, segs', w))
    && (forall w {:trigger Older(cg, segs', w)} :: a <= w < a + n ==> Older(cg, segs', w))
  }

  lemma PromoteChanges(h0: Heap, cg: nat, s: St, a: nat, n: nat)
    requires WellFormed(h0) && SegsStep(h0, cg, |s.mem|, s.segs) && s.todo.Ok() && cg <= OLDEST
    requires a in h0.objs && a < |h0.mem| && n == UsedOf(h0, a) && 0 < n && a + n <= |h0.mem|
    ensures PromotesTo(h0, cg, s.segs, Promote(cg, s, a, n).segs, a, n)
  {
    var segs' := Promote(cg, s, a, n).segs;
    forall w {:trigger SegOf(segs', w)} | 0 <= w < 512 * |s.segs|
      ensures SegOf(segs', w) == if a / 512 <= w / 512 <= (a + n - 1) / 512 then Tagged(cg, Pointers, true) else SegOf(s.segs, w)
    {
      assert segs'[w / 512] == if a / 512 <= w / 512 <= (a + n - 1) / 512 then Tagged(cg, Pointers, true) else s.segs[w / 512];
    }
    forall w | a <= w < a + n ensures Older(cg, segs', w) {
      assert a / 512 <= w / 512 <= (a + n - 1) / 512;
    }
  }

  lemma PromotePlaces(h0: Heap, cg: nat, segs: seq<Seg>, segs': seq<Seg>, fwd: map<nat, nat>, a: nat, n: nat)
    requires PromotesTo(h0, cg, segs, segs', a, n) && PlacesOk(h0, cg, segs, fwd)
    ensures PlacesOk(h0, cg, segs', fwd)
  {
    forall c | c in fwd ensures PlaceOk(h0, cg, segs', c, fwd[c]) {
      assert PlaceOk(h0, cg, segs, c, fwd[c]);
      assert SegOf(segs', fwd[c]) == SegOf(segs, fwd[c]);
    }
  }

  lemma PromoteWhites(h0: Heap, cg: nat, mem: seq<Word>, segs: seq<Seg>, segs': seq<Seg>, fwd: map<nat, nat>, a: nat, n: nat)
    requires WellFormed(h0) && |h0.mem| <= |mem| && PromotesTo(h0, cg, segs, segs', a, n)
    requires WhiteIntact(h0, cg, mem, segs, fwd)
    ensures WhiteIntact(h0, cg, mem, segs', fwd)
  {
    forall c | White(h0, cg, segs', fwd, c) ensures White(h0, cg, segs, fwd, c) {
      assert ObjectOk(h0, c);
      assert Older(cg, segs, c) ==> Older(cg, segs', c);
    }
  }

  lemma PromoteTraces(h0: Heap, cg: nat, segs: seq<Seg>, segs': seq<Seg>, src: map<nat, nat>, a: nat, n: nat)
    requires WellFormed(h0) && a in h0.objs && n == UsedOf(h0, a) && PromotesTo(h0, cg, segs, segs', a, n)
    requires a < |h0.mem| && SegOf(h0.segs, a).large
    requires PromotedTraced(h0, cg, segs, src)
    ensures PromotedTraced(h0, cg, segs', src + Trace(a, a, n))
  {
    forall c, w | 0 <= c <= w && c in h0.objs && Older(cg, segs', c) && !Older(cg, h0.segs, c) && w < c + UsedOf(h0, c)
      ensures w in src + Trace(a, a, n)
    {
      assert ObjectOk(h0, c);
      if a / 512 <= c / 512 <= (a + n - 1) / 512 {
        LargeAlone(h0, a, c);
      } else {
        assert SegOf(segs', c) == SegOf(segs, c);
        assert Older(cg, segs, c);
      }
    }
  }

  lemma PromoteWhole(h0: Heap, cg: nat, segs: seq<Seg>, segs': seq<Seg>, a: nat, n: nat)
    requires WellFormed(h0) && a in h0.objs && n == UsedOf(h0, a) && PromotesTo(h0, cg, segs, segs', a, n)
    requires a < |h0.mem| && SegOf(h0.segs, a).large
    requires ObjectsWhole(h0, cg, segs)
    ensures ObjectsWhole(h0, cg, segs')
  {
    forall c, w | 0 <= c <= w && c in h0.objs && w < c + UsedOf(h0, c) && Older(cg, segs', w) ensures Older(cg, segs', c) {
      assert ObjectOk(h0, c);
      if a / 512 <= w / 512 <= (a + n - 1) / 512 {
        LargeAloneWord(h0, a, c, w);
      } else {
        assert SegOf(segs', w) == SegOf(segs, w);
        assert Older(cg, segs, w);
      }
    }
  }

  lemma PromoteCopies(h0: Heap, cg: nat, segs: seq<Seg>, fwd: map<nat, nat>, src: map<nat, nat>, raw: set<nat>, a: nat, n: nat)
    requires PlacesOk(h0, cg, segs, fwd) && CopiesTraced(h0, fwd, src, raw) && a + n <= |h0.mem|
    ensures CopiesTraced(h0, fwd, src + Trace(a, a, n), raw)
  {
    forall c | c in fwd ensures |h0.mem| <= fwd[c] { assert PlaceOk(h0, cg, segs, c, fwd[c]); }
  }

  lemma PromoteSources(h0: Heap, cg: nat, segs: seq<Seg>, segs': seq<Seg>, src: map<nat, nat>, raw: set<nat>, a: nat, n: nat)
    requires WellFormed(h0) && a in h0.objs && n == UsedOf(h0, a) && PromotesTo(h0, cg, segs, segs', a, n)
    requires SourcesOk(h0, cg, segs, src, raw)
    requires h0.objs[a] == VectorKind
    requires forall w {:trigger w in raw} :: w in raw ==> |h0.mem| <= w
    ensures SourcesOk(h0, cg, segs', src + Trace(a, a, n), raw)
  {
    assert ObjectOk(h0, a);
    var src' := src + Trace(a, a, n);
    forall w | w in src'
      ensures src'[w] < |h0.mem| && w !in raw && Older(cg, segs', w) && (w < |h0.mem| ==> src'[w] == w) && GoodWord(h0.objs, h0.mem[src'[w]])
    {
      if w in Trace(a, a, n) {
        assert src'[w] == w;
        assert Older(cg, segs', w);
      } else {
        assert Older(cg, segs, w);
      }
    }
  }

  lemma PushWaiting(todo: Agenda, r: Range, w: nat)
    requires todo.Ok()
    ensures todo.(queues := todo.queues[MetaPtrs := [r] + todo.queues[MetaPtrs]]).Ok()
    ensures todo.Waiting(w) ==> todo.(queues := todo.queues[MetaPtrs := [r] + todo.queues[MetaPtrs]]).Waiting(w)
    ensures In(r, w) ==> todo.(queues := todo.queues[MetaPtrs := [r] + todo.queues[MetaPtrs]]).Waiting(w)
  {
    var todo' := todo.(queues := todo.queues[MetaPtrs := [r] + todo.queues[MetaPtrs]]);
    assert r in todo'.queues[MetaPtrs];
    forall q | q in todo.queues[MetaPtrs] ensures q in todo'.queues[MetaPtrs] {}
  }

  lemma PromoteColours(h0: Heap, cg: nat, s: St, a: nat, n: nat)
    requires WellFormed(h0) && s.todo.Ok() && |h0.mem| <= |s.mem| == 512 * |s.segs|
    requires White(h0, cg, s.segs, s.fwd, a) && n == UsedOf(h0, a) && 0 < n && a + n <= |h0.mem|
    requires PromotesTo(h0, cg, s.segs, Promote(cg, s, a, n).segs, a, n)
    requires WhiteIntact(h0, cg, s.mem, s.segs, s.fwd) && SourcesOk(h0, cg, s.segs, s.src, s.raw)
    requires ColoursOk(h0, cg, s.mem, s.segs, s.fwd, s.src, s.todo)
    ensures ColoursOk(h0, cg, s.mem, Promote(cg, s, a, n).segs, s.fwd, Promote(cg, s, a, n).src, Promote(cg, s, a, n).todo)
  {
    var t := Promote(cg, s, a, n);
    forall w | w in t.src
      ensures w < |t.mem| && t.src[w] < |h0.mem|
      ensures || IsImage(cg, t.segs, t.fwd, h0.mem[t.src[w]], t.mem[w])
              || ((t.todo.Waiting(w) || WeakCar(|h0.mem|, t.segs, w)) && t.mem[w] == h0.mem[t.src[w]])
    {
      PushWaiting(s.todo, Range(a, a + n), w);
      if a <= w < a + n {
        assert t.src[w] == w && t.mem[w] == h0.mem[w];
      } else {
        assert w in s.src && t.src[w] == s.src[w];
        OtherColour(h0, cg, s, t, a, n, w);
      }
    }
  }

  /** A word that is not promoted keeps its colour. */
  lemma OtherColour(h0: Heap, cg: nat, s: St, t: St, a: nat, n: nat, w: nat)
    requires s.todo.Ok() && t.todo.Ok() && |h0.mem| <= |s.mem| == 512 * |s.segs|
    requires PromotesTo(h0, cg, s.segs, t.segs, a, n) && t.fwd == s.fwd && t.mem == s.mem
    requires w in s.src && w in t.src && t.src[w] == s.src[w] && (s.todo.Waiting(w) ==> t.todo.Waiting(w))
    requires ColoursOk(h0, cg, s.mem, s.segs, s.fwd, s.src, s.todo)
    ensures w < |t.mem| && t.src[w] < |h0.mem|
    ensures || IsImage(cg, t.segs, t.fwd, h0.mem[t.src[w]], t.mem[w])
            || ((t.todo.Waiting(w) || WeakCar(|h0.mem|, t.segs, w)) && t.mem[w] == h0.mem[t.src[w]])
  {
    assert w < |h0.mem| || SegOf(t.segs, w) == SegOf(s.segs, w);
  }

  lemma PromoteRegions(h0: Heap, cg: nat, s: St, a: nat, n: nat)
    requires s.todo.Ok() && |s.mem| == 512 * |s.segs| && 0 < n && a + n <= 512 * |s.segs|
    requires a in h0.objs && n == UsedOf(h0, a)
    requires PromotesTo(h0, cg, s.segs, Promote(cg, s, a, n).segs, a, n)
    requires MetasOk(h0, cg, s.segs, s.todo.meta) && RangesOk(h0, cg, s.segs, s.src, s.todo)
    ensures Promote(cg, s, a, n).todo.Ok()
    ensures RangesOk(h0, cg, Promote(cg, s, a, n).segs, Promote(cg, s, a, n).src, Promote(cg, s, a, n).todo)
  {
    var t := Promote(cg, s, a, n);
    forall i, r | RangeOk(h0, cg, s.segs, s.src, s.todo.meta, i, r) ensures RangeOk(h0, cg, t.segs, t.src, t.todo.meta, i, r) {
      forall w | r.p <= w < r.q ensures Older(cg, t.segs, w) && (if w < |h0.mem| then w in t.src else SegOf(t.segs, w).typ == Pointers) { assert Older(cg, s.segs, w); }
    }
    forall i ensures a + n <= s.todo.meta[i].ap || s.todo.meta[i].ep <= a {
      assert MetaOk(h0, cg, s.segs, i, s.todo.meta[i]);
    }
    assert RangeOk(h0, cg, t.segs, t.src, t.todo.meta, MetaPtrs, Range(a, a + n));
  }

  lemma PromoteMetas(h0: Heap, cg: nat, s: St, a: nat, n: nat)
    requires s.todo.Ok() && |s.mem| == 512 * |s.segs| && 0 < n && a + n <= 512 * |s.segs|
    requires PromotesTo(h0, cg, s.segs, Promote(cg, s, a, n).segs, a, n)
    requires MetasOk(h0, cg, s.segs, s.todo.meta) && FreeOk(h0, s.fwd, s.src, s.raw, s.todo.meta)
    requires NewPagesOk(h0, s.mem, s.segs, s.src, s.raw, s.todo.meta)
    ensures MetasOk(h0, cg, Promote(cg, s, a, n).segs, s.todo.meta)
    ensures FreeOk(h0, s.fwd, Promote(cg, s, a, n).src, s.raw, s.todo.meta)
    ensures NewPagesOk(h0, s.mem, Promote(cg, s, a, n).segs, Promote(cg, s, a, n).src, s.raw, s.todo.meta)
  {
    var t := Promote(cg, s, a, n);
    forall i ensures MetaOk(h0, cg, t.segs, i, s.todo.meta[i]) { assert MetaOk(h0, cg, s.segs, i, s.todo.meta[i]); }
    forall i, w: nat | Free(s.todo.meta, i, w) ensures w !in t.src {
      assert MetaOk(h0, cg, s.segs, i, s.todo.meta[i]);
      assert w !in s.src;
    }
  }

  lemma PromoteKeepsInv(h0: Heap, cg: nat, s: St, a: nat, n: nat)
    requires Inv(h0, cg, s)
    requires White(h0, cg, s.segs, s.fwd, a) && a < |h0.mem| && SegOf(h0.segs, a).large && SegOf(h0.segs, a).gen <= cg
    requires h0.objs[a] == VectorKind && n == UsedOf(h0, a) && 0 < n && a + n <= |h0.mem|
    ensures a + n <= 512 * |s.segs|
    ensures Inv(h0, cg, Promote(cg, s, a, n))
  {
    hide WellFormed, SegsStep, PlacesOk, MarksOk, CopiesApart, WhiteIntact, OldIntact, ObjectsWhole, CopiesTraced, PromotedTraced, SrcInCopies, ColoursOk, MetasOk, FreeOk,
      RangesOk, NewPagesOk;
    StSizes(h0, cg, s);
    NewRaw(h0, s);
    var t := Promote(cg, s, a, n);
    PromoteSegs(h0, cg, s, a, n);
    PromoteChanges(h0, cg, s, a, n);
    PromotePlaces(h0, cg, s.segs, t.segs, s.fwd, a, n);
    PromoteWhites(h0, cg, s.mem, s.segs, t.segs, s.fwd, a, n);
    OldIntactKept(h0, cg, s.mem, s.mem, s.src, t.src);
    PromoteTraces(h0, cg, s.segs, t.segs, s.src, a, n);
    PromoteWhole(h0, cg, s.segs, t.segs, a, n);
    PromoteCopies(h0, cg, s.segs, s.fwd, s.src, s.raw, a, n);
    PromoteCovers(h0, s.fwd, s.src, a, n);
    PromoteSources(h0, cg, s.segs, t.segs, s.src, s.raw, a, n);
    PromoteColours(h0, cg, s, a, n);
    PromoteRegions(h0, cg, s, a, n);
    PromoteMetas(h0, cg, s, a, n);
    PromoteOnce(h0, cg, s, a, n);
  }

  lemma PromoteCovers(h0: Heap, fwd: map<nat, nat>, src: map<nat, nat>, a: nat, n: nat)
    requires SrcInCopies(h0, fwd, src) && a + n <= |h0.mem|
    ensures SrcInCopies(h0, fwd, src + Trace(a, a, n))
  {
  }

  lemma NewRaw(h0: Heap, s: St)
    requires s.todo.Ok() && |s.mem| == 512 * |s.segs| && NewPagesOk(h0, s.mem, s.segs, s.src, s.raw, s.todo.meta)
    ensures forall w {:trigger w in s.raw} :: w in s.raw ==> |h0.mem| <= w < |s.mem|
  {
  }

  lemma PromoteOnce(h0: Heap, cg: nat, s: St, a: nat, n: nat)
    requires s.todo.Ok() && MetasOk(h0, cg, s.segs, s.todo.meta) && RangesOk(h0, cg, s.segs, s.src, s.todo)
    requires ObjectsWhole(h0, cg, s.segs) && s.todo.Once()
    requires White(h0, cg, s.segs, s.fwd, a) && n == UsedOf(h0, a) && 0 < n && a + n <= |h0.mem| && a + n <= 512 * |s.segs|
    ensures Promote(cg, s, a, n).todo.Once()
  {
    hide MetasOk, RangesOk, ObjectsWhole, Hits;
    forall w: nat | In(Range(a, a + n), w) ensures s.todo.Times(w) == 0 {
      WhiteNotCounted(h0, cg, s.segs, s.fwd, s.src, s.todo, a, w);
    }
    PushOnce(s.todo, Range(a, a + n));
  }

  lemma PromoteLater(h0: Heap, cg: nat, s: St, a: nat, n: nat)
    requires s.todo.Ok() && 0 < n && a + n <= 512 * |s.segs| && |h0.mem| <= |s.mem| == 512 * |s.segs|
    requires PromotesTo(h0, cg, s.segs, Promote(cg, s, a, n).segs, a, n)
    requires SourcesOk(h0, cg, s.segs, s.src, s.raw) && cg <= OLDEST
    requires SegsStep(h0, cg, |s.mem|, s.segs)
    requires forall w {:trigger SegOf(s.segs, w)} :: 0 <= w < 512 * |s.segs| && a / 512 <= w / 512 <= (a + n - 1) / 512 ==> SegOf(s.segs, w).gen <= cg
    ensures Later(cg, s, Promote(cg, s, a, n))
  {
    var t := Promote(cg, s, a, n);
    forall w | w in s.src ensures w in t.src && t.src[w] == s.src[w] && w < |s.mem| {
      assert Older(cg, s.segs, w);
    }
    forall p {:trigger t.segs[p]} | 0 <= p < |s.segs| ensures t.segs[p] == s.segs[p] || (s.segs[p].gen <= cg < t.segs[p].gen) {
      assert SegOf(s.segs, 512 * p) == s.segs[p];
    }
    forall w | w in s.src ensures !In(Range(a, a + n), w) { assert Older(cg, s.segs, w); }
    PushDone(s, t, Range(a, a + n));
  }

  // ---------- What a move leaves as it was ----------

  function Whites(h0: Heap, cg: nat, segs: seq<Seg>, fwd: map<nat, nat>): (ws: set<nat>)
    ensures forall a {:trigger a in ws} :: a in ws <==> a in h0.objs && !Older(cg, segs, a) && a !in fwd
  {
    set a | a in h0.objs && !Older(cg, segs, a) && a !in fwd
  }

  lemma InFront(h0: Heap, segs: seq<Seg>)
    requires WellFormed(h0) && |h0.segs| <= |segs|
    ensures |h0.mem| == 512 * |h0.segs| <= 512 * |segs|
  {
  }

  lemma MoveLater(h0: Heap, cg: nat, s: St, k: Kind, a: nat, b: nat, n: nat, mem1: seq<Word>, raw1: set<nat>)
    requires WellFormed(h0) && |h0.segs| <= |s.segs| && |s.mem| == |mem1|
    requires White(h0, cg, s.segs, s.fwd, a) && SourcesOk(h0, cg, s.segs, s.src, s.raw) && |s.mem| == 512 * |s.segs|
    requires forall w {:trigger mem1[w]} :: 0 <= w < |mem1| && w !in s.raw ==> mem1[w] == s.mem[w]
    requires forall w {:trigger w in s.raw} :: b <= w < b + n ==> w in s.raw
    ensures a + 1 < |mem1|
    ensures Later(cg, s, Move(s, k, a, b, n, mem1, raw1))
    ensures Whites(h0, cg, s.segs, s.fwd[a := b]) < Whites(h0, cg, s.segs, s.fwd)
  {
    InFront(h0, s.segs);
    hide WellFormed, Whites, Agenda.Waiting, Agenda.Ok;
    WhiteWords(h0, cg, s.segs, s.fwd, a);
    var t := Move(s, k, a, b, n, mem1, raw1);
    forall w | w in s.src ensures w < |s.mem| && Marked(mem1, k, a, b)[w] == s.mem[w] && w !in Trace(a, b, n) {
      SurvivorStays(h0, cg, s, k, a, b, mem1, w);
    }
    hide Marked, Trace, SourcesOk, White;
    FewerWhites(h0, cg, s.segs, s.fwd, a, b);
  }

  lemma SurvivorStays(h0: Heap, cg: nat, s: St, k: Kind, a: nat, b: nat, mem1: seq<Word>, w: nat)
    requires SourcesOk(h0, cg, s.segs, s.src, s.raw) && w in s.src && |s.mem| == |mem1| == 512 * |s.segs| && a + 1 < |mem1|
    requires !Older(cg, s.segs, a) && !Older(cg, s.segs, a + 1) && (w !in s.raw && w < |mem1| ==> mem1[w] == s.mem[w])
    ensures w < |s.mem| && w !in s.raw && Marked(mem1, k, a, b)[w] == s.mem[w]
  {
    assert Older(cg, s.segs, w);
  }

  lemma FewerWhites(h0: Heap, cg: nat, segs: seq<Seg>, fwd: map<nat, nat>, a: nat, b: nat)
    requires White(h0, cg, segs, fwd, a)
    ensures Whites(h0, cg, segs, fwd[a := b]) < Whites(h0, cg, segs, fwd)
  {
    assert a in Whites(h0, cg, segs, fwd) && a !in Whites(h0, cg, segs, fwd[a := b]);
  }
}
