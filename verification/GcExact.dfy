/** The other half of the dirty scan: a card that has been scanned records no more than what it refers to. */
module GcExact {
  import opened Memory
  import opened GcState
  import opened GcSteps
  import opened GcMoves
  import opened GcGather
  import opened GcDirty

  /** Word w of an older page refers to a page that will be of generation k. */
  ghost predicate Refers(h0: Heap, cg: nat, s: St, k: nat, w: nat) {
    w < |h0.mem| &&
    var u := ImageOf(s.fwd, h0.mem[w]);
    && IsImage(cg, s.segs, s.fwd, h0.mem[w], u) && u.Ptr? && u.addr < 512 * |s.segs|
    && FinalGen(SegOf(s.segs, u.addr)) == k
  }

  ghost predicate SomeRefers(h0: Heap, cg: nat, s: St, k: nat, lo: nat, hi: nat) {
    exists w {:trigger Refers(h0, cg, s, k, w)} :: lo <= w < hi && Refers(h0, cg, s, k, w)
  }

  /** Every bit that is new is that of a generation that a word from lo to hi refers to. */
  ghost predicate NibbleFrom(h0: Heap, cg: nat, s: St, before: bv4, now: bv4, lo: nat, hi: nat) {
    forall k {:trigger GenBit(k)} :: 0 <= k <= 3 && now & GenBit(k) != 0 && before & GenBit(k) == 0 ==> SomeRefers(h0, cg, s, k, lo, hi)
  }

  /** Only bits of younger generations. */
  predicate OnlyYounger(bits: bv4, gen: nat) {
    forall k {:trigger GenBit(k)} :: 0 <= k <= 3 && bits & GenBit(k) != 0 ==> k < gen
  }

  lemma RefersKept(h0: Heap, cg: nat, s: St, t: St, k: nat, w: nat)
    requires Inv(h0, cg, s) && Inv(h0, cg, t) && Onward(cg, s, t) && Refers(h0, cg, s, k, w)
    ensures Refers(h0, cg, t, k, w)
  {
    var u := ImageOf(s.fwd, h0.mem[w]);
    ImageKept(h0, cg, s, t, h0.mem[w], u);
    ImageIsImageOf(cg, t.segs, t.fwd, h0.mem[w], u);
    ImagePage(h0, cg, s, h0.mem[w], u);
    assert t.segs[u.addr / 512] == s.segs[u.addr / 512];
  }

  lemma NibbleKept(h0: Heap, cg: nat, s: St, t: St, before: bv4, now: bv4, lo: nat, hi: nat)
    requires Inv(h0, cg, s) && Inv(h0, cg, t) && Onward(cg, s, t) && NibbleFrom(h0, cg, s, before, now, lo, hi)
    ensures NibbleFrom(h0, cg, t, before, now, lo, hi)
  {
    hide Inv, Onward, Refers;
    forall k {:trigger GenBit(k)} | 0 <= k <= 3 && now & GenBit(k) != 0 && before & GenBit(k) == 0 ensures SomeRefers(h0, cg, t, k, lo, hi) {
      assert SomeRefers(h0, cg, s, k, lo, hi);
      var w :| lo <= w < hi && Refers(h0, cg, s, k, w);
      RefersKept(h0, cg, s, t, k, w);
    }
  }

  lemma NibbleSame(h0: Heap, cg: nat, s: St, b: bv4, lo: nat, hi: nat)
    ensures NibbleFrom(h0, cg, s, b, b, lo, hi)
  {
  }

  /** One word more. */
  lemma NibbleMore(h0: Heap, cg: nat, s: St, t: St, before: bv4, mid: bv4, now: bv4, lo: nat, w: nat)
    requires Inv(h0, cg, s) && Inv(h0, cg, t) && Onward(cg, s, t) && lo <= w
    requires NibbleFrom(h0, cg, s, before, mid, lo, w) && NibbleFrom(h0, cg, t, mid, now, w, w + 1)
    ensures NibbleFrom(h0, cg, t, before, now, lo, w + 1)
  {
    hide Inv, Onward, Refers;
    NibbleKept(h0, cg, s, t, before, mid, lo, w);
    forall k {:trigger GenBit(k)} | 0 <= k <= 3 && now & GenBit(k) != 0 && before & GenBit(k) == 0 ensures SomeRefers(h0, cg, t, k, lo, w + 1) {
      if mid & GenBit(k) != 0 {
        assert SomeRefers(h0, cg, t, k, lo, w);
      } else {
        assert SomeRefers(h0, cg, t, k, w, w + 1);
      }
    }
  }

  lemma OneBit(x: bv4, g: nat, k: nat)
    requires k <= 3 && (x | GenBit(g)) & GenBit(k) != 0 && x & GenBit(k) == 0
    ensures g == k
  {
  }

  /** The word that has been scanned. */
  lemma NibbleOfWord(h0: Heap, cg: nat, t: St, w: nat, y: Word, bits: bv4)
    requires Inv(h0, cg, t) && w < |h0.mem| && w < |t.mem| && y.Ptr? && y.addr < 512 * |t.segs|
    requires IsImage(cg, t.segs, t.fwd, h0.mem[w], y)
    ensures NibbleFrom(h0, cg, Touch(t, w, y), bits, bits | t.segs[y.addr / 512].nib, w, w + 1)
  {
    ImageIsImageOf(cg, t.segs, t.fwd, h0.mem[w], y);
    ImagePage(h0, cg, t, h0.mem[w], y);
    var nib := SegOf(t.segs, y.addr).nib;
    var t' := Touch(t, w, y);
    forall k {:trigger GenBit(k)} | 0 <= k <= 3 && (bits | nib) & GenBit(k) != 0 && bits & GenBit(k) == 0 ensures SomeRefers(h0, cg, t', k, w, w + 1) {
      OneBit(bits, FinalGen(SegOf(t.segs, y.addr)), k);
      assert Refers(h0, cg, t', k, w);
    }
  }

  // ---------- Cards and pages ----------

  /** The bits that a card has before its words are looked at: none, or all, if it is skipped. */
  function Kept(cg: nat, was: bv4): bv4 {
    if was & DirtyNibble(cg) != 0 then 0 else was
  }

  /** The cards of page p up to the n-th. */
  ghost predicate CardsFrom(h0: Heap, cg: nat, s: St, was: seq<bv4>, now: seq<bv4>, p: nat)
    requires |now| <= |was|
  {
    forall c {:trigger now[c]} :: 0 <= c < |now| ==> NibbleFrom(h0, cg, s, Kept(cg, was[c]), now[c], 512 * p + 64 * c, 512 * p + 64 * c + 64)
  }

  lemma CardsFromGrow(h0: Heap, cg: nat, s: St, t: St, was: seq<bv4>, now: seq<bv4>, b: bv4, p: nat)
    requires Inv(h0, cg, s) && Inv(h0, cg, t) && Onward(cg, s, t) && |now| < |was| && CardsFrom(h0, cg, s, was, now, p)
    requires NibbleFrom(h0, cg, t, Kept(cg, was[|now|]), b, 512 * p + 64 * |now|, 512 * p + 64 * |now| + 64)
    ensures CardsFrom(h0, cg, t, was, now + [b], p)
  {
    hide Inv, Onward, NibbleFrom, Kept;
    var all := now + [b];
    forall c {:trigger all[c]} | 0 <= c < |all| ensures NibbleFrom(h0, cg, t, Kept(cg, was[c]), all[c], 512 * p + 64 * c, 512 * p + 64 * c + 64) {
      if c < |now| { NibbleKept(h0, cg, s, t, Kept(cg, was[c]), now[c], 512 * p + 64 * c, 512 * p + 64 * c + 64); }
    }
  }

  /** What the scan of page p makes of its cards. */
  ghost predicate PageFrom(h0: Heap, cg: nat, s: St, was: seq<bv4>, now: seq<bv4>, p: nat, gen: nat) {
    && |was| == |now| == 8 && CardsFrom(h0, cg, s, was, now, p)
    && (gen <= OLDEST ==> forall c {:trigger now[c]} :: 0 <= c < 8 ==> OnlyYounger(now[c], gen))
  }

  lemma CleanupYounger(x: bv4, gen: nat, stray: bv4)
    requires gen <= OLDEST
    ensures OnlyYounger(x & CleanupNibble(gen, stray), gen)
  {
    forall k {:trigger GenBit(k)} | 0 <= k <= 3 && (x & CleanupNibble(gen, stray)) & GenBit(k) != 0 ensures k < gen { CleanupBit(x, gen, stray, k); }
  }

  lemma CleanupBit(x: bv4, gen: nat, stray: bv4, k: nat)
    requires gen <= OLDEST && k <= 3 && (x & CleanupNibble(gen, stray)) & GenBit(k) != 0
    ensures k < gen
  {
  }

  lemma LessFrom(h0: Heap, cg: nat, s: St, before: bv4, now: bv4, mask: bv4, lo: nat, hi: nat)
    requires NibbleFrom(h0, cg, s, before, now, lo, hi)
    ensures NibbleFrom(h0, cg, s, before, now & mask, lo, hi)
  {
    hide SomeRefers;
    forall k {:trigger GenBit(k)} | 0 <= k <= 3 && (now & mask) & GenBit(k) != 0 && before & GenBit(k) == 0 ensures SomeRefers(h0, cg, s, k, lo, hi) {
      FewerBits(now, mask, GenBit(k));
    }
  }

  lemma FewerBits(x: bv4, mask: bv4, b: bv4)
    requires (x & mask) & b != 0
    ensures x & b != 0
  {
  }

  lemma CleanedFrom(h0: Heap, cg: nat, s: St, was: seq<bv4>, bits: seq<bv4>, gen: nat, stray: seq<bv4>, p: nat)
    requires |was| == |bits| == 8 == |stray| && CardsFrom(h0, cg, s, was, bits, p)
    ensures PageFrom(h0, cg, s, was, Cleaned(bits, gen, stray), p, gen)
  {
    hide NibbleFrom, OnlyYounger, Kept, CleanupNibble;
    var r := Cleaned(bits, gen, stray);
    forall c {:trigger r[c]} | 0 <= c < 8
      ensures NibbleFrom(h0, cg, s, Kept(cg, was[c]), r[c], 512 * p + 64 * c, 512 * p + 64 * c + 64)
      ensures gen <= OLDEST ==> OnlyYounger(r[c], gen)
    {
      assert NibbleFrom(h0, cg, s, Kept(cg, was[c]), bits[c], 512 * p + 64 * c, 512 * p + 64 * c + 64);
      LessFrom(h0, cg, s, Kept(cg, was[c]), bits[c], CleanupNibble(gen, stray[c]), 512 * p + 64 * c, 512 * p + 64 * c + 64);
      if gen <= OLDEST { CleanupYounger(bits[c], gen, stray[c]); }
    }
  }

  /** A page of an older generation with a dirty card. */
  predicate HasDirty(h0: Heap, cg: nat, was: seq<bv4>, p: nat) {
    && p < |h0.segs| && |was| == 8 && h0.segs[p].gen > cg && Scannable(h0.segs[p].typ)
    && exists c {:trigger was[c]} :: 0 <= c < 8 && was[c] & DirtyNibble(cg) != 0
  }

  /** A page is scanned if it has a dirty card, and maybe if it has been promoted; the others are as they were. */
  ghost predicate PageExact(h0: Heap, cg: nat, s: St, was: seq<bv4>, now: seq<bv4>, p: nat) {
    if now == was && !HasDirty(h0, cg, was, p) then true
    else exists gen {:trigger PageFrom(h0, cg, s, was, now, p, gen)} ::
           (p < |h0.segs| && h0.segs[p].gen > cg ==> gen == h0.segs[p].gen) && PageFrom(h0, cg, s, was, now, p, gen)
  }

  ghost predicate PagesExact(h0: Heap, cg: nat, s: St, was: seq<seq<bv4>>, now: seq<seq<bv4>>, n: nat) {
    n <= |was| && n <= |now| && forall p {:trigger now[p]} :: 0 <= p < n ==> PageExact(h0, cg, s, was[p], now[p], p)
  }

  lemma PageFromKept(h0: Heap, cg: nat, s: St, t: St, was: seq<bv4>, now: seq<bv4>, p: nat, gen: nat)
    requires Inv(h0, cg, s) && Inv(h0, cg, t) && Onward(cg, s, t) && PageFrom(h0, cg, s, was, now, p, gen)
    ensures PageFrom(h0, cg, t, was, now, p, gen)
  {
    hide Inv, Onward, NibbleFrom, OnlyYounger, Kept;
    forall c {:trigger now[c]} | 0 <= c < |now| ensures NibbleFrom(h0, cg, t, Kept(cg, was[c]), now[c], 512 * p + 64 * c, 512 * p + 64 * c + 64) {
      NibbleKept(h0, cg, s, t, Kept(cg, was[c]), now[c], 512 * p + 64 * c, 512 * p + 64 * c + 64);
    }
  }

  lemma PagesExactKept(h0: Heap, cg: nat, s: St, t: St, was: seq<seq<bv4>>, d: seq<seq<bv4>>, e: seq<seq<bv4>>, n: nat)
    requires Inv(h0, cg, s) && Inv(h0, cg, t) && Onward(cg, s, t) && PagesExact(h0, cg, s, was, d, n)
    requires |d| <= |e| && forall p {:trigger e[p]} :: 0 <= p < n ==> e[p] == d[p]
    ensures PagesExact(h0, cg, t, was, e, n)
  {
    hide Inv, Onward, PageFrom, HasDirty;
    forall p {:trigger e[p]} | 0 <= p < n ensures PageExact(h0, cg, t, was[p], e[p], p) {
      assert PageExact(h0, cg, s, was[p], d[p], p);
      if !(d[p] == was[p] && !HasDirty(h0, cg, was[p], p)) {
        var gen :| (p < |h0.segs| && h0.segs[p].gen > cg ==> gen == h0.segs[p].gen) && PageFrom(h0, cg, s, was[p], d[p], p, gen);
        PageFromKept(h0, cg, s, t, was[p], d[p], p, gen);
      }
    }
  }

  lemma NoWords(h0: Heap, cg: nat, s: St, w: nat)
    requires |h0.mem| == 512 * |h0.segs|
    ensures RangeDone(h0, cg, s, 0, w, w)
  {
  }

  lemma NoCards(h0: Heap, cg: nat, s: St, was: seq<bv4>, p: nat)
    requires |h0.mem| == 512 * |h0.segs|
    ensures CardsFrom(h0, cg, s, was, [], p) && CardsDone(h0, cg, s, [], p)
  {
  }

  lemma ScannedExact(h0: Heap, cg: nat, s: St, t: St, was: seq<bv4>, now: seq<bv4>, p: nat)
    requires Inv(h0, cg, s) && p < |h0.segs| && p < |s.segs| && PageFrom(h0, cg, t, was, now, p, s.segs[p].gen)
    ensures PageExact(h0, cg, t, was, now, p)
  {
    OlderPage(h0, cg, s, p);
  }

  lemma OlderPage(h0: Heap, cg: nat, s: St, p: nat)
    requires Inv(h0, cg, s) && p < |h0.segs|
    ensures p < |s.segs| && (h0.segs[p].gen > cg ==> s.segs[p] == h0.segs[p])
  {
  }

  lemma SkippedExact(h0: Heap, cg: nat, s: St, was: seq<bv4>, p: nat)
    requires Inv(h0, cg, s) && p < |h0.segs| && p < |s.segs| && |was| == 8
    requires !((exists c :: 0 <= c < 8 && was[c] & DirtyNibble(cg) != 0) && s.segs[p].gen > cg && Scannable(s.segs[p].typ))
    ensures PageExact(h0, cg, s, was, was, p)
  {
    OlderPage(h0, cg, s, p);
  }
}
