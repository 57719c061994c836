/** Tconcs: queues made of pairs, and the delivery of items to them at the end of a collection. */
module Tconc {
  import opened Memory
  import opened GcState
  import opened GcDirty
  import opened GcGuardians
  import opened Mutator
  import opened Collector
  import GcMoves

  // ---------- Queues ----------

  /** Pairs at these addresses have no word in common. */
  ghost predicate Spread(s: seq<nat>) {
    forall i, j {:trigger s[i], s[j]} :: 0 <= i < j < |s| ==> s[i] + 2 <= s[j] || s[j] + 2 <= s[i]
  }

  /** The pair tc refers to the first and to the last of the cells, and each cell to the next. */
  ghost predicate IsQueue(mem: seq<Word>, tc: nat, cells: seq<nat>) {
    && 0 < |cells| && tc + 1 < |mem| && (forall i {:trigger cells[i]} :: 0 <= i < |cells| ==> cells[i] + 1 < |mem|)
    && Spread([tc] + cells)
    && mem[tc] == Ptr(PairKind, cells[0]) && mem[tc + 1] == Ptr(PairKind, cells[|cells| - 1])
    && (forall i {:trigger cells[i]} :: 0 <= i < |cells| - 1 ==> mem[cells[i] + 1] == Ptr(PairKind, cells[i + 1]))
  }

  /** The items waiting in a queue; the last cell is only a place for the next item. */
  function Contents(mem: seq<Word>, cells: seq<nat>): (r: seq<Word>)
    ensures |r| == if cells == [] then 0 else |cells| - 1
    ensures forall i {:trigger r[i]} :: 0 <= i < |r| ==> r[i] == if cells[i] < |mem| then mem[cells[i]] else FALSE_OBJECT
  {
    seq(if cells == [] then 0 else |cells| - 1, i requires 0 <= i < |cells| => if cells[i] < |mem| then mem[cells[i]] else FALSE_OBJECT)
  }

  /** Memory after item has been put into the last cell of the queue tc, and the pair p added after it. */
  function Appended(mem: seq<Word>, tc: nat, last: nat, p: nat, item: Word): (r: seq<Word>)
    requires tc + 1 < |mem| && last + 1 < |mem| && p + 1 < |mem|
    ensures |r| == |mem|
  {
    mem[last := item][last + 1 := Ptr(PairKind, p)][p := FALSE_OBJECT][p + 1 := FALSE_OBJECT][tc + 1 := Ptr(PairKind, p)]
  }

  lemma AppendedAt(mem: seq<Word>, tc: nat, last: nat, p: nat, item: Word)
    requires tc + 1 < |mem| && last + 1 < |mem| && p + 1 < |mem|
    requires (tc + 2 <= last || last + 2 <= tc) && (tc + 2 <= p || p + 2 <= tc) && (p + 2 <= last || last + 2 <= p)
    ensures var m := Appended(mem, tc, last, p, item);
            && m[last] == item && m[last + 1] == Ptr(PairKind, p) && m[tc + 1] == Ptr(PairKind, p) && m[tc] == mem[tc]
            && m[p] == FALSE_OBJECT && m[p + 1] == FALSE_OBJECT
            && (forall w {:trigger m[w]} :: 0 <= w < |mem| && w != last && w != last + 1 && w != p && w != p + 1 && w != tc + 1 ==> m[w] == mem[w])
  {
  }

  lemma SpreadTail(tc: nat, cells: seq<nat>, p: nat)
    requires Spread([tc] + cells + [p])
    ensures forall i {:trigger cells[i]} :: 0 <= i < |cells| ==> (cells[i] + 2 <= p || p + 2 <= cells[i]) && (cells[i] + 2 <= tc || tc + 2 <= cells[i])
    ensures tc + 2 <= p || p + 2 <= tc
    ensures forall i, j {:trigger cells[i], cells[j]} :: 0 <= i < j < |cells| ==> cells[i] + 2 <= cells[j] || cells[j] + 2 <= cells[i]
  {
    var s := [tc] + cells + [p];
    assert s[0] == tc && s[|s| - 1] == p;
    forall i | 0 <= i < |cells| ensures s[i + 1] == cells[i] {}
    forall i | 0 <= i < |cells| ensures (cells[i] + 2 <= p || p + 2 <= cells[i]) && (cells[i] + 2 <= tc || tc + 2 <= cells[i]) {
      assert s[i + 1] == cells[i];
    }
    forall i, j | 0 <= i < j < |cells| ensures cells[i] + 2 <= cells[j] || cells[j] + 2 <= cells[i] {
      assert s[i + 1] == cells[i] && s[j + 1] == cells[j];
    }
  }

  lemma LinksKept(mem: seq<Word>, mem': seq<Word>, cells: seq<nat>, last: nat)
    requires 0 < |cells| && last == cells[|cells| - 1] && |mem'| == |mem|
    requires forall i {:trigger cells[i]} :: 0 <= i < |cells| ==> cells[i] + 1 < |mem|
    requires forall i {:trigger cells[i]} :: 0 <= i < |cells| - 1 ==> mem[cells[i] + 1] == Ptr(PairKind, cells[i + 1])
    requires forall i, j {:trigger cells[i], cells[j]} :: 0 <= i < j < |cells| ==> cells[i] + 2 <= cells[j] || cells[j] + 2 <= cells[i]
    requires forall i {:trigger cells[i]} :: 0 <= i < |cells| && (cells[i] + 2 <= last || last + 2 <= cells[i]) ==>
               mem'[cells[i]] == mem[cells[i]] && mem'[cells[i] + 1] == mem[cells[i] + 1]
    ensures forall i {:trigger cells[i]} :: 0 <= i < |cells| - 1 ==> mem'[cells[i]] == mem[cells[i]] && mem'[cells[i] + 1] == Ptr(PairKind, cells[i + 1])
  {
    forall i {:trigger cells[i]} | 0 <= i < |cells| - 1 ensures mem'[cells[i]] == mem[cells[i]] && mem'[cells[i] + 1] == Ptr(PairKind, cells[i + 1]) {
      var n := |cells| - 1;
      assert cells[i] + 2 <= cells[n] || cells[n] + 2 <= cells[i];
    }
  }

  /** One delivery appends one item to the queue, and the new last cell holds nothing. */
  lemma AppendQueue(mem: seq<Word>, tc: nat, cells: seq<nat>, p: nat, item: Word)
    requires IsQueue(mem, tc, cells) && p + 1 < |mem| && Spread([tc] + cells + [p])
    ensures var mem' := Appended(mem, tc, cells[|cells| - 1], p, item);
            && IsQueue(mem', tc, cells + [p]) && Contents(mem', cells + [p]) == Contents(mem, cells) + [item]
            && mem'[p] == FALSE_OBJECT && mem'[p + 1] == FALSE_OBJECT
  {
    hide Appended, Contents, Spread;
    var last := cells[|cells| - 1];
    var mem', cells' := Appended(mem, tc, last, p, item), cells + [p];
    assert [tc] + cells' == [tc] + cells + [p];
    AppendedCells(mem, tc, cells, p, item);
    assert forall i {:trigger cells'[i]} :: 0 <= i < |cells'| ==> cells'[i] == if i < |cells| then cells[i] else p;
    SameContents(mem, mem', cells, p, item);
  }

  /** What has become of the words of a queue. */
  lemma AppendedCells(mem: seq<Word>, tc: nat, cells: seq<nat>, p: nat, item: Word)
    requires IsQueue(mem, tc, cells) && p + 1 < |mem| && Spread([tc] + cells + [p])
    ensures var mem' := Appended(mem, tc, cells[|cells| - 1], p, item);
            && mem'[tc] == mem[tc] && mem'[tc + 1] == Ptr(PairKind, p) && mem'[p] == FALSE_OBJECT && mem'[p + 1] == FALSE_OBJECT
            && mem'[cells[|cells| - 1]] == item && mem'[cells[|cells| - 1] + 1] == Ptr(PairKind, p)
            && forall i {:trigger cells[i]} :: 0 <= i < |cells| - 1 ==> mem'[cells[i]] == mem[cells[i]] && mem'[cells[i] + 1] == Ptr(PairKind, cells[i + 1])
  {
    hide Appended, Spread;
    var n, last := |cells|, cells[|cells| - 1];
    SpreadTail(tc, cells, p);
    assert cells[n - 1] == last;
    AppendedAt(mem, tc, last, p, item);
    LinksKept(mem, Appended(mem, tc, last, p, item), cells, last);
  }

  lemma SameContents(mem: seq<Word>, mem': seq<Word>, cells: seq<nat>, p: nat, item: Word)
    requires 0 < |cells| && |mem'| == |mem| && forall i {:trigger cells[i]} :: 0 <= i < |cells| ==> cells[i] < |mem|
    requires forall i {:trigger cells[i]} :: 0 <= i < |cells| - 1 ==> mem'[cells[i]] == mem[cells[i]]
    requires mem'[cells[|cells| - 1]] == item
    ensures Contents(mem', cells + [p]) == Contents(mem, cells) + [item]
  {
    var n, x, y := |cells|, Contents(mem', cells + [p]), Contents(mem, cells) + [item];
    assert |x| == |y| == n;
    forall i | 0 <= i < n ensures x[i] == y[i] {
      assert (cells + [p])[i] == cells[i];
    }
  }

  /** Two queues have no pair in common. */
  ghost predicate Disjoint(tc: nat, cells: seq<nat>, tc': nat, cells': seq<nat>) {
    Spread([tc] + cells + ([tc'] + cells'))
  }

  /** A delivery to another queue changes nothing. */
  lemma AppendOther(mem: seq<Word>, tc: nat, last: nat, p: nat, item: Word, tc': nat, cells': seq<nat>)
    requires IsQueue(mem, tc', cells') && tc + 1 < |mem| && last + 1 < |mem| && p + 1 < |mem|
    requires Away([tc'] + cells', tc) && Away([tc'] + cells', last) && Away([tc'] + cells', p)
    ensures var mem' := Appended(mem, tc, last, p, item);
            IsQueue(mem', tc', cells') && Contents(mem', cells') == Contents(mem, cells')
  {
    var mem' := Appended(mem, tc, last, p, item);
    var s := [tc'] + cells';
    forall i | 0 <= i < |s| ensures s[i] + 1 < |mem| && mem'[s[i]] == mem[s[i]] && mem'[s[i] + 1] == mem[s[i] + 1] {
      assert i > 0 ==> s[i] == cells'[i - 1];
    }
    forall i | 0 <= i < |cells'| ensures mem'[cells'[i]] == mem[cells'[i]] && mem'[cells'[i] + 1] == mem[cells'[i] + 1] {
      assert s[i + 1] == cells'[i];
    }
    assert s[0] == tc';
    assert Contents(mem', cells') == Contents(mem, cells');
  }

  /** The pair at p has no word in common with the pairs of s. */
  ghost predicate Away(s: seq<nat>, p: nat) {
    forall i {:trigger s[i]} :: 0 <= i < |s| ==> s[i] + 2 <= p || p + 2 <= s[i]
  }

  // ---------- Many queues ----------

  /** All the queues, by the address of the tconc. */
  ghost predicate QueuesOk(mem: seq<Word>, queues: map<nat, seq<nat>>) {
    && (forall tc {:trigger tc in queues} :: tc in queues ==> IsQueue(mem, tc, queues[tc]))
    && (forall tc, tc' {:trigger tc in queues, tc' in queues} ::
          tc in queues && tc' in queues && tc != tc' ==> AllAway([tc] + queues[tc], [tc'] + queues[tc']))
  }

  ghost predicate AllAway(s: seq<nat>, t: seq<nat>) {
    forall i {:trigger t[i]} :: 0 <= i < |t| ==> Away(s, t[i])
  }

  ghost predicate EntryFresh(mem: seq<Word>, queues: map<nat, seq<nat>>, p: Word) {
    && p.Ptr? && p.addr + 1 < |mem| && mem[p.addr].Ptr? && mem[p.addr].addr in queues
    && (forall tc {:trigger tc in queues} :: tc in queues ==> Away([tc] + queues[tc], p.addr))
  }

  /** The entries are pairs that are in no queue, and are all different; each has for its car the tconc of a queue. */
  ghost predicate EntriesFresh(mem: seq<Word>, queues: map<nat, seq<nat>>, es: seq<Word>) {
    && (forall k {:trigger es[k]} :: 0 <= k < |es| ==> EntryFresh(mem, queues, es[k]))
    && (forall k, l {:trigger es[k], es[l]} :: 0 <= k < l < |es| ==> es[k].addr + 2 <= es[l].addr || es[l].addr + 2 <= es[k].addr)
  }

  /** Word i of the pair that p refers to. */
  function Field(mem: seq<Word>, p: Word, i: nat): Word {
    if p.Ptr? && p.addr + i < |mem| then mem[p.addr + i] else FALSE_OBJECT
  }

  /** The items that the entries hold for one tconc, in order. */
  function Delivered(mem: seq<Word>, es: seq<Word>, tc: nat): seq<Word> {
    if es == [] then []
    else (if Field(mem, es[0], 0) == Ptr(PairKind, tc) then [Field(mem, es[0], 1)] else []) + Delivered(mem, es[1..], tc)
  }

  // ---------- One delivery in a world of queues ----------

  /** The last cell of the queue tc. */
  function LastCell(queues: map<nat, seq<nat>>, tc: nat): nat
    requires tc in queues && |queues[tc]| > 0
  {
    queues[tc][|queues[tc]| - 1]
  }

  lemma QueueAway(mem: seq<Word>, queues: map<nat, seq<nat>>, tc: nat, tc': nat)
    requires QueuesOk(mem, queues) && tc in queues && tc' in queues && tc != tc'
    ensures IsQueue(mem, tc, queues[tc]) && Away([tc'] + queues[tc'], tc) && Away([tc'] + queues[tc'], LastCell(queues, tc))
  {
    var s := [tc] + queues[tc];
    assert s[0] == tc && s[|queues[tc]|] == LastCell(queues, tc);
    assert Away([tc'] + queues[tc'], s[0]) && Away([tc'] + queues[tc'], s[|queues[tc]|]);
  }

  lemma AwaySpread(tc: nat, cells: seq<nat>, p: nat)
    requires Spread([tc] + cells) && Away([tc] + cells, p)
    ensures Spread([tc] + cells + [p])
  {
    var s, t := [tc] + cells, [tc] + cells + [p];
    forall i, j {:trigger t[i], t[j]} | 0 <= i < j < |t| ensures t[i] + 2 <= t[j] || t[j] + 2 <= t[i] {
      assert t[i] == s[i];
      assert j < |s| ==> t[j] == s[j];
    }
  }

  lemma DeliverQueues(mem: seq<Word>, queues: map<nat, seq<nat>>, tc: nat, p: nat, item: Word)
    requires QueuesOk(mem, queues) && tc in queues && p + 1 < |mem|
    requires forall tc' {:trigger tc' in queues} :: tc' in queues ==> Away([tc'] + queues[tc'], p)
    ensures IsQueue(mem, tc, queues[tc]) && (forall tc' {:trigger tc' in queues} :: tc' in queues ==> IsQueue(mem, tc', queues[tc']))
    ensures var mem', queues' := Appended(mem, tc, LastCell(queues, tc), p, item), queues[tc := queues[tc] + [p]];
            && QueuesOk(mem', queues')
            && (forall tc' {:trigger tc' in queues} :: tc' in queues ==>
                  Contents(mem', queues'[tc']) == Contents(mem, queues[tc']) + if tc' == tc then [item] else [])
  {
    var mem', queues' := Appended(mem, tc, LastCell(queues, tc), p, item), queues[tc := queues[tc] + [p]];
    AwaySpread(tc, queues[tc], p);
    AppendQueue(mem, tc, queues[tc], p, item);
    forall tc' | tc' in queues && tc' != tc
      ensures IsQueue(mem', tc', queues[tc']) && Contents(mem', queues[tc']) == Contents(mem, queues[tc'])
    {
      QueueAway(mem, queues, tc, tc');
      AppendOther(mem, tc, LastCell(queues, tc), p, item, tc', queues[tc']);
    }
    forall x, y | x in queues' && y in queues' && x != y
      ensures AllAway([x] + queues'[x], [y] + queues'[y])
    {
      StillAway(mem, queues, tc, p, x, y);
    }
  }

  lemma StillAway(mem: seq<Word>, queues: map<nat, seq<nat>>, tc: nat, p: nat, x: nat, y: nat)
    requires QueuesOk(mem, queues) && tc in queues && x in queues && y in queues && x != y
    requires forall tc' {:trigger tc' in queues} :: tc' in queues ==> Away([tc'] + queues[tc'], p)
    ensures var queues' := queues[tc := queues[tc] + [p]]; AllAway([x] + queues'[x], [y] + queues'[y])
  {
    var queues' := queues[tc := queues[tc] + [p]];
    var s, s', t, t' := [x] + queues[x], [x] + queues'[x], [y] + queues[y], [y] + queues'[y];
    forall i {:trigger t'[i]} | 0 <= i <= |queues'[y]| ensures Away(s', t'[i]) {
      forall j {:trigger s'[j]} | 0 <= j < |s'| ensures s'[j] + 2 <= t'[i] || t'[i] + 2 <= s'[j] {
        if i < |t| && j < |s| {
          assert t'[i] == t[i] && s'[j] == s[j];
          assert Away(s, t[i]);
        } else if i < |t| {
          assert s'[j] == p && t'[i] == t[i];
        } else {
          assert t'[i] == p && s'[j] == s[j];
        }
      }
    }
  }

  // ---------- In the heap ----------

  /** A pair of the heap that holds both its fields strongly. */
  ghost predicate StrongPair(h: Heap, a: nat) {
    a in h.objs && h.objs[a] == PairKind && a < 512 * |h.segs| && SegOf(h.segs, a).typ != WeakPairs
  }

  /** The tconcs and the cells of all the queues are such pairs. */
  ghost predicate QueuesInHeap(h: Heap, queues: map<nat, seq<nat>>) {
    forall tc {:trigger tc in queues} :: tc in queues ==>
      StrongPair(h, tc) && forall i {:trigger queues[tc][i]} :: 0 <= i < |queues[tc]| ==> StrongPair(h, queues[tc][i])
  }

  /** So are the cells of the entries. */
  ghost predicate EntriesStrong(h: Heap, es: seq<Word>) {
    forall p {:trigger p in es} :: p in es ==> EntryOk(h, p) && StrongPair(h, p.addr)
  }

  /** The writes of one delivery, one after the other, with the pages of the tconc and of its last cell marked. */
  lemma AppendKeepsSound(h: Heap, dirty: seq<seq<bv4>>, tc: nat, last: nat, p: nat, item: Word)
    requires Sound(h, dirty) && GoodWord(h.objs, item) && tc + 1 < |h.mem| && last + 1 < |h.mem| && p + 1 < |h.mem|
    requires GoodWord(h.objs, Ptr(PairKind, tc)) && GoodWord(h.objs, Ptr(PairKind, last)) && GoodWord(h.objs, Ptr(PairKind, p))
    ensures tc < 512 * |dirty| && last < 512 * |dirty|
    ensures Sound(h.(mem := Appended(h.mem, tc, last, p, item)), Signalled(Signalled(dirty, tc), last))
  {
    hide Sound;
    PairSlots(h, dirty, tc);
    PairSlots(h, dirty, last);
    WriteKeepsSound(h, dirty, last, 0, item);
    var h1, d1 := Written(h, last, item), Signalled(dirty, last);
    PairSlots(h1, d1, last);
    WriteKeepsSound(h1, d1, last, 1, Ptr(PairKind, p));
    var h2, d2 := Written(h1, last + 1, Ptr(PairKind, p)), Signalled(d1, last + 1);
    PairSlots(h2, d2, p);
    ImmWriteKeepsSound(h2, d2, p, 0, 0x2F);
    var h3 := Written(h2, p, FALSE_OBJECT);
    PairSlots(h3, d2, p);
    ImmWriteKeepsSound(h3, d2, p, 1, 0x2F);
    var h4 := Written(h3, p + 1, FALSE_OBJECT);
    PairSlots(h4, d2, tc);
    WriteKeepsSound(h4, d2, tc, 1, Ptr(PairKind, p));
    var h5, d5 := Written(h4, tc + 1, Ptr(PairKind, p)), Signalled(d2, tc + 1);
    assert h5 == h.(mem := Appended(h.mem, tc, last, p, item));
    SamePages(dirty, tc, last);
    assert d5 == Signalled(Signalled(dirty, tc), last);
  }

  lemma SamePages(dirty: seq<seq<bv4>>, tc: nat, last: nat)
    requires tc % 2 == 0 && last % 2 == 0 && tc + 1 < 512 * |dirty| && last + 1 < 512 * |dirty|
    ensures Signalled(Signalled(Signalled(dirty, last), last + 1), tc + 1) == Signalled(Signalled(dirty, tc), last)
  {
    GcMoves.SamePage(tc);
    GcMoves.SamePage(last);
  }

  lemma PairSlots(h: Heap, dirty: seq<seq<bv4>>, a: nat)
    requires Sound(h, dirty) && a in h.objs && h.objs[a] == PairKind && a + 1 < |h.mem|
    ensures Slot(h, a, 0) && Slot(h, a, 1) && |h.mem| == 512 * |dirty| && a % 2 == 0
  {
    assert ObjectOk(h, a);
  }

  lemma EntryGood(h: Heap, dirty: seq<seq<bv4>>, p: nat)
    requires Sound(h, dirty) && p in h.objs && h.objs[p] == PairKind
    ensures p + 1 < |h.mem| && GoodWord(h.objs, h.mem[p]) && GoodWord(h.objs, h.mem[p + 1])
  {
    PairGood(h, p, 0);
    PairGood(h, p, 1);
  }

  /** One entry of the forward list: the object goes into the last cell of the tconc, and the entry itself
      becomes the new last cell. */
  method DeliverOne(gc: Gc, p: Word, ghost queues: map<nat, seq<nat>>)
    requires Sound(gc.Heap(), gc.dirty) && QueuesOk(gc.mem, queues) && QueuesInHeap(gc.Heap(), queues)
    requires EntryOk(gc.Heap(), p) && EntriesFresh(gc.mem, queues, [p])
    modifies gc`mem, gc`dirty
    ensures p.addr + 1 < old(|gc.mem|) && old(gc.mem)[p.addr].Ptr? && old(gc.mem)[p.addr].addr in queues
    ensures var tc := old(gc.mem)[p.addr].addr;
            && IsQueue(old(gc.mem), tc, queues[tc])
            && gc.mem == Appended(old(gc.mem), tc, LastCell(queues, tc), p.addr, old(gc.mem)[p.addr + 1])
    ensures Sound(gc.Heap(), gc.dirty)
  {
    hide Sound;
    assert [p][0] == p;
    ghost var h, d := gc.Heap(), gc.dirty;
    EntryGood(h, d, p.addr);
    var tc := gc.mem[p.addr].addr;
    var obj := gc.mem[p.addr + 1];
    assert IsQueue(gc.mem, tc, queues[tc]);
    var last := gc.mem[tc + 1].addr;
    assert queues[tc][|queues[tc]| - 1] == last;
    AppendKeepsSound(h, d, tc, last, p.addr, obj);
    gc.mem := gc.mem[last := obj];
    gc.mem := gc.mem[last + 1 := p];
    gc.mem := gc.mem[p.addr := FALSE_OBJECT];
    gc.mem := gc.mem[p.addr + 1 := FALSE_OBJECT];
    gc.mem := gc.mem[tc + 1 := p];
    gc.dirty := gc.dirty[tc / 512 := DIRTY_PAGE];
    gc.dirty := gc.dirty[last / 512 := DIRTY_PAGE];
    assert gc.Heap() == h.(mem := Appended(h.mem, tc, last, p.addr, obj));
  }

  /** After the first n of the entries es have been delivered, starting from memory m0. */
  ghost predicate DeliveredTo(m0: seq<Word>, m: seq<Word>, queues0: map<nat, seq<nat>>, queues: map<nat, seq<nat>>, es: seq<Word>, n: nat)
  {
    && n <= |es| && |m| == |m0|
    && QueuesOk(m0, queues0) && QueuesOk(m, queues) && queues.Keys == queues0.Keys
    && EntriesFresh(m, queues, es[n..])
    && (forall k {:trigger es[k]} :: n <= k < |es| ==> Field(m, es[k], 0) == Field(m0, es[k], 0) && Field(m, es[k], 1) == Field(m0, es[k], 1))
    && (forall tc {:trigger tc in queues0} :: tc in queues0 ==>
          Contents(m, queues[tc]) == Contents(m0, queues0[tc]) + Delivered(m0, es[..n], tc))
  }

  lemma DeliveredStart(m0: seq<Word>, queues0: map<nat, seq<nat>>, es: seq<Word>)
    requires QueuesOk(m0, queues0) && EntriesFresh(m0, queues0, es)
    ensures DeliveredTo(m0, m0, queues0, queues0, es, 0)
  {
    assert es[0..] == es && es[..0] == [];
  }

  lemma {:induction false} DeliveredMore(m0: seq<Word>, es: seq<Word>, n: nat, tc: nat)
    requires n < |es|
    ensures Delivered(m0, es[..n + 1], tc) ==
              Delivered(m0, es[..n], tc) + if Field(m0, es[n], 0) == Ptr(PairKind, tc) then [Field(m0, es[n], 1)] else []
  {
    if n == 0 {
      assert es[..1][1..] == [] && es[..0] == [];
    } else {
      DeliveredMore(m0, es[1..], n - 1, tc);
      assert es[..n + 1][1..] == es[1..][..n] && es[..n][1..] == es[1..][..n - 1];
      assert es[..n + 1][0] == es[0] == es[..n][0];
    }
  }

  /** The entries left are untouched by a delivery, and away from the queues as they are now. */
  lemma FreshAfter(m: seq<Word>, queues: map<nat, seq<nat>>, es: seq<Word>, tc: nat)
    requires |es| > 0 && QueuesOk(m, queues) && EntriesFresh(m, queues, es) && m[es[0].addr] == Ptr(PairKind, tc) && tc in queues
    ensures IsQueue(m, tc, queues[tc])
    ensures var m', queues' := Appended(m, tc, LastCell(queues, tc), es[0].addr, m[es[0].addr + 1]), queues[tc := queues[tc] + [es[0].addr]];
            && EntriesFresh(m', queues', es[1..])
            && forall k {:trigger es[k]} :: 1 <= k < |es| ==> Field(m', es[k], 0) == Field(m, es[k], 0) && Field(m', es[k], 1) == Field(m, es[k], 1)
  {
    var p, rest := es[0].addr, es[1..];
    var m', queues' := Appended(m, tc, LastCell(queues, tc), p, m[p + 1]), queues[tc := queues[tc] + [p]];
    assert es[0] == es[0];
    forall k {:trigger es[k]} | 1 <= k < |es|
      ensures Field(m', es[k], 0) == Field(m, es[k], 0) && Field(m', es[k], 1) == Field(m, es[k], 1)
      ensures forall x {:trigger x in queues'} :: x in queues' ==> Away([x] + queues'[x], es[k].addr)
    {
      var q := es[k].addr;
      assert es[0].addr + 2 <= es[k].addr || es[k].addr + 2 <= es[0].addr;
      EntryAway(queues, tc, q);
      forall x | x in queues' ensures Away([x] + queues'[x], q) {
        if x == tc { AwayMore([tc] + queues[tc], p, q); assert [tc] + queues'[tc] == [tc] + queues[tc] + [p]; }
      }
    }
    forall k {:trigger rest[k]} | 0 <= k < |rest| ensures rest[k] == es[k + 1] {}
  }

  lemma EntryAway(queues: map<nat, seq<nat>>, tc: nat, q: nat)
    requires tc in queues && |queues[tc]| > 0 && Away([tc] + queues[tc], q)
    ensures (tc + 2 <= q || q + 2 <= tc) && (LastCell(queues, tc) + 2 <= q || q + 2 <= LastCell(queues, tc))
  {
    var s := [tc] + queues[tc];
    assert s[0] == tc && s[|queues[tc]|] == LastCell(queues, tc);
  }

  lemma AwayMore(s: seq<nat>, p: nat, q: nat)
    requires Away(s, q) && (p + 2 <= q || q + 2 <= p)
    ensures Away(s + [p], q)
  {
  }

  /** One more entry. */
  lemma DeliveredStep(m0: seq<Word>, m: seq<Word>, queues0: map<nat, seq<nat>>, queues: map<nat, seq<nat>>, es: seq<Word>, n: nat)
    requires DeliveredTo(m0, m, queues0, queues, es, n) && n < |es| && Field(m, es[n], 0).Ptr? && Field(m, es[n], 0).kind == PairKind
    ensures var p, tc := es[n].addr, Field(m, es[n], 0).addr;
            && tc in queues && IsQueue(m, tc, queues[tc]) && p + 1 < |m|
            && DeliveredTo(m0, Appended(m, tc, LastCell(queues, tc), p, Field(m, es[n], 1)), queues0, queues[tc := queues[tc] + [p]], es, n + 1)
  {
    hide QueuesOk, Away, Spread, Appended, AllAway, IsQueue, Contents, Delivered;
    var rest := es[n..];
    assert rest[0] == es[n] && rest[1..] == es[n + 1..];
    FreshHead(m, queues, rest);
    var p, tc := es[n].addr, Field(m, es[n], 0).addr;
    DeliverQueues(m, queues, tc, p, m[p + 1]);
    FreshAfter(m, queues, rest, tc);
    assert queues[tc := queues[tc] + [p]].Keys == queues.Keys;
    var m' := Appended(m, tc, LastCell(queues, tc), p, m[p + 1]);
    forall k {:trigger es[k]} | n + 1 <= k < |es| ensures Field(m', es[k], 0) == Field(m0, es[k], 0) && Field(m', es[k], 1) == Field(m0, es[k], 1) {
      assert rest[k - n] == es[k];
    }
    forall x | x in queues0
      ensures Contents(m', queues[tc := queues[tc] + [p]][x]) == Contents(m0, queues0[x]) + Delivered(m0, es[..n + 1], x)
    {
      DeliveredMore(m0, es, n, x);
      assert x in queues;
    }
  }

  lemma FreshHead(m: seq<Word>, queues: map<nat, seq<nat>>, es: seq<Word>)
    requires EntriesFresh(m, queues, es) && |es| > 0
    ensures es[0].Ptr? && es[0].addr + 1 < |m| && m[es[0].addr].Ptr? && m[es[0].addr].addr in queues
    ensures forall x {:trigger x in queues} :: x in queues ==> Away([x] + queues[x], es[0].addr)
  {
    assert es[0] == es[0];
  }

  lemma QueuesStay(h: Heap, queues: map<nat, seq<nat>>, tc: nat, p: nat)
    requires QueuesInHeap(h, queues) && tc in queues && StrongPair(h, p)
    ensures QueuesInHeap(h, queues[tc := queues[tc] + [p]])
  {
    hide StrongPair;
    var q := queues[tc] + [p];
    forall i {:trigger q[i]} | 0 <= i < |q| ensures StrongPair(h, q[i]) {
      if i < |queues[tc]| { assert q[i] == queues[tc][i]; }
    }
  }

  /** The entries of one page of the forward list. */
  method DeliverPage(gc: Gc, page: seq<Word>, ghost m0: seq<Word>, ghost queues0: map<nat, seq<nat>>, ghost es: seq<Word>, ghost base: nat,
                     ghost queues1: map<nat, seq<nat>>)
    returns (ghost queues: map<nat, seq<nat>>)
    requires Sound(gc.Heap(), gc.dirty) && QueuesInHeap(gc.Heap(), queues1) && EntriesStrong(gc.Heap(), es)
    requires base + |page| <= |es| && page == es[base..base + |page|]
    requires DeliveredTo(m0, gc.mem, queues0, queues1, es, base)
    modifies gc`mem, gc`dirty
    ensures Sound(gc.Heap(), gc.dirty) && QueuesInHeap(gc.Heap(), queues) && EntriesStrong(gc.Heap(), es)
    ensures DeliveredTo(m0, gc.mem, queues0, queues, es, base + |page|)
  {
    hide Sound, IsQueue, QueuesOk, EntriesFresh, DeliveredTo;
    queues := queues1;
    var i: nat := 0;
    while i < |page|
      invariant i <= |page|
      invariant Sound(gc.Heap(), gc.dirty) && QueuesInHeap(gc.Heap(), queues) && EntriesStrong(gc.Heap(), es)
      invariant DeliveredTo(m0, gc.mem, queues0, queues, es, base + i)
    {
      ghost var n, m := base + i, gc.mem;
      assert page[i] == es[n] && es[n] in es;
      NextFresh(gc.Heap(), gc.dirty, m0, m, queues0, queues, es, n);
      DeliveredStep(m0, m, queues0, queues, es, n);
      DeliverOne(gc, page[i], queues);
      ghost var p := page[i].addr;
      QueuesStay(gc.Heap(), queues, m[p].addr, p);
      queues := queues[m[p].addr := queues[m[p].addr] + [p]];
      i := i + 1;
    }
  }

  lemma NextFresh(h: Heap, dirty: seq<seq<bv4>>, m0: seq<Word>, m: seq<Word>, queues0: map<nat, seq<nat>>, queues: map<nat, seq<nat>>, es: seq<Word>, n: nat)
    requires Sound(h, dirty) && m == h.mem && DeliveredTo(m0, m, queues0, queues, es, n) && n < |es| && EntryOk(h, es[n]) && QueuesInHeap(h, queues)
    ensures QueuesOk(m, queues) && EntriesFresh(m, queues, [es[n]])
    ensures es[n].addr + 1 < |m| && m[es[n].addr].Ptr? && m[es[n].addr].kind == PairKind && m[es[n].addr].addr in queues
  {
    hide Sound;
    assert es[n..][0] == es[n];
    OneFresh(h, dirty, m, queues, es[n..], es[n]);
    FreshHead(m, queues, es[n..]);
  }

  /** gc_finalize_guardians: every queue gets its items at the end, in order, and the heap stays sound. Entries that are
      not in the forward list, here any others, are left alone. */
  method FinalizeGuardians(gc: Gc, ghost others: seq<Word>, ghost queues0: map<nat, seq<nat>>) returns (ghost queues: map<nat, seq<nat>>)
    requires Sound(gc.Heap(), gc.dirty) && QueuesOk(gc.mem, queues0) && QueuesInHeap(gc.Heap(), queues0)
    requires EntriesStrong(gc.Heap(), Flat(gc.forwardList) + others) && EntriesFresh(gc.mem, queues0, Flat(gc.forwardList) + others)
    modifies gc`mem, gc`dirty
    ensures Sound(gc.Heap(), gc.dirty) && QueuesOk(gc.mem, queues) && QueuesInHeap(gc.Heap(), queues) && queues.Keys == queues0.Keys
    ensures forall tc {:trigger tc in queues0} :: tc in queues0 ==>
              Contents(gc.mem, queues[tc]) == Contents(old(gc.mem), queues0[tc]) + Delivered(old(gc.mem), Flat(gc.forwardList), tc)
    ensures |gc.mem| == |old(gc.mem)| && EntriesFresh(gc.mem, queues, others)
    ensures forall k {:trigger others[k]} :: 0 <= k < |others| ==>
              Field(gc.mem, others[k], 0) == Field(old(gc.mem), others[k], 0) && Field(gc.mem, others[k], 1) == Field(old(gc.mem), others[k], 1)
  {
    hide Sound, QueuesOk, EntriesFresh, IsQueue, EntriesStrong, QueuesInHeap;
    ghost var m0, es := gc.mem, Flat(gc.forwardList) + others;
    ghost var base: nat := 0;
    DeliveredStart(m0, queues0, es);
    queues := queues0;
    var ls := gc.forwardList;
    assert es[0..] == es;
    while ls != []
      invariant Sound(gc.Heap(), gc.dirty) && QueuesInHeap(gc.Heap(), queues) && EntriesStrong(gc.Heap(), es)
      invariant base <= |es| && Flat(ls) + others == es[base..] && DeliveredTo(m0, gc.mem, queues0, queues, es, base)
      decreases |ls|
    {
      var page := ls[0];
      assert Flat(ls) + others == page + (Flat(ls[1..]) + others);
      NextPiece(es, base, page, Flat(ls[1..]) + others);
      queues := DeliverPage(gc, page, m0, queues0, es, base, queues);
      base := base + |page|;
      ls := ls[1..];
    }
    DeliveredRest(m0, gc.mem, queues0, queues, Flat(gc.forwardList), others, base);
  }

  lemma NextPiece<T>(s: seq<T>, n: nat, a: seq<T>, b: seq<T>)
    requires n <= |s| && s[n..] == a + b
    ensures n + |a| <= |s| && s[n..n + |a|] == a && s[n + |a|..] == b
  {
    assert |s[n..]| == |s| - n;
    assert s[n..n + |a|] == s[n..][..|a|] && s[n + |a|..] == s[n..][|a|..];
  }

  lemma DeliveredRest(m0: seq<Word>, m: seq<Word>, queues0: map<nat, seq<nat>>, queues: map<nat, seq<nat>>, es: seq<Word>, others: seq<Word>, n: nat)
    requires n <= |es + others| && (es + others)[n..] == Flat([]) + others && DeliveredTo(m0, m, queues0, queues, es + others, n)
    ensures QueuesOk(m, queues) && queues.Keys == queues0.Keys && |m| == |m0| && EntriesFresh(m, queues, others)
    ensures forall tc {:trigger tc in queues0} :: tc in queues0 ==> Contents(m, queues[tc]) == Contents(m0, queues0[tc]) + Delivered(m0, es, tc)
    ensures forall k {:trigger others[k]} :: 0 <= k < |others| ==>
              Field(m, others[k], 0) == Field(m0, others[k], 0) && Field(m, others[k], 1) == Field(m0, others[k], 1)
  {
    hide QueuesOk, EntriesFresh, Field, Delivered;
    var all := es + others;
    assert Flat([]) + others == others;
    assert |all[n..]| == |others|;
    assert n == |es| && all[..n] == es;
    forall k {:trigger others[k]} | 0 <= k < |others|
      ensures Field(m, others[k], 0) == Field(m0, others[k], 0) && Field(m, others[k], 1) == Field(m0, others[k], 1)
    {
      assert all[n + k] == others[k];
    }
  }

  lemma OneFresh(h: Heap, dirty: seq<seq<bv4>>, mem: seq<Word>, queues: map<nat, seq<nat>>, es: seq<Word>, p: Word)
    requires Sound(h, dirty) && mem == h.mem && EntriesFresh(mem, queues, es) && |es| > 0 && es[0] == p && EntryOk(h, p) && QueuesInHeap(h, queues)
    ensures EntriesFresh(mem, queues, [p]) && p.addr + 1 < |mem| && mem[p.addr].Ptr? && mem[p.addr].kind == PairKind
  {
    hide Sound;
    EntryGood(h, dirty, p.addr);
    assert es[0] == p;
    assert mem[p.addr].addr in queues;
  }
}
