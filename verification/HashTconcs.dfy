/** The delivery of hash table buckets whose keys have moved, at the end of a collection. It works on words of memory:
    a bucket begins with a reference to its tconc, and becomes a vector of three words when it is delivered. */
module HashTconcs {
  import opened Memory
  import opened GcDirty
  import opened Mutator
  import opened Tconc

  /** What takes the place of the tconc in a bucket: the length of a vector. */
  const BUCKET_LENGTH: Word := Imm(3)

  function Bucket(mem: seq<Word>, p: nat): Word {
    if p < |mem| then mem[p] else FALSE_OBJECT
  }

  /** The tconc of the bucket that the pair at p holds. */
  function BucketTconc(mem: seq<Word>, p: nat): Word {
    var b := Bucket(mem, p);
    if b.Ptr? && b.addr < |mem| then mem[b.addr] else FALSE_OBJECT
  }

  /** The word b belongs to none of the pairs at s. */
  ghost predicate Outside(s: seq<nat>, b: nat) {
    forall i {:trigger s[i]} :: 0 <= i < |s| ==> b != s[i] && b != s[i] + 1
  }

  /** The pair at p is in no queue and holds a bucket of one of them; the first word of the bucket is in no queue. */
  ghost predicate CellFresh(mem: seq<Word>, queues: map<nat, seq<nat>>, p: nat) {
    && p + 1 < |mem| && Bucket(mem, p).Ptr? && Bucket(mem, p).addr < |mem|
    && BucketTconc(mem, p).Ptr? && BucketTconc(mem, p).kind == PairKind && BucketTconc(mem, p).addr in queues
    && (forall tc {:trigger tc in queues} :: tc in queues ==>
          Away([tc] + queues[tc], p) && Outside([tc] + queues[tc], Bucket(mem, p).addr))
  }

  /** The cells, and the buckets in them, are all different. */
  ghost predicate CellsFresh(mem: seq<Word>, queues: map<nat, seq<nat>>, ps: seq<nat>) {
    && (forall k {:trigger ps[k]} :: 0 <= k < |ps| ==> CellFresh(mem, queues, ps[k]))
    && (forall k, l {:trigger ps[k], ps[l]} :: 0 <= k < |ps| && 0 <= l < |ps| && k != l ==>
          && (ps[k] + 2 <= ps[l] || ps[l] + 2 <= ps[k]) && Bucket(mem, ps[k]).addr != Bucket(mem, ps[l]).addr
          && Outside([ps[k]], Bucket(mem, ps[l]).addr))
    && (forall k {:trigger ps[k]} :: 0 <= k < |ps| ==> Outside([ps[k]], Bucket(mem, ps[k]).addr))
  }

  /** The buckets in the cells whose tconc is tc, in order. */
  function Buckets(mem: seq<Word>, ps: seq<nat>, tc: nat): seq<Word> {
    if ps == [] then []
    else (if BucketTconc(mem, ps[0]) == Ptr(PairKind, tc) then [Bucket(mem, ps[0])] else []) + Buckets(mem, ps[1..], tc)
  }

  /** Memory after the bucket in the cell p has been delivered. */
  function Added(mem: seq<Word>, tc: nat, last: nat, p: nat): (r: seq<Word>)
    requires tc + 1 < |mem| && last + 1 < |mem| && p + 1 < |mem| && mem[p].Ptr? && mem[p].addr < |mem|
    ensures |r| == |mem|
  {
    Appended(mem, tc, last, p, mem[p])[mem[p].addr := BUCKET_LENGTH]
  }

  /** A word that is in no queue may be overwritten. */
  lemma OutsideKeeps(mem: seq<Word>, queues: map<nat, seq<nat>>, b: nat, v: Word)
    requires QueuesOk(mem, queues) && b < |mem| && forall tc {:trigger tc in queues} :: tc in queues ==> Outside([tc] + queues[tc], b)
    ensures QueuesOk(mem[b := v], queues)
    ensures forall tc {:trigger tc in queues} :: tc in queues ==> Contents(mem[b := v], queues[tc]) == Contents(mem, queues[tc])
  {
    forall tc | tc in queues
      ensures IsQueue(mem[b := v], tc, queues[tc]) && Contents(mem[b := v], queues[tc]) == Contents(mem, queues[tc])
    {
      var s := [tc] + queues[tc];
      assert s[0] == tc;
      forall i | 0 <= i < |queues[tc]| ensures b != queues[tc][i] && b != queues[tc][i] + 1 { assert s[i + 1] == queues[tc][i]; }
    }
  }

  lemma OutsideMore(s: seq<nat>, p: nat, b: nat)
    requires Outside(s, b) && Outside([p], b)
    ensures Outside(s + [p], b)
  {
    assert [p][0] == p;
  }

  /** One delivery: the queue of the bucket gets the bucket at the end, the others stay as they are. */
  lemma AddQueues(mem: seq<Word>, queues: map<nat, seq<nat>>, p: nat)
    requires QueuesOk(mem, queues) && CellFresh(mem, queues, p) && Outside([p], Bucket(mem, p).addr)
    ensures var tc := BucketTconc(mem, p).addr;
            && IsQueue(mem, tc, queues[tc])
            && QueuesOk(Added(mem, tc, LastCell(queues, tc), p), queues[tc := queues[tc] + [p]])
            && Added(mem, tc, LastCell(queues, tc), p)[Bucket(mem, p).addr] == Imm(3)
            && Added(mem, tc, LastCell(queues, tc), p)[p] == FALSE_OBJECT && Added(mem, tc, LastCell(queues, tc), p)[p + 1] == FALSE_OBJECT
            && forall x {:trigger x in queues} :: x in queues ==>
                 Contents(Added(mem, tc, LastCell(queues, tc), p), queues[tc := queues[tc] + [p]][x])
                 == Contents(mem, queues[x]) + if x == tc then [Bucket(mem, p)] else []
  {
    hide Appended, Contents, Away, IsQueue;
    var tc, b := BucketTconc(mem, p).addr, Bucket(mem, p).addr;
    var queues' := queues[tc := queues[tc] + [p]];
    DeliverQueues(mem, queues, tc, p, mem[p]);
    forall x | x in queues' ensures Outside([x] + queues'[x], b) {
      if x == tc {
        OutsideMore([tc] + queues[tc], p, b);
        assert [tc] + queues'[tc] == [tc] + queues[tc] + [p];
      }
    }
    QueueSizes(mem, tc, queues[tc]);
    CellAway([tc] + queues[tc], p);
    AddedClear(mem, tc, LastCell(queues, tc), p);
    OutsideKeeps(Appended(mem, tc, LastCell(queues, tc), p, mem[p]), queues', b, BUCKET_LENGTH);
  }

  lemma CellAway(s: seq<nat>, p: nat)
    requires 0 < |s| && Away(s, p)
    ensures s[0] + 2 <= p || p + 2 <= s[0]
  {
    assert s[0] == s[0];
  }

  lemma AddedClear(mem: seq<Word>, tc: nat, last: nat, p: nat)
    requires tc + 1 < |mem| && last + 1 < |mem| && p + 1 < |mem| && mem[p].Ptr? && mem[p].addr < |mem|
    requires (tc + 2 <= p || p + 2 <= tc) && Outside([p], mem[p].addr)
    ensures var m := Added(mem, tc, last, p); m[p] == FALSE_OBJECT && m[p + 1] == FALSE_OBJECT && m[mem[p].addr] == Imm(3)
  {
    assert [p][0] == p;
  }

  lemma QueueSizes(mem: seq<Word>, tc: nat, cells: seq<nat>)
    requires IsQueue(mem, tc, cells)
    ensures 0 < |cells| && tc + 1 < |mem| && cells[|cells| - 1] + 1 < |mem|
    ensures mem[tc + 1] == Ptr(PairKind, cells[|cells| - 1])
  {
  }

  /** The cells that are left are as they were. */
  lemma CellsLeft(mem: seq<Word>, queues: map<nat, seq<nat>>, ps: seq<nat>)
    requires QueuesOk(mem, queues) && CellsFresh(mem, queues, ps) && |ps| > 0
    ensures var tc := BucketTconc(mem, ps[0]).addr;
            && tc in queues && IsQueue(mem, tc, queues[tc])
            && CellsFresh(Added(mem, tc, LastCell(queues, tc), ps[0]), queues[tc := queues[tc] + [ps[0]]], ps[1..])
            && forall k {:trigger ps[k]} :: 1 <= k < |ps| ==>
                 && Bucket(Added(mem, tc, LastCell(queues, tc), ps[0]), ps[k]) == Bucket(mem, ps[k])
                 && BucketTconc(Added(mem, tc, LastCell(queues, tc), ps[0]), ps[k]) == BucketTconc(mem, ps[k])
  {
    hide Contents, QueuesOk;
    var p := ps[0];
    var tc := BucketTconc(mem, p).addr;
    QueueOf(mem, queues, tc);
    QueueSizes(mem, tc, queues[tc]);
    var m, queues' := Added(mem, tc, LastCell(queues, tc), p), queues[tc := queues[tc] + [p]];
    forall k {:trigger ps[k]} | 1 <= k < |ps|
      ensures Bucket(m, ps[k]) == Bucket(mem, ps[k]) && BucketTconc(m, ps[k]) == BucketTconc(mem, ps[k]) && CellFresh(m, queues', ps[k])
    {
      CellLeft(mem, queues, tc, p, ps[k]);
    }
    var rest := ps[1..];
    forall k {:trigger rest[k]} | 0 <= k < |rest| ensures rest[k] == ps[k + 1] {}
  }

  lemma QueueOf(mem: seq<Word>, queues: map<nat, seq<nat>>, tc: nat)
    requires QueuesOk(mem, queues) && tc in queues
    ensures IsQueue(mem, tc, queues[tc])
  {
  }

  /** The words of another cell, and of its bucket, are not written. */
  lemma CellLeft(mem: seq<Word>, queues: map<nat, seq<nat>>, tc: nat, p: nat, q: nat)
    requires CellFresh(mem, queues, p) && CellFresh(mem, queues, q) && tc == BucketTconc(mem, p).addr
    requires |queues[tc]| > 0 && tc + 1 < |mem| && LastCell(queues, tc) + 1 < |mem|
    requires p + 2 <= q || q + 2 <= p
    requires Bucket(mem, p).addr != Bucket(mem, q).addr
    requires Outside([p], Bucket(mem, q).addr) && Outside([q], Bucket(mem, p).addr)
    ensures var m, queues' := Added(mem, tc, LastCell(queues, tc), p), queues[tc := queues[tc] + [p]];
            Bucket(m, q) == Bucket(mem, q) && BucketTconc(m, q) == BucketTconc(mem, q) && CellFresh(m, queues', q)
  {
    var m, queues' := Added(mem, tc, LastCell(queues, tc), p), queues[tc := queues[tc] + [p]];
    var last, b := LastCell(queues, tc), Bucket(mem, q).addr;
    var s := [tc] + queues[tc];
    assert s[0] == tc && s[|s| - 1] == last;
    assert [p][0] == p && [q][0] == q;
    assert Away(s, q) && Outside(s, b);
    assert m[q] == mem[q] && m[b] == mem[b];
    forall x | x in queues' ensures Away([x] + queues'[x], q) && Outside([x] + queues'[x], b) {
      if x == tc {
        assert [tc] + queues'[tc] == s + [p];
        AwayMore(s, p, q);
        OutsideMore(s, p, b);
      }
    }
  }

  /** After the first n of the cells have been delivered, starting from memory m0. */
  ghost predicate AddedTo(m0: seq<Word>, m: seq<Word>, queues0: map<nat, seq<nat>>, queues: map<nat, seq<nat>>, ps: seq<nat>, n: nat) {
    && n <= |ps| && |m| == |m0| && QueuesOk(m0, queues0) && QueuesOk(m, queues) && queues.Keys == queues0.Keys
    && CellsFresh(m, queues, ps[n..])
    && (forall k {:trigger ps[k]} :: n <= k < |ps| ==> Bucket(m, ps[k]) == Bucket(m0, ps[k]) && BucketTconc(m, ps[k]) == BucketTconc(m0, ps[k]))
    && (forall tc {:trigger tc in queues0} :: tc in queues0 ==>
          Contents(m, queues[tc]) == Contents(m0, queues0[tc]) + Buckets(m0, ps[..n], tc))
  }

  lemma {:induction false} BucketsMore(m0: seq<Word>, ps: seq<nat>, n: nat, tc: nat)
    requires n < |ps|
    ensures Buckets(m0, ps[..n + 1], tc) ==
              Buckets(m0, ps[..n], tc) + if BucketTconc(m0, ps[n]) == Ptr(PairKind, tc) then [Bucket(m0, ps[n])] else []
  {
    if n == 0 {
      assert ps[..1][1..] == [] && ps[..0] == [];
    } else {
      BucketsMore(m0, ps[1..], n - 1, tc);
      assert ps[..n + 1][1..] == ps[1..][..n] && ps[..n][1..] == ps[1..][..n - 1];
      assert ps[..n + 1][0] == ps[0] == ps[..n][0];
    }
  }

  /** One more cell. */
  lemma AddedStep(m0: seq<Word>, m: seq<Word>, queues0: map<nat, seq<nat>>, queues: map<nat, seq<nat>>, ps: seq<nat>, n: nat)
    requires AddedTo(m0, m, queues0, queues, ps, n) && n < |ps|
    ensures CellFresh(m, queues, ps[n]) && Outside([ps[n]], Bucket(m, ps[n]).addr)
    ensures var tc := BucketTconc(m, ps[n]).addr;
            && tc in queues && IsQueue(m, tc, queues[tc])
            && AddedTo(m0, Added(m, tc, LastCell(queues, tc), ps[n]), queues0, queues[tc := queues[tc] + [ps[n]]], ps, n + 1)
  {
    hide QueuesOk, Added, Contents, Away, Outside, IsQueue, Buckets, Bucket, BucketTconc;
    var rest := ps[n..];
    assert rest[0] == ps[n] && rest[1..] == ps[n + 1..];
    AddQueues(m, queues, ps[n]);
    CellsLeft(m, queues, rest);
    var tc := BucketTconc(m, ps[n]).addr;
    QueueSizes(m, tc, queues[tc]);
    PairAt(m, ps[n]);
    var m', queues' := Added(m, tc, LastCell(queues, tc), ps[n]), queues[tc := queues[tc] + [ps[n]]];
    forall k {:trigger ps[k]} | n + 1 <= k < |ps| ensures Bucket(m', ps[k]) == Bucket(m0, ps[k]) && BucketTconc(m', ps[k]) == BucketTconc(m0, ps[k]) {
      assert rest[k - n] == ps[k];
    }
    assert queues'.Keys == queues.Keys;
    forall x | x in queues0 ensures Contents(m', queues'[x]) == Contents(m0, queues0[x]) + Buckets(m0, ps[..n + 1], x) {
      BucketsMore(m0, ps, n, x);
      assert x in queues;
    }
  }

  lemma PairAt(m: seq<Word>, p: nat)
    requires p < |m| && Bucket(m, p).Ptr? && Bucket(m, p).addr < |m|
    ensures m[p].Ptr? && m[p].addr < |m|
  {
  }

  // ---------- The dirty vector ----------

  /** No card hides a reference to a younger generation. */
  ghost predicate Carded(mem: seq<Word>, segs: seq<Seg>, dirty: seq<seq<bv4>>) {
    |mem| == 512 * |segs| && SegsGood(segs) && CardsSound(Heap(mem, segs, map[]), dirty)
  }

  lemma Marked(mem: seq<Word>, segs: seq<Seg>, dirty: seq<seq<bv4>>, w: nat, v: Word)
    requires Carded(mem, segs, dirty) && w < |mem|
    ensures |mem| == 512 * |dirty| && Carded(mem[w := v], segs, Signalled(dirty, w))
  {
    hide CardsSound, SegsGood;
    var h := Heap(mem, segs, map[]);
    CardPages(h, dirty);
    MarkedWrite(h, dirty, w, v);
    assert Written(h, w, v) == Heap(mem[w := v], segs, map[]);
  }

  lemma Plain(mem: seq<Word>, segs: seq<Seg>, dirty: seq<seq<bv4>>, w: nat, n: int)
    requires Carded(mem, segs, dirty) && w < |mem|
    ensures Carded(mem[w := Imm(n)], segs, dirty)
  {
    hide CardsSound, SegsGood;
    var h := Heap(mem, segs, map[]);
    PlainWrite(h, dirty, w, n);
    assert Written(h, w, Imm(n)) == Heap(mem[w := Imm(n)], segs, map[]);
  }

  /** The dirty vector after the three marks of a delivery. */
  function AddedMarks(dirty: seq<seq<bv4>>, tc: nat, last: nat): (r: seq<seq<bv4>>)
    requires tc + 1 < 512 * |dirty| && last + 1 < 512 * |dirty|
    ensures |r| == |dirty|
  {
    Signalled(Signalled(Signalled(dirty, tc + 1), last), last + 1)
  }

  /** The pages that are marked are those of the stores of references; the other stores need no mark. */
  lemma AddedCarded(mem: seq<Word>, segs: seq<Seg>, dirty: seq<seq<bv4>>, tc: nat, last: nat, p: nat)
    requires Carded(mem, segs, dirty) && tc + 1 < |mem| && last + 1 < |mem| && p + 1 < |mem| && mem[p].Ptr? && mem[p].addr < |mem|
    ensures |mem| == 512 * |dirty| && Carded(Added(mem, tc, last, p), segs, AddedMarks(dirty, tc, last))
  {
    hide Carded;
    Marked(mem, segs, dirty, last, mem[p]);
    var m1, d1 := mem[last := mem[p]], Signalled(dirty, last);
    Marked(m1, segs, d1, last + 1, Ptr(PairKind, p));
    var m2, d2 := m1[last + 1 := Ptr(PairKind, p)], Signalled(d1, last + 1);
    Plain(m2, segs, d2, p, 0x2F);
    var m3 := m2[p := FALSE_OBJECT];
    Plain(m3, segs, d2, p + 1, 0x2F);
    var m4 := m3[p + 1 := FALSE_OBJECT];
    Marked(m4, segs, d2, tc + 1, Ptr(PairKind, p));
    var m5 := m4[tc + 1 := Ptr(PairKind, p)];
    Plain(m5, segs, Signalled(d2, tc + 1), mem[p].addr, 3);
    assert Signalled(d2, tc + 1) == AddedMarks(dirty, tc, last);
  }

  lemma CardedPages(mem: seq<Word>, segs: seq<Seg>, dirty: seq<seq<bv4>>)
    requires Carded(mem, segs, dirty)
    ensures |mem| == 512 * |dirty|
  {
  }

  // ---------- The deliveries ----------

  /** add_one_tconc */
  method AddOneTconc(mem: array<Word>, dirty: array<seq<bv4>>, p: nat, ghost segs: seq<Seg>, ghost queues: map<nat, seq<nat>>)
    requires QueuesOk(mem[..], queues) && CellFresh(mem[..], queues, p) && Carded(mem[..], segs, dirty[..])
    modifies mem, dirty
    ensures old(BucketTconc(mem[..], p)).addr in queues && mem.Length == 512 * dirty.Length
    ensures var tc := old(BucketTconc(mem[..], p)).addr;
            && IsQueue(old(mem[..]), tc, queues[tc]) && mem[..] == Added(old(mem[..]), tc, LastCell(queues, tc), p)
            && dirty[..] == AddedMarks(old(dirty[..]), tc, LastCell(queues, tc))
    ensures Carded(mem[..], segs, dirty[..])
  {
    hide QueuesOk, Away, Outside, Carded;
    ghost var m, d0 := mem[..], dirty[..];
    var bucket := mem[p];
    var tc := mem[bucket.addr].addr;
    QueueOf(m, queues, tc);
    QueueSizes(m, tc, queues[tc]);
    var d := mem[tc + 1].addr;
    CardedPages(m, segs, d0);
    AddedCarded(m, segs, d0, tc, d, p);
    mem[d] := bucket;
    mem[d + 1] := Ptr(PairKind, p);
    mem[p] := FALSE_OBJECT;
    mem[p + 1] := FALSE_OBJECT;
    mem[tc + 1] := Ptr(PairKind, p);
    mem[bucket.addr] := BUCKET_LENGTH;
    dirty[(tc + 1) / 512] := DIRTY_PAGE;
    dirty[d / 512] := DIRTY_PAGE;
    dirty[(d + 1) / 512] := DIRTY_PAGE;
    assert mem[..] == Added(m, tc, d, p);
    assert dirty[..] == AddedMarks(d0, tc, d);
  }

  /** The cells of a stretch of words. */
  function Cells(base: nat, n: nat): (ps: seq<nat>)
    ensures |ps| == n && forall k {:trigger ps[k]} :: 0 <= k < n ==> ps[k] == base + 2 * k
  {
    seq(n, k => base + 2 * k)
  }

  /** A page of cells: its first word, and how many of them are used. */
  datatype Block = Block(base: nat, count: nat)

  function AllCells(blocks: seq<Block>): seq<nat> {
    if blocks == [] then [] else Cells(blocks[0].base, blocks[0].count) + AllCells(blocks[1..])
  }

  /** The loop over one page. */
  method AddBlock(mem: array<Word>, dirty: array<seq<bv4>>, block: Block, ghost segs: seq<Seg>, ghost m0: seq<Word>, ghost queues0: map<nat, seq<nat>>, ghost ps: seq<nat>, ghost n: nat, ghost queues1: map<nat, seq<nat>>)
    returns (ghost queues: map<nat, seq<nat>>)
    requires AddedTo(m0, mem[..], queues0, queues1, ps, n) && n + block.count <= |ps| && ps[n..n + block.count] == Cells(block.base, block.count)
    requires Carded(mem[..], segs, dirty[..])
    modifies mem, dirty
    ensures AddedTo(m0, mem[..], queues0, queues, ps, n + block.count) && Carded(mem[..], segs, dirty[..])
  {
    hide AddedTo, Added, QueuesOk, Away, Outside, Carded, AddedMarks;
    queues := queues1;
    var p, i := block.base, 0;
    while i < block.count
      invariant 0 <= i <= block.count && p == block.base + 2 * i && AddedTo(m0, mem[..], queues0, queues, ps, n + i)
      invariant Carded(mem[..], segs, dirty[..])
    {
      ghost var m := mem[..];
      assert ps[n + i] == ps[n..n + block.count][i] == p;
      AddedQueues(m0, m, queues0, queues, ps, n + i);
      AddedStep(m0, m, queues0, queues, ps, n + i);
      AddOneTconc(mem, dirty, p, segs, queues);
      ghost var tc := BucketTconc(m, p).addr;
      queues := queues[tc := queues[tc] + [p]];
      p, i := p + 2, i + 1;
    }
  }

  lemma AddedQueues(m0: seq<Word>, m: seq<Word>, queues0: map<nat, seq<nat>>, queues: map<nat, seq<nat>>, ps: seq<nat>, n: nat)
    requires AddedTo(m0, m, queues0, queues, ps, n)
    ensures QueuesOk(m, queues)
  {
  }

  /** gc_add_tconcs: the current page of cells, and then the full ones that are queued. Every queue gets its buckets at
      the end, in order, and no card hides a reference to a younger generation afterwards. */
  method AddTconcs(mem: array<Word>, dirty: array<seq<bv4>>, current: Block, queue: seq<Block>, ghost segs: seq<Seg>, ghost queues0: map<nat, seq<nat>>) returns (ghost queues: map<nat, seq<nat>>)
    requires current.base == 0 ==> current.count == 0 && queue == []
    requires QueuesOk(mem[..], queues0) && CellsFresh(mem[..], queues0, AllCells([current] + queue)) && Carded(mem[..], segs, dirty[..])
    modifies mem, dirty
    ensures QueuesOk(mem[..], queues) && queues.Keys == queues0.Keys && Carded(mem[..], segs, dirty[..])
    ensures forall tc {:trigger tc in queues0} :: tc in queues0 ==>
              Contents(mem[..], queues[tc]) == Contents(old(mem[..]), queues0[tc]) + Buckets(old(mem[..]), AllCells([current] + queue), tc)
  {
    hide QueuesOk, CellsFresh, Contents, Buckets, Carded, AddedTo;
    ghost var m0, ps := mem[..], AllCells([current] + queue);
    ghost var n: nat := 0;
    assert ps[0..] == ps && ps[..0] == [];
    StartAdded(m0, queues0, ps);
    queues := queues0;
    if current.base != 0 {
      assert ([current] + queue)[1..] == queue;
      NextPiece(ps, 0, Cells(current.base, current.count), AllCells(queue));
      queues := AddBlock(mem, dirty, current, segs, m0, queues0, ps, 0, queues);
      n := current.count;
      var blk := queue;
      while blk != []
        invariant n <= |ps| && ps[n..] == AllCells(blk) && AddedTo(m0, mem[..], queues0, queues, ps, n)
        invariant Carded(mem[..], segs, dirty[..])
        decreases |blk|
      {
        NextPiece(ps, n, Cells(blk[0].base, blk[0].count), AllCells(blk[1..]));
        queues := AddBlock(mem, dirty, blk[0], segs, m0, queues0, ps, n, queues);
        n := n + blk[0].count;
        blk := blk[1..];
      }
    } else {
      assert ([current] + queue)[1..] == [];
    }
    assert n == |ps|;
    EndAdded(m0, mem[..], queues0, queues, ps);
  }

  lemma EndAdded(m0: seq<Word>, m: seq<Word>, queues0: map<nat, seq<nat>>, queues: map<nat, seq<nat>>, ps: seq<nat>)
    requires AddedTo(m0, m, queues0, queues, ps, |ps|)
    ensures QueuesOk(m, queues) && queues.Keys == queues0.Keys
    ensures forall tc {:trigger tc in queues0} :: tc in queues0 ==> Contents(m, queues[tc]) == Contents(m0, queues0[tc]) + Buckets(m0, ps, tc)
  {
    hide QueuesOk, CellsFresh, Contents, Buckets;
    assert ps[..|ps|] == ps;
  }

  lemma StartAdded(m0: seq<Word>, queues0: map<nat, seq<nat>>, ps: seq<nat>)
    requires QueuesOk(m0, queues0) && CellsFresh(m0, queues0, ps)
    ensures AddedTo(m0, m0, queues0, queues0, ps, 0)
  {
    assert ps[0..] == ps && ps[..0] == [];
    forall tc | tc in queues0 ensures Contents(m0, queues0[tc]) + Buckets(m0, [], tc) == Contents(m0, queues0[tc]) {}
  }
}
