/** Continuations as frozen stack segments, and what they denote: the rows of frames that are still to be resumed. */
module Frames {

  /** A continuation object by its number, or no continuation. */
  datatype Ref = Null | Kont(id: nat)

  /** A process continuation freezes the words of the stack from top on; a system continuation keeps the top of
      the C stack. */
  datatype Continuation =
    | Process(top: nat, size: nat, next: Ref)
    | System(systemTop: int, next: Ref)

  /** The Scheme stack, the continuation objects, and the sizes of the frames by return address: 0 stands for a size
      that is on the stack, in the word after the return address. */
  datatype Mem = Mem(sizes: map<int, nat>, stack: seq<int>, konts: seq<Continuation>)

  const UNDERFLOW_HANDLER: int := -1

  /** IK_CALLTABLE_FRAMESIZE */
  function CallTable(sizes: map<int, nat>, returnAddress: int): nat {
    if returnAddress in sizes then sizes[returnAddress] else 0
  }

  function FrameSize(sizes: map<int, nat>, stack: seq<int>, top: nat): int
    requires top + 1 < |stack|
  {
    var f := CallTable(sizes, stack[top]);
    if f == 0 then stack[top + 1] else f
  }

  /** The words from lo to hi are whole frames. A frame with its size on the stack has it within itself. The word at
      hi is on the stack too. */
  predicate Whole(sizes: map<int, nat>, stack: seq<int>, lo: nat, hi: nat)
    requires hi < |stack|
    decreases hi - lo
  {
    lo == hi || (lo < hi && stack[lo] != UNDERFLOW_HANDLER &&
                 var f := FrameSize(sizes, stack, lo);
                 && 0 < f <= hi - lo && (f == 1 ==> CallTable(sizes, stack[lo]) == 1)
                 && Whole(sizes, stack, lo + f, hi))
  }

  /** What a continuation has pending. */
  datatype Item = Frame(words: seq<int>) | Return(id: nat)

  /** The frames from lo to hi, the one to be resumed first first. */
  function Split(sizes: map<int, nat>, stack: seq<int>, lo: nat, hi: nat): (r: seq<Item>)
    requires hi < |stack| && Whole(sizes, stack, lo, hi)
    ensures lo < hi ==> 0 < |r|
    ensures OnlyFrames(r)
    decreases hi - lo
  {
    if lo == hi then [] else
      var f := FrameSize(sizes, stack, lo);
      [Frame(stack[lo..lo + f])] + Split(sizes, stack, lo + f, hi)
  }

  predicate OnlyFrames(items: seq<Item>) {
    forall i {:trigger items[i]} :: 0 <= i < |items| ==> items[i].Frame?
  }

  predicate GoodSegment(m: Mem, k: Continuation)
    requires k.Process?
  {
    0 < k.size && k.top + k.size < |m.stack| && Whole(m.sizes, m.stack, k.top, k.top + k.size)
  }

  /** The continuation r has these frames, and these returns to C code, pending. */
  predicate Pends(m: Mem, r: Ref, items: seq<Item>)
    decreases |items|
  {
    match r
    case Null => items == []
    case Kont(id) =>
      id < |m.konts| &&
      match m.konts[id]
      case System(_, next) => 0 < |items| && items[0] == Return(id) && Pends(m, next, items[1..])
      case Process(top, size, next) =>
        GoodSegment(m, m.konts[id]) &&
        var fs := Split(m.sizes, m.stack, top, top + size);
        StartsWith(items, fs) && Pends(m, next, items[|fs|..])
  }

  predicate StartsWith(items: seq<Item>, fs: seq<Item>) {
    |fs| <= |items| && items[..|fs|] == fs
  }

  lemma StartsWithMore(items: seq<Item>, head: Item, tail: seq<Item>)
    ensures StartsWith(items, [head] + tail) <==> 0 < |items| && items[0] == head && StartsWith(items[1..], tail)
    ensures StartsWith(items, [head] + tail) ==> items[1 + |tail|..] == items[1..][|tail|..]
  {
    var fs := [head] + tail;
    assert fs[0] == head && fs[1..] == tail;
    if |fs| <= |items| {
      assert items[..|fs|] == [items[0]] + items[1..][..|tail|];
      assert items[..|fs|][0] == items[0] && items[..|fs|][1..] == items[1..][..|tail|];
    }
  }

  /** What a continuation has pending is determined. */
  lemma {:induction false} PendsUnique(m: Mem, r: Ref, a: seq<Item>, b: seq<Item>)
    requires Pends(m, r, a) && Pends(m, r, b)
    ensures a == b
    decreases |a|
  {
    if r.Kont? {
      match m.konts[r.id]
      case System(_, next) =>
        PendsUnique(m, next, a[1..], b[1..]);
        assert a == [a[0]] + a[1..] && b == [b[0]] + b[1..];
      case Process(top, size, next) =>
        var n := |Split(m.sizes, m.stack, top, top + size)|;
        PendsUnique(m, next, a[n..], b[n..]);
        assert a == a[..n] + a[n..] && b == b[..n] + b[n..];
    }
  }

  // ---------- A well formed memory ----------

  predicate Linked(m: Mem, r: Ref) {
    r.Kont? ==> r.id < |m.konts|
  }

  /** Every frozen segment lies at base or above and is made of whole frames. */
  predicate Frozen(m: Mem, base: nat) {
    forall id {:trigger m.konts[id]} :: 0 <= id < |m.konts| ==>
      Linked(m, m.konts[id].next) && (m.konts[id].Process? ==> base <= m.konts[id].top && GoodSegment(m, m.konts[id]))
  }

  /** Nothing that any continuation object has pending has changed, whichever object refers to it, and no system
      continuation has. */
  ghost predicate Keeps(m: Mem, n: Mem) {
    && m.sizes == n.sizes && |m.konts| <= |n.konts|
    && (forall id {:trigger n.konts[id]} :: 0 <= id < |m.konts| && m.konts[id].System? ==> n.konts[id] == m.konts[id])
    && (forall r, items {:trigger Pends(n, r, items)} :: Pends(m, r, items) ==> Pends(n, r, items))
  }

  lemma KeepsTrans(m: Mem, n: Mem, o: Mem)
    requires Keeps(m, n) && Keeps(n, o)
    ensures Keeps(m, o)
  {
    forall id | 0 <= id < |m.konts| && m.konts[id].System? ensures o.konts[id] == m.konts[id] {
      assert n.konts[id] == m.konts[id];
    }
    forall r, items | Pends(m, r, items) ensures Pends(o, r, items) {
      assert Pends(n, r, items);
    }
  }

  // ---------- Writes below the frozen segments ----------

  predicate SameFrom(s: seq<int>, t: seq<int>, base: nat) {
    |s| == |t| && forall i {:trigger s[i]} {:trigger t[i]} :: base <= i < |s| ==> s[i] == t[i]
  }

  lemma {:induction false} WholeStable(sizes: map<int, nat>, s: seq<int>, t: seq<int>, lo: nat, hi: nat)
    requires hi < |s| && SameFrom(s, t, lo) && Whole(sizes, s, lo, hi)
    ensures Whole(sizes, t, lo, hi) && Split(sizes, t, lo, hi) == Split(sizes, s, lo, hi)
    decreases hi - lo
  {
    if lo < hi {
      assert s[lo] == t[lo] && s[lo + 1] == t[lo + 1];
      var f := FrameSize(sizes, s, lo);
      assert FrameSize(sizes, t, lo) == f;
      assert s[lo..lo + f] == t[lo..lo + f];
      hide FrameSize, CallTable;
      WholeStable(sizes, s, t, lo + f, hi);
    }
  }

  lemma {:induction false} PendsStable(m: Mem, n: Mem, base: nat, r: Ref, items: seq<Item>)
    requires Frozen(m, base) && SameFrom(m.stack, n.stack, base) && m.sizes == n.sizes && m.konts <= n.konts
    requires Pends(m, r, items)
    ensures Pends(n, r, items)
    decreases |items|
  {
    if r.Kont? {
      assert n.konts[r.id] == m.konts[r.id];
      match m.konts[r.id]
      case System(_, next) => PendsStable(m, n, base, next, items[1..]);
      case Process(top, size, next) =>
        WholeStable(m.sizes, m.stack, n.stack, top, top + size);
        PendsStable(m, n, base, next, items[|Split(m.sizes, m.stack, top, top + size)|..]);
    }
  }

  /** Writes below base and new objects change nothing that is frozen. */
  lemma BelowKeeps(m: Mem, n: Mem, base: nat)
    requires Frozen(m, base) && SameFrom(m.stack, n.stack, base) && m.sizes == n.sizes && m.konts <= n.konts
    ensures Keeps(m, n)
    ensures m.konts == n.konts ==> Frozen(n, base)
  {
    forall r, items | Pends(m, r, items) ensures Pends(n, r, items) {
      PendsStable(m, n, base, r, items);
    }
    forall id | 0 <= id < |m.konts|
      ensures n.konts[id] == m.konts[id] && (m.konts[id].Process? ==> GoodSegment(n, m.konts[id]))
    {
      var k := m.konts[id];
      if k.Process? { WholeStable(m.sizes, m.stack, n.stack, k.top, k.top + k.size); }
    }
  }

  // ---------- Splitting in place ----------

  /** The object id keeps its first frame, of f words, and a new object takes the others. */
  function SplitKont(m: Mem, id: nat, f: nat): Mem
    requires id < |m.konts| && m.konts[id].Process? && f <= m.konts[id].size
  {
    var k := m.konts[id];
    var rest := Process(k.top + f, k.size - f, k.next);
    m.(konts := m.konts[id := Process(k.top, f, Kont(|m.konts|))] + [rest])
  }

  /** A continuation of several frames, as the loop finds it. */
  predicate Splittable(m: Mem, id: nat, f: nat) {
    && id < |m.konts| && m.konts[id].Process? && GoodSegment(m, m.konts[id])
    && f == FrameSize(m.sizes, m.stack, m.konts[id].top) && f < m.konts[id].size
  }

  lemma SplitSegments(m: Mem, id: nat, f: nat)
    requires Splittable(m, id, f)
    ensures var k, n := m.konts[id], SplitKont(m, id, f);
            && GoodSegment(n, n.konts[id]) && GoodSegment(n, n.konts[|m.konts|])
            && Split(m.sizes, m.stack, k.top, k.top + f) == [Frame(m.stack[k.top..k.top + f])]
            && Split(m.sizes, m.stack, k.top, k.top + k.size)
               == [Frame(m.stack[k.top..k.top + f])] + Split(m.sizes, m.stack, k.top + f, k.top + k.size)
  {
    var k, n := m.konts[id], SplitKont(m, id, f);
    assert n.konts[id] == Process(k.top, f, Kont(|m.konts|)) && n.konts[|m.konts|] == Process(k.top + f, k.size - f, k.next);
    assert Whole(m.sizes, m.stack, k.top + f, k.top + f);
  }

  /** Splitting is invisible: for every continuation object, aliases of the one that is split among them, what is
      pending is the same before and after. */
  lemma {:induction false} SplitInvisible(m: Mem, id: nat, f: nat, r: Ref, items: seq<Item>)
    requires Splittable(m, id, f) && Linked(m, r) && Frozen(m, 0)
    ensures Pends(m, r, items) <==> Pends(SplitKont(m, id, f), r, items)
    decreases |items|
  {
    var n := SplitKont(m, id, f);
    if r.Kont? {
      var k := m.konts[r.id];
      PendsAt(m, r.id, items);
      PendsAt(n, r.id, items);
      if r.id == id { SplitOne(m, id, f, items); } else { assert n.konts[r.id] == k; }
      hide Pends, Whole, Split, StartsWith;
      if k.System? {
        if items != [] { SplitInvisible(m, id, f, k.next, items[1..]); }
      } else {
        var fs := Split(m.sizes, m.stack, k.top, k.top + k.size);
        if StartsWith(items, fs) { SplitInvisible(m, id, f, k.next, items[|fs|..]); }
      }
    }
  }

  /** One object, and what is pending under it. */
  lemma PendsAt(m: Mem, id: nat, items: seq<Item>)
    requires id < |m.konts|
    ensures match m.konts[id]
            case System(_, next) => Pends(m, Kont(id), items) <==> 0 < |items| && items[0] == Return(id) && Pends(m, next, items[1..])
            case Process(top, size, next) =>
              Pends(m, Kont(id), items) <==>
                GoodSegment(m, m.konts[id]) &&
                var fs := Split(m.sizes, m.stack, top, top + size);
                StartsWith(items, fs) && Pends(m, next, items[|fs|..])
    ensures forall fs {:trigger StartsWith(items, fs)} :: StartsWith(items, fs) ==> |fs| <= |items|
  {
    hide Whole, Split;
  }

  /** The object that is split. */
  lemma SplitOne(m: Mem, id: nat, f: nat, items: seq<Item>)
    requires Splittable(m, id, f)
    ensures var k, n := m.konts[id], SplitKont(m, id, f);
            var fs := Split(m.sizes, m.stack, k.top, k.top + k.size);
            Pends(n, Kont(id), items) <==> StartsWith(items, fs) && Pends(n, k.next, items[|fs|..])
  {
    hide Whole, Split;
    var k, n := m.konts[id], SplitKont(m, id, f);
    SplitSegments(m, id, f);
    var tail := Split(m.sizes, m.stack, k.top + f, k.top + k.size);
    var head := Frame(m.stack[k.top..k.top + f]);
    StartsWithMore(items, head, []);
    StartsWithMore(items, head, tail);
    assert [head] + [] == [head];
    assert n.konts[id] == Process(k.top, f, Kont(|m.konts|)) && n.konts[|m.konts|] == Process(k.top + f, k.size - f, k.next);
    if 0 < |items| {
      StartsWithNothing(items[1..]);
      assert Pends(n, Kont(|m.konts|), items[1..]) <==> StartsWith(items[1..], tail) && Pends(n, k.next, items[1..][|tail|..]);
    }
    assert Pends(n, Kont(id), items) <==> StartsWith(items, [head]) && Pends(n, Kont(|m.konts|), items[1..]);
  }

  lemma StartsWithNothing(items: seq<Item>)
    ensures StartsWith(items, [])
  {
  }

  /** Splitting keeps the memory well formed, and every object as it was. */
  lemma SplitKeeps(m: Mem, id: nat, f: nat, base: nat)
    requires Splittable(m, id, f) && Frozen(m, base)
    ensures var n := SplitKont(m, id, f); Keeps(m, n) && Frozen(n, base)
  {
    var n := SplitKont(m, id, f);
    SplitSegments(m, id, f);
    assert Frozen(m, 0);
    forall r, items | Pends(m, r, items) ensures Pends(n, r, items) {
      SplitInvisible(m, id, f, r, items);
    }
    forall i | 0 <= i < |n.konts|
      ensures Linked(n, n.konts[i].next) && (n.konts[i].Process? ==> base <= n.konts[i].top && GoodSegment(n, n.konts[i]))
    {
      assert m.konts[id].Process?;
      if i < |m.konts| && i != id { assert n.konts[i] == m.konts[i]; }
    }
  }

  // ---------- Down to a system continuation ----------

  /** The frames of the current run of Scheme code, and then rest: what was pending when C code called it. */
  ghost predicate Chain(m: Mem, r: Ref, rest: seq<Item>) {
    exists fs {:trigger OnlyFrames(fs)} :: OnlyFrames(fs) && Pends(m, r, fs + rest)
  }

  /** Nothing, or a return to C code, is pending under a run of Scheme code. */
  predicate Bottom(rest: seq<Item>) {
    rest == [] || rest[0].Return?
  }

  lemma ChainKept(m: Mem, n: Mem, r: Ref, rest: seq<Item>)
    requires Keeps(m, n) && Chain(m, r, rest)
    ensures Chain(n, r, rest)
  {
    var fs :| OnlyFrames(fs) && Pends(m, r, fs + rest);
    assert Pends(n, r, fs + rest);
  }

  /** More frames in front. */
  lemma ChainPush(m: Mem, id: nat, rest: seq<Item>)
    requires id < |m.konts| && m.konts[id].Process? && GoodSegment(m, m.konts[id]) && Chain(m, m.konts[id].next, rest)
    ensures Chain(m, Kont(id), rest)
  {
    var k := m.konts[id];
    hide Whole;
    var fs :| OnlyFrames(fs) && Pends(m, k.next, fs + rest);
    var more := Split(m.sizes, m.stack, k.top, k.top + k.size);
    var all := more + fs;
    PendsAt(m, id, all + rest);
    hide Pends, Split;
    assert OnlyFrames(all);
    assert (all + rest)[..|more|] == more && (all + rest)[|more|..] == fs + rest;
  }

  lemma NotPast(fs: seq<Item>, rest: seq<Item>, head: seq<Item>)
    requires OnlyFrames(head) && Bottom(rest) && StartsWith(fs + rest, head)
    ensures |head| <= |fs|
  {
    assert rest != [] ==> (fs + rest)[|fs|] == rest[0];
    assert forall i {:trigger (fs + rest)[i]} :: 0 <= i < |head| ==> (fs + rest)[i] == head[i] && head[i].Frame?;
  }

  lemma FirstItem(fs: seq<Item>, rest: seq<Item>)
    ensures fs != [] ==> fs + rest != [] && (fs + rest)[0] == fs[0]
  {
  }

  /** The frames of the first object of a chain are taken off. */
  lemma ChainPop(m: Mem, id: nat, rest: seq<Item>)
    requires id < |m.konts| && m.konts[id].Process? && Chain(m, Kont(id), rest) && Bottom(rest)
    ensures Chain(m, m.konts[id].next, rest)
  {
    var k := m.konts[id];
    var fs :| OnlyFrames(fs) && Pends(m, Kont(id), fs + rest);
    var head := Split(m.sizes, m.stack, k.top, k.top + k.size);
    NotPast(fs, rest, head);
    assert (fs + rest)[|head|..] == fs[|head|..] + rest;
    assert OnlyFrames(fs[|head|..]);
  }

  /** The chain ends where the first system continuation is, or where there is no continuation. */
  lemma ChainEnds(m: Mem, r: Ref, rest: seq<Item>)
    requires Chain(m, r, rest) && Bottom(rest) && (r.Kont? ==> r.id < |m.konts| && m.konts[r.id].System?)
    ensures Pends(m, r, rest)
    ensures r.Null? <==> rest == []
    ensures r.Kont? ==> rest[0] == Return(r.id)
  {
    var fs :| OnlyFrames(fs) && Pends(m, r, fs + rest);
    FirstItem(fs, rest);
    assert fs == [] && fs + rest == rest;
  }

  // ---------- Continuations that belong to the same run ----------

  datatype End = TooLong | Reaches(s: Ref)

  /** The first system continuation of a chain, or its end, if the chain is not longer than fuel. */
  function FirstSystem(konts: seq<Continuation>, r: Ref, fuel: nat): (e: End)
    ensures e.Reaches? && e.s.Kont? ==> e.s.id < |konts| && konts[e.s.id].System?
    decreases fuel
  {
    match r
    case Null => Reaches(Null)
    case Kont(id) =>
      if |konts| <= id || fuel == 0 then TooLong
      else if konts[id].System? then Reaches(r)
      else FirstSystem(konts, konts[id].next, fuel - 1)
  }

  /** A chain that reaches s has pending, after its frames, what s has. */
  lemma {:induction false} FirstSystemChain(m: Mem, r: Ref, fuel: nat, rest: seq<Item>)
    requires Frozen(m, 0) && FirstSystem(m.konts, r, fuel).Reaches? && Pends(m, FirstSystem(m.konts, r, fuel).s, rest)
    ensures Chain(m, r, rest)
    decreases fuel
  {
    if r.Kont? && m.konts[r.id].Process? {
      FirstSystemChain(m, m.konts[r.id].next, fuel - 1, rest);
      ChainPush(m, r.id, rest);
    } else {
      assert OnlyFrames([]) && [] + rest == rest;
    }
  }

  /** The current chain reaches its first system continuation. */
  lemma {:induction false} ChainReaches(m: Mem, r: Ref, fuel: nat, rest: seq<Item>)
    requires Chain(m, r, rest) && Bottom(rest) && FirstSystem(m.konts, r, fuel).Reaches?
    ensures Pends(m, FirstSystem(m.konts, r, fuel).s, rest)
    decreases fuel
  {
    if r.Kont? && m.konts[r.id].Process? {
      ChainPop(m, r.id, rest);
      ChainReaches(m, m.konts[r.id].next, fuel - 1, rest);
    } else {
      ChainEnds(m, r, rest);
    }
  }
}
