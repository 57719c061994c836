/** The FASL reader: compact lists read to the same structure as nested pairs, with all sharing and all cycles. */
module Fasl {

  /** What a FASL stream says: the tree of its headers. A chain has at least one item, and its tail is the cdr of the
      last pair. */
  datatype Node =
    | Atom(n: int)
    | Ref(index: nat)
    | Pair(car: Node, cdr: Node)
    | Chain(first: Node, more: seq<Node>, tail: Node)
    | Vector(items: seq<Node>)
    | Marked(index: nat, node: Node)

  /** A Scheme value: immediate, or the number of an object with slots. */
  datatype Val = Imm(n: int) | Obj(id: nat)

  datatype State = State(heap: map<nat, seq<Val>>, next: nat, marks: map<nat, Val>)

  datatype Result = Ok(v: Val, s: State) | Abort

  function Size(x: Node): nat {
    match x
    case Atom(_) => 0
    case Ref(_) => 0
    case Pair(a, d) => 3 + Size(a) + Size(d)
    case Chain(a, more, d) => 2 + Size(a) + Sizes(more) + Size(d)
    case Vector(items) => 1 + Sizes(items)
    case Marked(_, y) => 1 + Size(y)
  }

  function Sizes(xs: seq<Node>): nat {
    if xs == [] then 0 else 1 + Size(xs[0]) + Sizes(xs[1..])
  }

  // ---------- The reader ----------

  function Numbers(from: nat, count: nat): (ids: set<nat>)
    ensures forall k {:trigger k in ids} :: k in ids <==> from <= k < from + count
  {
    if count == 0 then {} else Numbers(from, count - 1) + {from + count - 1}
  }

  /** New objects of n slots each; what is in the slots is not known. */
  function Allocated(s: State, count: nat, n: nat): State {
    State(s.heap + map id | id in Numbers(s.next, count) :: seq(n, _ => Imm(0)), s.next + count, s.marks)
  }

  function SetMark(s: State, mark: nat, v: Val): State {
    if mark == 0 then s else s.(marks := s.marks[mark := v])
  }

  function SetSlot(s: State, id: nat, i: nat, v: Val): State {
    if id in s.heap && i < |s.heap[id]| then s.(heap := s.heap[id := s.heap[id][i := v]]) else s
  }

  /** do_read; mark is the index that precedes the object, or 0. Immediate values are not marked. */
  function Read(x: Node, s: State, mark: nat): Result
    decreases Size(x), 1
  {
    match x
    case Atom(n) => Ok(Imm(n), s)
    case Ref(k) => if k != 0 && k in s.marks then Ok(s.marks[k], s) else Abort
    case Pair(a, d) => ReadPair(a, d, s.next, SetMark(Allocated(s, 1, 2), mark, Obj(s.next)))
    case Chain(a, more, d) => ReadSpine(a, more, d, s.next, SetMark(Allocated(s, 1 + |more|, 2), mark, Obj(s.next)))
    case Vector(items) => ReadSlots(items, s.next, 0, SetMark(Allocated(s, 1, |items|), mark, Obj(s.next)))
    case Marked(k, y) => if mark != 0 || y.Marked? || k in s.marks then Abort else Read(y, s, k)
  }

  /** The car and the cdr of the pair id. */
  function ReadPair(a: Node, d: Node, id: nat, s: State): Result
    decreases Size(a) + Size(d) + 1, 0
  {
    match Read(a, s, 0)
    case Abort => Abort
    case Ok(u, s1) =>
      match Read(d, SetSlot(s1, id, 0, u), 0)
      case Abort => Abort
      case Ok(v, s2) => Ok(Obj(id), SetSlot(s2, id, 1, v))
  }

  /** The items of a chain into the pairs from id on, which are one after the other. */
  function ReadSpine(a: Node, more: seq<Node>, d: Node, id: nat, s: State): Result
    decreases Size(a) + Sizes(more) + Size(d) + 1, 1
  {
    if more == [] then ReadPair(a, d, id, s) else
      match Read(a, s, 0)
      case Abort => Abort
      case Ok(u, s1) =>
        match ReadSpine(more[0], more[1..], d, id + 1, SetSlot(SetSlot(s1, id, 0, u), id, 1, Obj(id + 1)))
        case Abort => Abort
        case Ok(_, s2) => Ok(Obj(id), s2)
  }

  function ReadSlots(items: seq<Node>, id: nat, i: nat, s: State): Result
    decreases Sizes(items), 2
  {
    if items == [] then Ok(Obj(id), s) else
      match Read(items[0], s, 0)
      case Abort => Abort
      case Ok(u, s1) => ReadSlots(items[1..], id, i + 1, SetSlot(s1, id, i, u))
  }

  // ---------- The reader as it is written ----------

  class Port {
    var heap: map<nat, seq<Val>>
    var next: nat
    var marks: map<nat, Val>

    constructor ()
      ensures Now() == State(map[], 0, map[])
    {
      heap, next, marks := map[], 0, map[];
    }

    function Now(): State
      reads this
    {
      State(heap, next, marks)
    }

    method Allocate(count: nat, n: nat) returns (id: nat)
      modifies this`heap, this`next
      ensures id == old(next) && Now() == Allocated(old(Now()), count, n)
    {
      id := next;
      heap := heap + map k | k in Numbers(next, count) :: seq(n, _ => Imm(0));
      next := next + count;
    }

    method PutMark(mark: nat, v: Val)
      modifies this`marks
      ensures Now() == SetMark(old(Now()), mark, v)
    {
      if mark != 0 {
        marks := marks[mark := v];
      }
    }

    method PutSlot(id: nat, i: nat, v: Val)
      modifies this`heap
      ensures Now() == SetSlot(old(Now()), id, i, v)
    {
      if id in heap && i < |heap[id]| {
        heap := heap[id := heap[id][i := v]];
      }
    }

    /** do_read */
    method DoRead(x: Node, mark: nat) returns (ok: bool, v: Val)
      modifies this
      ensures ok <==> Read(x, old(Now()), mark).Ok?
      ensures ok ==> Read(x, old(Now()), mark) == Ok(v, Now())
      decreases Size(x), 2
    {
      hide Allocated, SetSlot, SetMark, Size, Sizes;
      SizeOf(x);
      v := Imm(0);
      match x
      case Atom(n) =>
        ok, v := true, Imm(n);
      case Ref(k) =>
        ok := k != 0 && k in marks;
        if ok {
          v := marks[k];
        }
      case Pair(a, d) =>
        var id := Allocate(1, 2);
        PutMark(mark, Obj(id));
        ok := FillPair(a, d, id);
        v := Obj(id);
      case Chain(a, more, d) =>
        var id := Allocate(1 + |more|, 2);
        PutMark(mark, Obj(id));
        ok := FillSpine(a, more, d, id);
        v := Obj(id);
      case Vector(items) =>
        var id := Allocate(1, |items|);
        PutMark(mark, Obj(id));
        ok := FillSlots(items, id);
        v := Obj(id);
      case Marked(k, y) =>
        ok := !(mark != 0 || y.Marked? || k in marks);
        if ok {
          ok, v := DoRead(y, k);
        }
    }

    method FillPair(a: Node, d: Node, id: nat) returns (ok: bool)
      modifies this
      ensures ok <==> ReadPair(a, d, id, old(Now())).Ok?
      ensures ok ==> ReadPair(a, d, id, old(Now())) == Ok(Obj(id), Now())
      decreases Size(a) + Size(d) + 1, 0
    {
      hide Read, SetSlot, Size;
      var u, v;
      ok, u := DoRead(a, 0);
      if ok {
        PutSlot(id, 0, u);
        ok, v := DoRead(d, 0);
        if ok {
          PutSlot(id, 1, v);
        }
      }
    }

    /** The loop for the pairs of a chain. */
    method FillSpine(a: Node, more: seq<Node>, d: Node, id: nat) returns (ok: bool)
      modifies this
      ensures ok <==> ReadSpine(a, more, d, id, old(Now())).Ok?
      ensures ok ==> ReadSpine(a, more, d, id, old(Now())) == Ok(Obj(id), Now())
      decreases Size(a) + Sizes(more) + Size(d) + 1, 1
    {
      hide Read, ReadPair, SetSlot, Size;
      var x, rest, spine := a, more, id;
      var u;
      ghost var s0 := Now();
      SpineValue(a, more, d, id, s0);
      while rest != []
        invariant Size(x) + Sizes(rest) <= Size(a) + Sizes(more)
        invariant ReadSpine(x, rest, d, spine, Now()).Ok? <==> ReadSpine(a, more, d, id, s0).Ok?
        invariant ReadSpine(x, rest, d, spine, Now()).Ok? ==> ReadSpine(x, rest, d, spine, Now()).s == ReadSpine(a, more, d, id, s0).s
        invariant ReadSpine(a, more, d, id, s0).Ok? ==> ReadSpine(a, more, d, id, s0).v == Obj(id)
        decreases |rest|
      {
        ok, u := DoRead(x, 0);
        if !ok {
          return;
        }
        PutSlot(spine, 0, u);
        PutSlot(spine, 1, Obj(spine + 1));
        x, rest, spine := rest[0], rest[1..], spine + 1;
      }
      ok := FillPair(x, d, spine);
    }

    method FillSlots(items: seq<Node>, id: nat) returns (ok: bool)
      modifies this
      ensures ok <==> ReadSlots(items, id, 0, old(Now())).Ok?
      ensures ok ==> ReadSlots(items, id, 0, old(Now())) == Ok(Obj(id), Now())
      decreases Sizes(items), 3
    {
      hide Read, SetSlot, Size;
      var rest, i := items, 0;
      ghost var s0 := Now();
      var u;
      while rest != []
        invariant 0 <= i && Sizes(rest) <= Sizes(items)
        invariant ReadSlots(rest, id, i, Now()) == ReadSlots(items, id, 0, s0)
        decreases |rest|
      {
        ok, u := DoRead(rest[0], 0);
        if !ok {
          return;
        }
        PutSlot(id, i, u);
        rest, i := rest[1..], i + 1;
      }
      ok := true;
    }
  }

  lemma SizeOf(x: Node)
    ensures x.Pair? ==> Size(x) == 3 + Size(x.car) + Size(x.cdr)
    ensures x.Chain? ==> Size(x) == 2 + Size(x.first) + Sizes(x.more) + Size(x.tail)
    ensures x.Vector? ==> Size(x) == 1 + Sizes(x.items)
    ensures x.Marked? ==> Size(x) == 1 + Size(x.node)
  {
  }

  lemma SpineValue(a: Node, more: seq<Node>, d: Node, id: nat, s: State)
    ensures ReadSpine(a, more, d, id, s).Ok? ==> ReadSpine(a, more, d, id, s).v == Obj(id)
  {
  }

  // ---------- The plain form ----------

  /** Chains written as nested pairs. */
  function Plain(x: Node): Node
    decreases Size(x), 1
  {
    match x
    case Atom(_) => x
    case Ref(_) => x
    case Pair(a, d) => Pair(Plain(a), Plain(d))
    case Chain(a, more, d) => Nested(a, more, d)
    case Vector(items) => Vector(PlainItems(items))
    case Marked(k, y) => Marked(k, Plain(y))
  }

  function Nested(a: Node, more: seq<Node>, d: Node): (r: Node)
    ensures r.Pair?
    decreases Size(a) + Sizes(more) + Size(d) + 1, 0
  {
    Pair(Plain(a), if more == [] then Plain(d) else Nested(more[0], more[1..], d))
  }

  function PlainItems(items: seq<Node>): (r: seq<Node>)
    ensures |r| == |items|
    decreases Sizes(items), 2
  {
    if items == [] then [] else [Plain(items[0])] + PlainItems(items[1..])
  }

  // ---------- Two runs of the reader ----------

  /** What reading changes: objects that are not being filled stay as they are. */
  ghost predicate Grows(s: State, t: State, from: nat, to: nat) {
    && s.next <= t.next && (forall id {:trigger id in s.heap} {:trigger id in t.heap} :: id in s.heap ==>
          id in t.heap && |t.heap[id]| == |s.heap[id]| && (!(from <= id < to) ==> t.heap[id] == s.heap[id]))
  }

  /** The objects are numbered up to next. */
  predicate Bounded(s: State) {
    forall id {:trigger id in s.heap} :: id in s.heap ==> id < s.next
  }

  /** New objects, and what is read into them. */
  lemma NewGrows(s: State, count: nat, n: nat, mark: nat, v: Val, t: State)
    requires Bounded(s) && Grows(SetMark(Allocated(s, count, n), mark, v), t, s.next, s.next + count)
    ensures Grows(s, t, 0, 0)
  {
    var s1 := SetMark(Allocated(s, count, n), mark, v);
    forall id | id in s.heap ensures id in s1.heap && s1.heap[id] == s.heap[id] && id < s.next {}
  }

  lemma NewBounded(s: State, count: nat, n: nat, mark: nat, v: Val)
    requires Bounded(s)
    ensures Bounded(SetMark(Allocated(s, count, n), mark, v))
  {
  }

  /** A slot is set, and more is read. */
  lemma SlotGrows(s: State, t: State, id: nat, i: nat, v: Val, u: State, from: nat, to: nat)
    requires Grows(s, t, 0, 0) && Grows(SetSlot(t, id, i, v), u, from, to) && from <= id < to
    ensures Grows(s, u, from, to)
  {
    var t1 := SetSlot(t, id, i, v);
    forall k | k in s.heap ensures k in t1.heap && |t1.heap[k]| == |s.heap[k]| && (k != id ==> t1.heap[k] == s.heap[k]) {
      assert k in t.heap;
    }
  }

  lemma SlotBounded(s: State, id: nat, i: nat, v: Val)
    requires Bounded(s)
    ensures Bounded(SetSlot(s, id, i, v)) && SetSlot(s, id, i, v).next == s.next
  {
  }

  lemma SetGrows(s: State, t: State, id: nat, i: nat, v: Val)
    requires Grows(s, t, 0, 0)
    ensures Grows(s, SetSlot(t, id, i, v), id, id + 1)
  {
  }

  lemma GrowsWiden(s: State, t: State, from: nat, to: nat, from': nat, to': nat)
    requires Grows(s, t, from, to) && from' <= from && to <= to'
    ensures Grows(s, t, from', to')
  {
  }

  lemma {:induction false} ReadGrows(x: Node, s: State, mark: nat)
    requires Read(x, s, mark).Ok? && Bounded(s)
    ensures Grows(s, Read(x, s, mark).s, 0, 0) && Bounded(Read(x, s, mark).s)
    decreases Size(x), 1
  {
    match x
    case Atom(_) =>
    case Ref(_) =>
    case Pair(a, d) =>
      hide Grows, Bounded, Allocated, SetMark, ReadPair;
      NewBounded(s, 1, 2, mark, Obj(s.next));
      PairGrows(a, d, s.next, SetMark(Allocated(s, 1, 2), mark, Obj(s.next)));
      NewGrows(s, 1, 2, mark, Obj(s.next), Read(x, s, mark).s);
    case Chain(a, more, d) =>
      hide Grows, Bounded, Allocated, SetMark, ReadSpine;
      NewBounded(s, 1 + |more|, 2, mark, Obj(s.next));
      SpineGrows(a, more, d, s.next, SetMark(Allocated(s, 1 + |more|, 2), mark, Obj(s.next)));
      NewGrows(s, 1 + |more|, 2, mark, Obj(s.next), Read(x, s, mark).s);
    case Vector(items) =>
      hide Grows, Bounded, Allocated, SetMark, ReadSlots;
      NewBounded(s, 1, |items|, mark, Obj(s.next));
      SlotsGrow(items, s.next, 0, SetMark(Allocated(s, 1, |items|), mark, Obj(s.next)));
      NewGrows(s, 1, |items|, mark, Obj(s.next), Read(x, s, mark).s);
    case Marked(k, y) => ReadGrows(y, s, k);
  }

  lemma {:induction false} PairGrows(a: Node, d: Node, id: nat, s: State)
    requires ReadPair(a, d, id, s).Ok? && Bounded(s)
    ensures Grows(s, ReadPair(a, d, id, s).s, id, id + 1) && Bounded(ReadPair(a, d, id, s).s)
    decreases Size(a) + Size(d) + 1, 0
  {
    hide Grows, Bounded, SetSlot, Read;
    ReadGrows(a, s, 0);
    var r := Read(a, s, 0);
    var s1 := SetSlot(r.s, id, 0, r.v);
    SlotBounded(r.s, id, 0, r.v);
    ReadGrows(d, s1, 0);
    var q := Read(d, s1, 0);
    SlotBounded(q.s, id, 1, q.v);
    SetGrows(s1, q.s, id, 1, q.v);
    SlotGrows(s, r.s, id, 0, r.v, SetSlot(q.s, id, 1, q.v), id, id + 1);
  }

  lemma {:induction false} SpineGrows(a: Node, more: seq<Node>, d: Node, id: nat, s: State)
    requires ReadSpine(a, more, d, id, s).Ok? && Bounded(s)
    ensures Grows(s, ReadSpine(a, more, d, id, s).s, id, id + 1 + |more|) && Bounded(ReadSpine(a, more, d, id, s).s)
    decreases Size(a) + Sizes(more) + Size(d) + 1, 1
  {
    hide Grows, Bounded, SetSlot, Read, ReadPair;
    if more == [] {
      PairGrows(a, d, id, s);
    } else {
      ReadGrows(a, s, 0);
      var r := Read(a, s, 0);
      var s1 := SetSlot(r.s, id, 0, r.v);
      var s2 := SetSlot(s1, id, 1, Obj(id + 1));
      SlotBounded(r.s, id, 0, r.v);
      SlotBounded(s1, id, 1, Obj(id + 1));
      SpineGrows(more[0], more[1..], d, id + 1, s2);
      var q := ReadSpine(more[0], more[1..], d, id + 1, s2);
      GrowsWiden(s2, q.s, id + 1, id + 1 + |more|, id, id + 1 + |more|);
      GrowsRefl(s1);
      SlotGrows(s1, s1, id, 1, Obj(id + 1), q.s, id, id + 1 + |more|);
      SlotGrows(s, r.s, id, 0, r.v, q.s, id, id + 1 + |more|);
    }
  }

  lemma GrowsRefl(s: State)
    ensures Grows(s, s, 0, 0)
  {
  }

  lemma {:induction false} SlotsGrow(items: seq<Node>, id: nat, i: nat, s: State)
    requires ReadSlots(items, id, i, s).Ok? && Bounded(s)
    ensures Grows(s, ReadSlots(items, id, i, s).s, id, id + 1) && Bounded(ReadSlots(items, id, i, s).s)
    decreases Sizes(items), 2
  {
    hide Grows, Bounded, SetSlot, Read;
    if items == [] {
      GrowsKept(s, id);
    } else {
      ReadGrows(items[0], s, 0);
      var r := Read(items[0], s, 0);
      SlotBounded(r.s, id, i, r.v);
      SlotsGrow(items[1..], id, i + 1, SetSlot(r.s, id, i, r.v));
      SlotGrows(s, r.s, id, i, r.v, ReadSlots(items, id, i, s).s, id, id + 1);
    }
  }

  lemma GrowsKept(s: State, id: nat)
    ensures Grows(s, s, id, id + 1)
  {
  }

  /** The same value in two heaps, by a correspondence of their objects. */
  predicate Same(rel: map<nat, nat>, u: Val, v: Val) {
    match u
    case Imm(_) => u == v
    case Obj(id) => id in rel && v == Obj(rel[id])
  }

  ghost predicate SameSlots(rel: map<nat, nat>, x: seq<Val>, y: seq<Val>) {
    |x| == |y| && forall i {:trigger x[i]} {:trigger y[i]} :: 0 <= i < |x| ==> Same(rel, x[i], y[i])
  }

  /** The objects correspond one to one, and hold the same, except for those that are still being filled. */
  ghost predicate AlikeObjects(rel: map<nat, nat>, open: set<nat>, s: map<nat, seq<Val>>, t: map<nat, seq<Val>>) {
    && (forall a {:trigger a in rel} :: a in rel ==> a in s && rel[a] in t && |s[a]| == |t[rel[a]]|)
    && (forall a, b {:trigger rel[a], rel[b]} :: a in rel && b in rel && a != b ==> rel[a] != rel[b])
    && (forall a {:trigger a in rel} :: a in rel && a !in open ==> SameSlots(rel, s[a], t[rel[a]]))
  }

  /** So do the marks. */
  ghost predicate Alike(rel: map<nat, nat>, open: set<nat>, s: State, t: State) {
    && Bounded(s) && Bounded(t) && AlikeObjects(rel, open, s.heap, t.heap)
    && s.marks.Keys == t.marks.Keys && (forall k {:trigger k in s.marks} :: k in s.marks ==> Same(rel, s.marks[k], t.marks[k]))
  }

  /** More objects correspond, and the new ones are numbered from next on. */
  ghost predicate More(rel: map<nat, nat>, rel': map<nat, nat>, next: nat) {
    && (forall a {:trigger a in rel'} {:trigger a in rel} :: a in rel ==> a in rel' && rel'[a] == rel[a])
    && (forall a {:trigger a in rel'} :: a in rel' && a !in rel ==> next <= a)
  }

  lemma SameMore(rel: map<nat, nat>, rel': map<nat, nat>, next: nat, u: Val, v: Val)
    requires More(rel, rel', next) && Same(rel, u, v)
    ensures Same(rel', u, v)
  {
  }

  /** Objects a and rel[a], which are being filled, get the same slot, whatever is put in. */
  lemma FillAlike(rel: map<nat, nat>, open: set<nat>, s: State, t: State, a: nat, i: nat, u: Val, v: Val)
    requires Alike(rel, open, s, t) && a in rel && a in open
    ensures Alike(rel, open, SetSlot(s, a, i, u), SetSlot(t, rel[a], i, v))
    ensures Alike(rel, open, SetSlot(s, a, i, u), t)
  {
  }

  lemma CloseAlike(rel: map<nat, nat>, open: set<nat>, s: State, t: State, a: nat)
    requires Alike(rel, open, s, t) && a in rel && SameSlots(rel, s.heap[a], t.heap[rel[a]])
    ensures Alike(rel, open - {a}, s, t)
  {
  }

  /** Pairs one after the other, of which only the first corresponds to an object of the other side. */
  ghost predicate Spine(rel: map<nat, nat>, s: State, id: nat, count: nat) {
    forall k {:trigger k in s.heap} :: id <= k < id + count ==> k in s.heap && |s.heap[k]| == 2 && k < s.next && (k != id ==> k !in rel)
  }

  lemma SlotsMore(rel: map<nat, nat>, rel': map<nat, nat>, next: nat, x: seq<Val>, y: seq<Val>)
    requires More(rel, rel', next) && SameSlots(rel, x, y)
    ensures SameSlots(rel', x, y)
  {
    forall i | 0 <= i < |x| ensures Same(rel', x[i], y[i]) { assert Same(rel, x[i], y[i]); }
  }

  /** What allocating does to the objects there are. */
  lemma AllocatedFacts(s: State, count: nat, n: nat)
    requires Bounded(s)
    ensures var t := Allocated(s, count, n);
            && t.next == s.next + count && t.marks == s.marks && Bounded(t)
            && (forall a {:trigger a in t.heap} {:trigger a in s.heap} :: a in s.heap ==> a < s.next && a in t.heap && t.heap[a] == s.heap[a])
            && (forall k {:trigger k in t.heap} :: s.next <= k < s.next + count ==> k in t.heap && |t.heap[k]| == n)
  {
    forall k | s.next <= k < s.next + count ensures k in Numbers(s.next, count) {}
  }

  lemma OpenMore(rel: map<nat, nat>, open: set<nat>, s: State, t: State, b: nat)
    requires Alike(rel, open, s, t)
    ensures s.next !in rel && More(rel, rel[s.next := b], s.next)
  {
  }

  /** The marks, when an object that corresponds to one on the other side has been marked. */
  lemma OpenMarks(rel: map<nat, nat>, rel': map<nat, nat>, s: State, t: State, mark: nat, id: nat)
    requires s.marks.Keys == t.marks.Keys && (forall k {:trigger k in s.marks} :: k in s.marks ==> Same(rel, s.marks[k], t.marks[k]))
    requires id in rel' && forall a {:trigger a in rel} :: a in rel ==> a in rel' && rel'[a] == rel[a]
    ensures var s', t' := SetMark(s, mark, Obj(id)), SetMark(t, mark, Obj(rel'[id]));
            s'.marks.Keys == t'.marks.Keys && forall k {:trigger k in s'.marks} :: k in s'.marks ==> Same(rel', s'.marks[k], t'.marks[k])
  {
    var s', t' := SetMark(s, mark, Obj(id)), SetMark(t, mark, Obj(rel'[id]));
    forall k | k in s'.marks ensures Same(rel', s'.marks[k], t'.marks[k]) {
      if k in s.marks { assert Same(rel, s.marks[k], t.marks[k]); }
    }
  }

  /** New objects correspond: the first of count on one side, and one on the other. */
  lemma OpenAlike(rel: map<nat, nat>, open: set<nat>, s: State, t: State, count: nat, n: nat, mark: nat)
    requires Alike(rel, open, s, t) && open <= rel.Keys && 0 < count
    ensures var s', t' := SetMark(Allocated(s, count, n), mark, Obj(s.next)), SetMark(Allocated(t, 1, n), mark, Obj(t.next));
            var rel' := rel[s.next := t.next];
            && Alike(rel', open + {s.next}, s', t') && More(rel, rel', s.next) && s.next !in rel
            && s'.next == s.next + count && s.next in s'.heap && |s'.heap[s.next]| == n && (n == 2 ==> Spine(rel', s', s.next, count))
            && t.next in t'.heap && |t'.heap[t.next]| == n
  {
    var rel' := rel[s.next := t.next];
    var s1, t1 := Allocated(s, count, n), Allocated(t, 1, n);
    AllocatedFacts(s, count, n);
    AllocatedFacts(t, 1, n);
    OpenMore(rel, open, s, t, t.next);
    OpenMarks(rel, rel', s1, t1, mark, s.next);
    assert s.next in s1.heap && t.next in t1.heap;
    if n == 2 { OpenSpine(rel, open, s, t, s1, count, t.next, mark); }
    hide Allocated, More, Spine, Same, SameSlots, AlikeObjects, Bounded;
    OpenObjects(rel, open, s, t, s1, t1, s.next, t.next);
  }

  lemma OpenSpine(rel: map<nat, nat>, open: set<nat>, s: State, t: State, s1: State, count: nat, b: nat, mark: nat)
    requires Alike(rel, open, s, t) && s1.next == s.next + count
    requires forall k {:trigger k in s1.heap} :: s.next <= k < s.next + count ==> k in s1.heap && |s1.heap[k]| == 2
    ensures Spine(rel[s.next := b], SetMark(s1, mark, Obj(s.next)), s.next, count)
  {
    var s' := SetMark(s1, mark, Obj(s.next));
    forall k {:trigger k in s'.heap} | s.next <= k < s.next + count ensures k in s'.heap && |s'.heap[k]| == 2 && k < s'.next && (k != s.next ==> k !in rel) {
      assert k in s1.heap;
      assert k in rel ==> k in s.heap;
    }
  }

  lemma OpenObjects(rel: map<nat, nat>, open: set<nat>, s: State, t: State, s1: State, t1: State, c: nat, b: nat)
    requires AlikeObjects(rel, open, s.heap, t.heap) && Bounded(t) && c !in rel && t.next <= b && More(rel, rel[c := b], c)
    requires forall a {:trigger a in s1.heap} {:trigger a in s.heap} :: a in s.heap ==> a in s1.heap && s1.heap[a] == s.heap[a]
    requires forall a {:trigger a in t1.heap} {:trigger a in t.heap} :: a in t.heap ==> a in t1.heap && t1.heap[a] == t.heap[a]
    requires c in s1.heap && b in t1.heap && |s1.heap[c]| == |t1.heap[b]|
    ensures AlikeObjects(rel[c := b], open + {c}, s1.heap, t1.heap)
  {
    hide More, SameSlots;
    var rel' := rel[c := b];
    forall a | a in rel ensures a in s.heap && rel[a] in t.heap && rel[a] < t.next && a != c {}
    forall a | a in rel && a !in open ensures SameSlots(rel', s1.heap[a], t1.heap[rel'[a]]) {
      SlotsMore(rel, rel', c, s.heap[a], t.heap[rel[a]]);
    }
  }

  // ---------- The compact form means the same ----------

  lemma MoreTrans(a: map<nat, nat>, b: map<nat, nat>, c: map<nat, nat>, m: nat, n: nat)
    requires More(a, b, m) && More(b, c, n) && m <= n
    ensures More(a, c, m)
  {
  }

  /** What the two runs have in common when they are done with an object: u and v correspond. */
  ghost predicate Agree(rel: map<nat, nat>, rel': map<nat, nat>, open: set<nat>, next: nat, x: Result, y: Result) {
    && (x.Abort? <==> y.Abort?)
    && (x.Ok? ==> More(rel, rel', next) && Alike(rel', open, x.s, y.s) && Same(rel', x.v, y.v))
  }

  /** Reading a node, and reading its plain form. */
  lemma {:induction false} ReadAgrees(x: Node, s: State, t: State, mark: nat, rel: map<nat, nat>, open: set<nat>) returns (rel': map<nat, nat>)
    requires Alike(rel, open, s, t) && open <= rel.Keys
    ensures Agree(rel, rel', open, s.next, Read(x, s, mark), Read(Plain(x), t, mark))
    decreases Size(x), 1
  {
    hide Alike, Allocated, SetMark, SetSlot;
    rel' := rel;
    match x
    case Atom(_) =>
    case Ref(k) => MarkAlike(rel, open, s, t, k);
    case Pair(a, d) =>
      OpenAlike(rel, open, s, t, 1, 2, mark);
      var s1, t1 := SetMark(Allocated(s, 1, 2), mark, Obj(s.next)), SetMark(Allocated(t, 1, 2), mark, Obj(t.next));
      var rel1 := rel[s.next := t.next];
      rel' := PairAgrees(a, d, s1, t1, s.next, rel1, open + {s.next});
      Closed(rel, rel1, rel', open, s.next, s.next + 1, ReadPair(a, d, s.next, s1), ReadPair(Plain(a), Plain(d), t.next, t1));
    case Chain(a, more, d) =>
      OpenAlike(rel, open, s, t, 1 + |more|, 2, mark);
      var s1, t1 := SetMark(Allocated(s, 1 + |more|, 2), mark, Obj(s.next)), SetMark(Allocated(t, 1, 2), mark, Obj(t.next));
      var rel1 := rel[s.next := t.next];
      var p := Nested(a, more, d);
      rel' := SpineAgrees(a, more, d, s1, t1, s.next, rel1, open + {s.next});
      Closed(rel, rel1, rel', open, s.next, s.next + 1, ReadSpine(a, more, d, s.next, s1), ReadPair(p.car, p.cdr, t.next, t1));
    case Vector(items) =>
      OpenAlike(rel, open, s, t, 1, |items|, mark);
      var s1, t1 := SetMark(Allocated(s, 1, |items|), mark, Obj(s.next)), SetMark(Allocated(t, 1, |items|), mark, Obj(t.next));
      var rel1 := rel[s.next := t.next];
      rel' := SlotsAgree(items, s1, t1, s.next, 0, rel1, open + {s.next});
      Closed(rel, rel1, rel', open, s.next, s.next + 1, ReadSlots(items, s.next, 0, s1), ReadSlots(PlainItems(items), t.next, 0, t1));
    case Marked(k, y) =>
      MarkAlike(rel, open, s, t, k);
      PlainMarked(y);
      if mark == 0 && !y.Marked? && k !in s.marks { rel' := ReadAgrees(y, s, t, k, rel, open); }
  }

  lemma PlainMarked(y: Node)
    ensures Plain(y).Marked? <==> y.Marked?
  {
  }

  lemma MarkAlike(rel: map<nat, nat>, open: set<nat>, s: State, t: State, k: nat)
    requires Alike(rel, open, s, t)
    ensures k in s.marks <==> k in t.marks
    ensures k in s.marks ==> Same(rel, s.marks[k], t.marks[k])
    ensures More(rel, rel, s.next)
  {
    assert k in s.marks <==> k in s.marks.Keys;
    assert k in t.marks <==> k in t.marks.Keys;
  }

  /** The object that was being filled is done. */
  lemma Closed(rel: map<nat, nat>, rel1: map<nat, nat>, rel': map<nat, nat>, open: set<nat>, id: nat, next: nat, x: Result, y: Result)
    requires More(rel, rel1, id) && id !in rel && open <= rel.Keys && id <= next
    requires Agree(rel1, rel', open + {id} - {id}, next, x, y)
    ensures Agree(rel, rel', open, id, x, y)
  {
    assert open + {id} - {id} == open;
    if x.Ok? { MoreTrans(rel, rel1, rel', id, next); }
  }

  /** The car and the cdr of a pair; the pair is done with at the end. */
  lemma {:induction false} PairAgrees(a: Node, d: Node, s: State, t: State, id: nat, rel: map<nat, nat>, open: set<nat>) returns (rel': map<nat, nat>)
    requires Alike(rel, open, s, t) && open <= rel.Keys && id in open && id in s.heap && |s.heap[id]| == 2
    ensures Agree(rel, rel', open - {id}, s.next, ReadPair(a, d, id, s), ReadPair(Plain(a), Plain(d), rel[id], t))
    decreases Size(a) + Size(d) + 1, 0
  {
    hide Alike, SetSlot, Same, More;
    assert id in rel.Keys;
    AlikeFacts(rel, open, s, t, id);
    var rel1 := ReadAgrees(a, s, t, 0, rel, open);
    rel' := rel1;
    var x, y := Read(a, s, 0), Read(Plain(a), t, 0);
    if x.Ok? {
      var s1, t1 := SetSlot(x.s, id, 0, x.v), SetSlot(y.s, rel[id], 0, y.v);
      Filled(rel, rel1, open, s, t, a, id, 0, x, y);
      rel' := ReadAgrees(d, s1, t1, 0, rel1, open);
      var x2, y2 := Read(d, s1, 0), Read(Plain(d), t1, 0);
      if x2.Ok? {
        MoreTrans(rel, rel1, rel', s.next, s1.next);
        LastFilled(rel1, rel', open, s1, t1, d, id, x.v, y.v, x2, y2);
      }
    }
  }

  /** The first slot has been filled on both sides. */
  lemma Filled(rel: map<nat, nat>, rel1: map<nat, nat>, open: set<nat>, s: State, t: State, a: Node, id: nat, i: nat, x: Result, y: Result)
    requires Alike(rel, open, s, t) && open <= rel.Keys && id in open && id in s.heap && i < |s.heap[id]|
    requires x == Read(a, s, 0) && y == Read(Plain(a), t, 0) && x.Ok? && Agree(rel, rel1, open, s.next, x, y)
    ensures var s1, t1 := SetSlot(x.s, id, i, x.v), SetSlot(y.s, rel[id], i, y.v);
            && Alike(rel1, open, s1, t1) && open <= rel1.Keys && id in rel1 && rel1[id] == rel[id] && s.next <= s1.next
            && id in s1.heap && s1.heap[id] == s.heap[id][i := x.v]
            && rel[id] in t1.heap && t1.heap[rel[id]] == t.heap[rel[id]][i := y.v] && Same(rel1, x.v, y.v)
  {
    ReadGrows(a, s, 0);
    ReadGrows(Plain(a), t, 0);
    FillAlike(rel1, open, x.s, y.s, id, i, x.v, y.v);
  }

  /** The second slot of a pair has been filled on both sides. */
  lemma LastFilled(rel1: map<nat, nat>, rel': map<nat, nat>, open: set<nat>, s1: State, t1: State, d: Node, id: nat, u: Val, v: Val, x: Result, y: Result)
    requires Alike(rel1, open, s1, t1) && open <= rel1.Keys && id in open && id in rel1 && Same(rel1, u, v)
    requires id in s1.heap && |s1.heap[id]| == 2 && s1.heap[id][0] == u
    requires rel1[id] in t1.heap && |t1.heap[rel1[id]]| == 2 && t1.heap[rel1[id]][0] == v
    requires x == Read(d, s1, 0) && y == Read(Plain(d), t1, 0) && x.Ok? && Agree(rel1, rel', open, s1.next, x, y)
    ensures Alike(rel', open - {id}, SetSlot(x.s, id, 1, x.v), SetSlot(y.s, rel1[id], 1, y.v))
    ensures Same(rel', Obj(id), Obj(rel1[id]))
  {
    Filled(rel1, rel', open, s1, t1, d, id, 1, x, y);
    SameMore(rel1, rel', s1.next, u, v);
    var s2, t2 := SetSlot(x.s, id, 1, x.v), SetSlot(y.s, rel1[id], 1, y.v);
    CloseAlike(rel', open, s2, t2, id);
  }

  lemma SpineStep(a: Node, more: seq<Node>, d: Node, id: nat, s: State)
    ensures more == [] ==> ReadSpine(a, more, d, id, s) == ReadPair(a, d, id, s)
    ensures more != [] ==>
              var x := Read(a, s, 0);
              if x.Abort? then ReadSpine(a, more, d, id, s).Abort? else
                var y := ReadSpine(more[0], more[1..], d, id + 1, SetSlot(SetSlot(x.s, id, 0, x.v), id, 1, Obj(id + 1)));
                ReadSpine(a, more, d, id, s) == if y.Abort? then Abort else Ok(Obj(id), y.s)
  {
  }

  lemma NestedStep(a: Node, more: seq<Node>, d: Node, id: nat, t: State)
    ensures more == [] ==> Nested(a, more, d) == Pair(Plain(a), Plain(d))
    ensures more != [] ==>
              var n, p, x := Nested(a, more, d), Nested(more[0], more[1..], d), Read(Plain(a), t, 0);
              if x.Abort? then ReadPair(n.car, n.cdr, id, t).Abort? else
                var t1 := SetSlot(x.s, id, 0, x.v);
                var y := ReadPair(p.car, p.cdr, t1.next, Allocated(t1, 1, 2));
                ReadPair(n.car, n.cdr, id, t) == if y.Abort? then Abort else Ok(Obj(id), SetSlot(y.s, id, 1, y.v))
  {
    if more != [] {
      var p, x := Nested(more[0], more[1..], d), Read(Plain(a), t, 0);
      if x.Ok? {
        var t1 := SetSlot(x.s, id, 0, x.v);
        assert Read(p, t1, 0) == ReadPair(p.car, p.cdr, t1.next, Allocated(t1, 1, 2));
      }
    }
  }

  /** The pairs of a chain, which are allocated together on one side, and one by one on the other. */
  lemma {:induction false} SpineAgrees(a: Node, more: seq<Node>, d: Node, s: State, t: State, id: nat, rel: map<nat, nat>, open: set<nat>)
    returns (rel': map<nat, nat>)
    requires Alike(rel, open, s, t) && open <= rel.Keys && id in open
    requires Spine(rel, s, id, 1 + |more|)
    ensures var p := Nested(a, more, d);
            Agree(rel, rel', open - {id}, id + 1, ReadSpine(a, more, d, id, s), ReadPair(p.car, p.cdr, rel[id], t))
    decreases Size(a) + Sizes(more) + Size(d) + 1, 1
  {
    hide Alike, SetSlot, Allocated, Same, Bounded, ReadPair, ReadSpine, Read;
    assert id in s.heap && id in rel.Keys;
    AlikeFacts(rel, open, s, t, id);
    SpineStep(a, more, d, id, s);
    NestedStep(a, more, d, rel[id], t);
    if more == [] {
      rel' := PairAgrees(a, d, s, t, id, rel, open);
    } else {
      var rel1 := ReadAgrees(a, s, t, 0, rel, open);
      rel' := rel1;
      var x, y := Read(a, s, 0), Read(Plain(a), t, 0);
      if x.Ok? {
        Filled(rel, rel1, open, s, t, a, id, 0, x, y);
        var s1, t1 := SetSlot(x.s, id, 0, x.v), SetSlot(y.s, rel[id], 0, y.v);
        var s2 := SetSlot(s1, id, 1, Obj(id + 1));
        var b := t1.next;
        var t2 := Allocated(t1, 1, 2);
        assert id + 1 in s.heap && id + 1 !in rel.Keys;
        AlikeFacts(rel1, open, s1, t1, id);
        NextPair(rel, rel1, open, s, s1, t1, a, id, more, x);
        var p := Nested(more[0], more[1..], d);
        var rel2 := rel1[id + 1 := b];
        rel' := SpineAgrees(more[0], more[1..], d, s2, t2, id + 1, rel2, open + {id + 1});
        var x2, y2 := ReadSpine(more[0], more[1..], d, id + 1, s2), ReadPair(p.car, p.cdr, b, t2);
        if x2.Ok? {
          SpineDone(rel, rel1, rel', open, s, s1, t1, id, more, d, x.v, y.v, x2, y2);
        }
      }
    }
  }

  lemma AlikeFacts(rel: map<nat, nat>, open: set<nat>, s: State, t: State, id: nat)
    requires Alike(rel, open, s, t) && id in rel
    ensures Bounded(s) && Bounded(t) && id in s.heap && rel[id] in t.heap && |s.heap[id]| == |t.heap[rel[id]]|
  {
  }

  /** An object that is allocated already on one side corresponds to a new one on the other. */
  lemma NextAlike(rel: map<nat, nat>, open: set<nat>, s: State, t: State, c: nat)
    requires Alike(rel, open, s, t) && open <= rel.Keys && c in s.heap && |s.heap[c]| == 2 && c !in rel
    ensures Alike(rel[c := t.next], open + {c}, s, Allocated(t, 1, 2))
  {
    AllocatedFacts(t, 1, 2);
    hide Allocated;
    var rel', t' := rel[c := t.next], Allocated(t, 1, 2);
    assert t.next in t'.heap;
    assert More(rel, rel', c);
    OpenObjects(rel, open, s, t, s, t', c, t.next);
    forall k | k in s.marks ensures Same(rel', s.marks[k], t'.marks[k]) { assert Same(rel, s.marks[k], t.marks[k]); }
  }

  /** Before the next pair of a chain. */
  lemma NextPair(rel: map<nat, nat>, rel1: map<nat, nat>, open: set<nat>, s: State, s1: State, t1: State, a: Node, id: nat, more: seq<Node>, x: Result)
    requires more != [] && Spine(rel, s, id, 1 + |more|) && More(rel, rel1, s.next) && Bounded(s)
    requires x == Read(a, s, 0) && x.Ok? && s1 == SetSlot(x.s, id, 0, x.v)
    requires Alike(rel1, open, s1, t1) && open <= rel1.Keys && id in open && id in rel1
    ensures var s2, t2, rel2 := SetSlot(s1, id, 1, Obj(id + 1)), Allocated(t1, 1, 2), rel1[id + 1 := t1.next];
            && Alike(rel2, open + {id + 1}, s2, t2) && Spine(rel2, s2, id + 1, |more|) && More(rel1, rel2, id + 1)
  {
    hide Alike, Read;
    ReadGrows(a, s, 0);
    assert id in s.heap && id + 1 in s.heap && id + 1 in x.s.heap;
    var s2 := SetSlot(s1, id, 1, Obj(id + 1));
    FillAlike(rel1, open, s1, t1, id, 1, Obj(id + 1), Imm(0));
    forall k {:trigger k in s2.heap} | id + 1 <= k < id + 1 + |more| ensures k in s2.heap && |s2.heap[k]| == 2 && k < s2.next && k !in rel1 {
      assert k in s.heap && k in x.s.heap && k !in rel;
    }
    NextAlike(rel1, open, s2, t1, id + 1);
    NewPair(rel1, s2, id, |more|, t1.next);
  }

  lemma NewPair(rel1: map<nat, nat>, s2: State, id: nat, count: nat, b: nat)
    requires forall k {:trigger k in s2.heap} :: id + 1 <= k < id + 1 + count ==> k in s2.heap && |s2.heap[k]| == 2 && k < s2.next && k !in rel1
    requires 0 < count && id + 1 in s2.heap
    ensures Spine(rel1[id + 1 := b], s2, id + 1, count) && More(rel1, rel1[id + 1 := b], id + 1)
  {
  }

  /** After the rest of a chain. */
  lemma SpineDone(rel: map<nat, nat>, rel1: map<nat, nat>, rel': map<nat, nat>, open: set<nat>, s: State, s1: State, t1: State,
                  id: nat, more: seq<Node>, d: Node, u: Val, v: Val, x: Result, y: Result)
    requires more != [] && open <= rel.Keys && id in open && More(rel, rel1, id + 1) && Same(rel1, u, v) && id in rel1
    requires Bounded(s1) && Bounded(t1) && rel1[id] in t1.heap
    requires id in s1.heap && |s1.heap[id]| == 2 && s1.heap[id][0] == u
    requires |t1.heap[rel1[id]]| == 2 && t1.heap[rel1[id]][0] == v
    requires var s2, t2, p := SetSlot(s1, id, 1, Obj(id + 1)), Allocated(t1, 1, 2), Nested(more[0], more[1..], d);
             x == ReadSpine(more[0], more[1..], d, id + 1, s2) && y == ReadPair(p.car, p.cdr, t1.next, t2) && x.Ok?
    requires id + 1 !in open && More(rel1, rel1[id + 1 := t1.next], id + 1) && Agree(rel1[id + 1 := t1.next], rel', open + {id + 1} - {id + 1}, id + 2, x, y)
    ensures Alike(rel', open - {id}, x.s, SetSlot(y.s, rel1[id], 1, y.v))
    ensures More(rel, rel', id + 1) && Same(rel', Obj(id), Obj(rel1[id]))
  {
    hide Alike, ReadSpine, Nested, Plain;
    var s2, t2, p := SetSlot(s1, id, 1, Obj(id + 1)), Allocated(t1, 1, 2), Nested(more[0], more[1..], d);
    PairValue(p.car, p.cdr, t1.next, t2);
    hide ReadPair;
    var rel2 := rel1[id + 1 := t1.next];
    assert open + {id + 1} - {id + 1} == open;
    SpineGrows(more[0], more[1..], d, id + 1, s2);
    PairGrows(p.car, p.cdr, t1.next, t2);
    assert id in rel2 && id in rel';
    var t3 := SetSlot(y.s, rel1[id], 1, y.v);
    TwoSlots(s1, id, u, Obj(id + 1));
    KeptSlots(s2, x.s, id, id + 1, id + 1 + |more|);
    AllocatedFacts(t1, 1, 2);
    assert rel1[id] in t1.heap && rel1[id] in t2.heap && rel1[id] < t1.next;
    KeptSlots(t2, y.s, rel1[id], t1.next, t1.next + 1);
    TwoSlots(y.s, rel1[id], v, y.v);
    hide SetSlot, Allocated, Grows, Bounded;
    SameMore(rel1, rel2, id + 1, u, v);
    SameMore(rel2, rel', id + 2, u, v);
    OneSided(rel', open, x.s, y.s, id, y.v);
    CloseAlike(rel', open, x.s, t3, id);
  }

  lemma TwoSlots(s: State, id: nat, u: Val, v: Val)
    requires id in s.heap && |s.heap[id]| == 2 && s.heap[id][0] == u
    ensures id in SetSlot(s, id, 1, v).heap && SetSlot(s, id, 1, v).heap[id] == [u, v]
  {
  }

  lemma KeptSlots(s: State, t: State, id: nat, from: nat, to: nat)
    requires Grows(s, t, from, to) && id in s.heap && !(from <= id < to)
    ensures id in t.heap && t.heap[id] == s.heap[id]
  {
  }

  lemma PairValue(a: Node, d: Node, id: nat, s: State)
    ensures ReadPair(a, d, id, s).Ok? ==> ReadPair(a, d, id, s).v == Obj(id)
  {
  }

  /** A slot on the other side only. */
  lemma OneSided(rel: map<nat, nat>, open: set<nat>, s: State, t: State, a: nat, v: Val)
    requires Alike(rel, open, s, t) && a in rel && a in open
    ensures Alike(rel, open, s, SetSlot(t, rel[a], 1, v))
  {
  }

  ghost predicate SlotsSame(rel: map<nat, nat>, x: seq<Val>, y: seq<Val>, i: nat) {
    |x| == |y| && forall j {:trigger x[j]} {:trigger y[j]} :: 0 <= j < i && j < |x| ==> Same(rel, x[j], y[j])
  }

  /** The slots of a vector from i on. */
  lemma {:induction false} SlotsAgree(items: seq<Node>, s: State, t: State, id: nat, i: nat, rel: map<nat, nat>, open: set<nat>) returns (rel': map<nat, nat>)
    requires Alike(rel, open, s, t) && open <= rel.Keys && id in open && id in s.heap && |s.heap[id]| == i + |items|
    requires rel[id] in t.heap && SlotsSame(rel, s.heap[id], t.heap[rel[id]], i)
    ensures Agree(rel, rel', open - {id}, s.next, ReadSlots(items, id, i, s), ReadSlots(PlainItems(items), rel[id], i, t))
    decreases Sizes(items), 2
  {
    hide Alike, SetSlot;
    rel' := rel;
    assert id in rel.Keys;
    if items == [] {
      CloseAlike(rel, open, s, t, id);
      MarkAlike(rel, open, s, t, 0);
    } else {
      var a := items[0];
      assert PlainItems(items)[1..] == PlainItems(items[1..]);
      rel' := ReadAgrees(a, s, t, 0, rel, open);
      var rel1 := rel';
      var x, y := Read(a, s, 0), Read(Plain(a), t, 0);
      if x.Ok? {
        Filled(rel, rel1, open, s, t, a, id, i, x, y);
        var s1, t1 := SetSlot(x.s, id, i, x.v), SetSlot(y.s, rel[id], i, y.v);
        MoreSlots(rel, rel1, s.next, s.heap[id], t.heap[rel[id]], i, x.v, y.v);
        rel' := SlotsAgree(items[1..], s1, t1, id, i + 1, rel1, open);
        if ReadSlots(items, id, i, s).Ok? { MoreTrans(rel, rel1, rel', s.next, s1.next); }
      }
    }
  }

  lemma MoreSlots(rel: map<nat, nat>, rel1: map<nat, nat>, next: nat, x: seq<Val>, y: seq<Val>, i: nat, u: Val, v: Val)
    requires SlotsSame(rel, x, y, i) && i < |x| && More(rel, rel1, next) && Same(rel1, u, v)
    ensures SlotsSame(rel1, x[i := u], y[i := v], i + 1)
  {
    forall j | 0 <= j < i ensures Same(rel1, x[j], y[j]) { SameMore(rel, rel1, next, x[j], y[j]); }
  }

  const EMPTY: State := State(map[], 0, map[])

  /** The compact form means the same: either both forms are refused, or they read to structures that correspond
      object by object, one to one, and slot by slot. */
  lemma CompactMeansPlain(x: Node) returns (rel: map<nat, nat>)
    ensures Agree(map[], rel, {}, 0, Read(x, EMPTY, 0), Read(Plain(x), EMPTY, 0))
  {
    rel := ReadAgrees(x, EMPTY, EMPTY, 0, map[], {});
  }

  // ---------- Paths ----------

  /** The value at the end of a path of slots, or nothing where there is no such slot. */
  function Follow(heap: map<nat, seq<Val>>, v: Val, path: seq<nat>): (r: seq<Val>)
    ensures |r| <= 1
    decreases |path|
  {
    if path == [] then [v]
    else if v.Obj? && v.id in heap && path[0] < |heap[v.id]| then Follow(heap, heap[v.id][path[0]], path[1..])
    else []
  }

  lemma {:induction false} SameFollow(rel: map<nat, nat>, s: State, t: State, u: Val, v: Val, path: seq<nat>)
    requires Alike(rel, {}, s, t) && Same(rel, u, v)
    ensures var x, y := Follow(s.heap, u, path), Follow(t.heap, v, path); |x| == |y| && (x != [] ==> Same(rel, x[0], y[0]))
    decreases |path|
  {
    if path != [] && u.Obj? {
      assert u.id in rel && SameSlots(rel, s.heap[u.id], t.heap[rel[u.id]]);
      var i := path[0];
      if i < |s.heap[u.id]| {
        assert Same(rel, s.heap[u.id][i], t.heap[rel[u.id]][i]);
        SameFollow(rel, s, t, s.heap[u.id][i], t.heap[rel[u.id]][i], path[1..]);
      }
    }
  }

  /** Along any path the two structures hold the same immediate value, or an object; and two paths lead to one object
      in the one exactly when they do in the other. */
  lemma SamePaths(x: Node, p: seq<nat>, q: seq<nat>)
    requires Read(x, EMPTY, 0).Ok?
    ensures Read(Plain(x), EMPTY, 0).Ok?
    ensures var a, b := Read(x, EMPTY, 0), Read(Plain(x), EMPTY, 0);
            var u, v := Follow(a.s.heap, a.v, p), Follow(b.s.heap, b.v, p);
            && |u| == |v| && (u != [] ==> (u[0].Obj? <==> v[0].Obj?) && (u[0].Imm? ==> u[0] == v[0]))
            && (u == Follow(a.s.heap, a.v, q) <==> v == Follow(b.s.heap, b.v, q))
  {
    hide Read, Plain;
    var rel := CompactMeansPlain(x);
    var a, b := Read(x, EMPTY, 0), Read(Plain(x), EMPTY, 0);
    SameFollow(rel, a.s, b.s, a.v, b.v, p);
    SameFollow(rel, a.s, b.s, a.v, b.v, q);
    var u, v, u', v' := Follow(a.s.heap, a.v, p), Follow(b.s.heap, b.v, p), Follow(a.s.heap, a.v, q), Follow(b.s.heap, b.v, q);
    if u != [] && u' != [] {
      OneToOne(rel, a.s, b.s, u[0], v[0], u'[0], v'[0]);
    }
  }

  lemma OneToOne(rel: map<nat, nat>, s: State, t: State, u: Val, v: Val, u': Val, v': Val)
    requires Alike(rel, {}, s, t) && Same(rel, u, v) && Same(rel, u', v')
    ensures u == u' <==> v == v'
  {
    if u.Obj? && u'.Obj? && u.id != u'.id { assert rel[u.id] != rel[u'.id]; }
  }
}
