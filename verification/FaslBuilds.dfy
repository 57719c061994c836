/** The reader builds what the stream means: every path of slots leads to the immediate value, or the object, that the
    tree of headers has there. */
module FaslBuilds {
  import opened Fasl
  import opened FaslMeaning
  import opened Wrappers

  type Place = seq<nat>

  // ---------- Places ----------

  /** Place q is at p or below it. */
  predicate Under(p: Place, q: Place) {
    |p| <= |q| && q[..|p|] == p
  }

  lemma UnderNext(p: Place, i: nat, q: Place)
    ensures Under(p + [i], q) <==> Under(p, q) && |p| < |q| && q[|p|] == i
  {
    if Under(p + [i], q) {
      assert q[..|p|] == q[..|p| + 1][..|p|] == p;
      assert q[|p|] == q[..|p| + 1][|p|];
    }
    if Under(p, q) && |p| < |q| && q[|p|] == i { assert q[..|p| + 1] == q[..|p|] + [q[|p|]]; }
  }

  lemma {:induction false} NodeAppend(x: Node, p: Place, q: Place)
    ensures NodeAt(x, p + q) == if NodeAt(x, p).Some? then NodeAt(NodeAt(x, p).value, q) else None
    decreases |p|
  {
    if p == [] {
      assert p + q == q;
    } else if p[0] < Arity(Body(x)) {
      assert (p + q)[1..] == p[1..] + q;
      NodeAppend(Part(Body(x), p[0]), p[1..], q);
    }
  }

  lemma NodeNext(x: Node, p: Place, i: nat)
    requires NodeAt(x, p).Some?
    ensures var y := Body(NodeAt(x, p).value); NodeAt(x, p + [i]) == if i < Arity(y) then Some(Part(y, i)) else None
  {
    NodeAppend(x, p, [i]);
    var y := Body(NodeAt(x, p).value);
    assert [i][1..] == [];
    if i < Arity(y) { assert NodeAt(Part(y, i), []) == Some(Part(y, i)); }
  }

  /** What is below an object is below one of its slots. */
  lemma BelowSlot(x: Node, p: Place, q: Place)
    requires NodeAt(x, p).Some? && NodeAt(x, q).Some? && Under(p, q) && q != p
    ensures |p| < |q| && q[|p|] < Arity(Body(NodeAt(x, p).value)) && Under(p + [q[|p|]], q)
  {
    assert q[..|q|] == q;
    assert q == p + q[|p|..];
    NodeAppend(x, p, q[|p|..]);
    UnderNext(p, q[|p|], q);
  }

  // ---------- Trees of pairs and vectors ----------

  predicate NoChains(x: Node)
    decreases Size(x), 1
  {
    match x
    case Pair(a, d) => NoChains(a) && NoChains(d)
    case Chain(_, _, _) => false
    case Vector(items) => NoneChains(items)
    case Marked(_, y) => NoChains(y)
    case _ => true
  }

  predicate NoneChains(xs: seq<Node>)
    decreases Sizes(xs), 2
  {
    xs == [] || (NoChains(xs[0]) && NoneChains(xs[1..]))
  }

  /** The parts of an object, in the order in which they are read. */
  function Parts(x: Node): (r: seq<Node>)
    requires x.Pair? || x.Vector?
    ensures |r| == Arity(x) && forall i {:trigger r[i]} :: 0 <= i < |r| ==> r[i] == Part(x, i)
  {
    match x
    case Pair(a, d) => [a, d]
    case Vector(items) => items
  }

  lemma PairIsSlots(a: Node, d: Node, id: nat, s: State)
    ensures ReadPair(a, d, id, s) == ReadSlots([a, d], id, 0, s)
  {
    hide Read, SetSlot;
    var items := [a, d];
    assert items[1..] == [d] && [d][1..] == [];
    var r := Read(a, s, 0);
    if r.Ok? {
      var s1 := SetSlot(r.s, id, 0, r.v);
      assert ReadSlots(items, id, 0, s) == ReadSlots([d], id, 1, s1);
      var q := Read(d, s1, 0);
      if q.Ok? { assert ReadSlots([], id, 2, SetSlot(q.s, id, 1, q.v)) == Ok(Obj(id), SetSlot(q.s, id, 1, q.v)); }
    }
  }

  // ---------- Values and the places that they stand for ----------

  /** The value is what is written at the place, by the places where the objects are written, and the marks. */
  ghost predicate Stands(x: Node, at: map<nat, Place>, marks: map<nat, Val>, p: Place, v: Val) {
    var n := NodeAt(x, p);
    n.Some? &&
    match Body(n.value)
    case Atom(k) => v == Imm(k)
    case Ref(k) => k != 0 && k in marks && v == marks[k]
    case Marked(_, _) => false
    case _ => v.Obj? && v.id in at && at[v.id] == p
  }

  ghost predicate SlotStands(x: Node, at: map<nat, Place>, s: State, id: nat, i: nat)
    requires id in at && id in s.heap && i < |s.heap[id]|
  {
    Stands(x, at, s.marks, at[id] + [i], s.heap[id][i])
  }

  /** The object has the slots that are written at its place, and the first n of them are filled. */
  ghost predicate FilledTo(x: Node, at: map<nat, Place>, s: State, id: nat, n: nat) {
    && id in at && id in s.heap && NodeAt(x, at[id]).Some? && IsObject(Body(NodeAt(x, at[id]).value))
    && |s.heap[id]| == Arity(Body(NodeAt(x, at[id]).value))
    && forall i {:trigger SlotStands(x, at, s, id, i)} :: 0 <= i < n && i < |s.heap[id]| ==> SlotStands(x, at, s, id, i)
  }

  ghost predicate Filled(x: Node, at: map<nat, Place>, s: State, id: nat) {
    id in s.heap && FilledTo(x, at, s, id, |s.heap[id]|)
  }

  /** Object v is the one that gets mark k at the place. */
  ghost predicate IsMarked(at: map<nat, Place>, marks: map<nat, Val>, k: nat, p: Place) {
    k in marks && marks[k].Obj? && marks[k].id in at && at[marks[k].id] == p
  }

  /** Different objects are written at different places, and every mark is that of an object that is marked. */
  ghost predicate Known(x: Node, at: map<nat, Place>, s: State) {
    && (forall id {:trigger id in at} :: id in at ==> id < s.next)
    && (forall a, b {:trigger at[a], at[b]} :: a in at && b in at && a != b ==> at[a] != at[b])
    && (forall k {:trigger s.marks[k]} :: k in s.marks ==> k != 0 && s.marks[k].Obj? && s.marks[k].id in at && MarkedAt(x, k, at[s.marks[k].id]))
  }

  /** More is known. */
  ghost predicate Further(at: map<nat, Place>, s: State, at': map<nat, Place>, s': State) {
    && s.next <= s'.next
    && (forall id {:trigger id in at} {:trigger id in at'} :: id in at ==> id in at' && at'[id] == at[id])
    && (forall k {:trigger k in s.marks} {:trigger k in s'.marks} :: k in s.marks ==> k in s'.marks && s'.marks[k] == s.marks[k])
  }

  lemma FurtherTrans(a: map<nat, Place>, r: State, b: map<nat, Place>, s: State, c: map<nat, Place>, t: State)
    requires Further(a, r, b, s) && Further(b, s, c, t)
    ensures Further(a, r, c, t)
  {
  }

  lemma StandsFurther(x: Node, at: map<nat, Place>, s: State, at': map<nat, Place>, s': State, p: Place, v: Val)
    requires Further(at, s, at', s') && Stands(x, at, s.marks, p, v)
    ensures Stands(x, at', s'.marks, p, v)
  {
  }

  /** An object that is not written to. */
  lemma FilledFurther(x: Node, at: map<nat, Place>, s: State, at': map<nat, Place>, s': State, id: nat, n: nat)
    requires Further(at, s, at', s') && FilledTo(x, at, s, id, n) && id in s'.heap && s'.heap[id] == s.heap[id]
    ensures FilledTo(x, at', s', id, n)
  {
    hide Stands;
    forall i {:trigger SlotStands(x, at', s', id, i)} | 0 <= i < n && i < |s'.heap[id]| ensures SlotStands(x, at', s', id, i) {
      assert SlotStands(x, at, s, id, i);
      StandsFurther(x, at, s, at', s', at[id] + [i], s.heap[id][i]);
    }
  }

  /** What reading at the place p adds: new objects, all filled, at places there, and all the marks there. */
  ghost predicate Adds(x: Node, p: Place, at: map<nat, Place>, s: State, at': map<nat, Place>, s': State) {
    && Known(x, at', s') && Further(at, s, at', s')
    && (forall id {:trigger id in at'} :: id in at' && id !in at ==> s.next <= id && Under(p, at'[id]) && Filled(x, at', s', id))
    && (forall id {:trigger id in at'} :: s.next <= id < s'.next ==> id in at')
    && (forall k, q {:trigger MarkedAt(x, k, q)} :: MarkedAt(x, k, q) && Under(p, q) && k != 0 ==> IsMarked(at', s'.marks, k, q))
  }

  /** The same for the slots from i on of the object at p. */
  ghost predicate AddsFrom(x: Node, p: Place, i: nat, at: map<nat, Place>, s: State, at': map<nat, Place>, s': State) {
    && Known(x, at', s') && Further(at, s, at', s')
    && (forall id {:trigger id in at'} :: id in at' && id !in at ==> s.next <= id && InSlots(p, i, at'[id]) && Filled(x, at', s', id))
    && (forall id {:trigger id in at'} :: s.next <= id < s'.next ==> id in at')
    && (forall k, q {:trigger MarkedAt(x, k, q)} :: MarkedAt(x, k, q) && InSlots(p, i, q) && k != 0 ==> IsMarked(at', s'.marks, k, q))
  }

  /** Place q is in one of the slots from i on. */
  predicate InSlots(p: Place, i: nat, q: Place) {
    Under(p, q) && |p| < |q| && i <= q[|p|]
  }

  lemma InSlotsNext(p: Place, i: nat, q: Place)
    ensures InSlots(p, i, q) <==> Under(p + [i], q) || InSlots(p, i + 1, q)
    ensures Under(p + [i], q) ==> Under(p, q) && q != p
  {
    UnderNext(p, i, q);
  }

  /** Only the slots before i have been read. */
  ghost predicate ReadTo(at: map<nat, Place>, id: nat, p: Place, i: nat) {
    forall c {:trigger at[c]} :: c in at && c != id ==> !InSlots(p, i, at[c]) && at[c] != p
  }

  lemma Distinct(x: Node, at: map<nat, Place>, s: State, id: nat)
    requires Known(x, at, s) && id in at
    ensures forall c {:trigger at[c]} :: c in at && c != id ==> at[c] != at[id]
  {
  }

  /** One slot more is filled; what else there is stays. */
  lemma SlotFilled(x: Node, at: map<nat, Place>, s: State, id: nat, i: nat, v: Val)
    requires FilledTo(x, at, s, id, i) && i < |s.heap[id]| && Stands(x, at, s.marks, at[id] + [i], v)
    ensures FilledTo(x, at, SetSlot(s, id, i, v), id, i + 1)
  {
    hide Stands;
    var t := SetSlot(s, id, i, v);
    forall j {:trigger SlotStands(x, at, t, id, j)} | 0 <= j < i + 1 && j < |t.heap[id]| ensures SlotStands(x, at, t, id, j) {
      if j < i { assert SlotStands(x, at, s, id, j); }
    }
  }

  lemma SlotAdds(x: Node, p: Place, i: nat, at: map<nat, Place>, s: State, at1: map<nat, Place>, r: State, id: nat, v: Val)
    requires Adds(x, p + [i], at, s, at1, r) && id in at && ReadTo(at, id, p, i) && at[id] == p
    ensures var t := SetSlot(r, id, i, v);
            && Adds(x, p + [i], at, s, at1, t) && ReadTo(at1, id, p, i + 1)
  {
    hide Stands, MarkedAt, Under;
    var t := SetSlot(r, id, i, v);
    forall c {:trigger c in at1} | c in at1 && c !in at ensures Filled(x, at1, t, c) {
      assert Filled(x, at1, r, c);
      FilledFurther(x, at1, r, at1, t, c, |r.heap[c]|);
    }
    forall c {:trigger at1[c]} | c in at1 && c != id ensures !InSlots(p, i + 1, at1[c]) && at1[c] != p {
      InSlotsNext(p, i, at1[c]);
      if c !in at { OneSlot(p, i, at1[c]); }
    }
  }

  lemma OneSlot(p: Place, i: nat, q: Place)
    requires Under(p + [i], q)
    ensures !InSlots(p, i + 1, q) && q != p
  {
    UnderNext(p, i, q);
  }

  /** The objects in the slot i, and those in the slots after it. */
  lemma AddsBoth(x: Node, p: Place, i: nat, at: map<nat, Place>, s: State, at1: map<nat, Place>, s1: State, at': map<nat, Place>, s': State, id: nat)
    requires Adds(x, p + [i], at, s, at1, s1) && AddsFrom(x, p, i + 1, at1, s1, at', s') && id in at
    requires Grows(s1, s', id, id + 1)
    ensures AddsFrom(x, p, i, at, s, at', s')
  {
    hide Stands, MarkedAt, InSlots, Under;
    FurtherTrans(at, s, at1, s1, at', s');
    forall c {:trigger c in at'} | c in at' && c !in at
      ensures s.next <= c && InSlots(p, i, at'[c]) && Filled(x, at', s', c)
    {
      InSlotsNext(p, i, at'[c]);
      if c in at1 {
        assert Filled(x, at1, s1, c);
        FilledFurther(x, at1, s1, at', s', c, |s1.heap[c]|);
      }
    }
    forall k, q {:trigger MarkedAt(x, k, q)} | MarkedAt(x, k, q) && InSlots(p, i, q) && k != 0 ensures IsMarked(at', s'.marks, k, q) {
      InSlotsNext(p, i, q);
      if Under(p + [i], q) { assert IsMarked(at1, s1.marks, k, q); }
    }
  }

  lemma NoSlots(x: Node, p: Place, at: map<nat, Place>, s: State)
    requires Known(x, at, s) && NodeAt(x, p).Some?
    ensures AddsFrom(x, p, Arity(Body(NodeAt(x, p).value)), at, s, at, s)
  {
    forall k, q {:trigger MarkedAt(x, k, q)} | MarkedAt(x, k, q) && InSlots(p, Arity(Body(NodeAt(x, p).value)), q) ensures false { BelowSlot(x, p, q); }
  }

  // ---------- Reading ----------

  /** The slots from i on of the object id, which is written at p. */
  lemma {:induction false} SlotsBuild(x: Node, p: Place, items: seq<Node>, id: nat, i: nat, s: State, at: map<nat, Place>) returns (at': map<nat, Place>)
    requires NodeAt(x, p).Some? && IsObject(Body(NodeAt(x, p).value)) && !Body(NodeAt(x, p).value).Chain?
    requires i + |items| == Arity(Body(NodeAt(x, p).value)) && Parts(Body(NodeAt(x, p).value))[i..] == items && NoneChains(items)
    requires Known(x, at, s) && Bounded(s) && id in at && at[id] == p && ReadTo(at, id, p, i) && FilledTo(x, at, s, id, i)
    requires ReadSlots(items, id, i, s).Ok?
    ensures AddsFrom(x, p, i, at, s, at', ReadSlots(items, id, i, s).s) && Filled(x, at', ReadSlots(items, id, i, s).s, id)
    decreases Sizes(items), 2
  {
    hide Known, Stands, FilledTo, ReadTo, Adds, AddsFrom, SetSlot, Read, MarkedAt, Bounded;
    if items == [] {
      NoSlots(x, p, at, s);
      FilledArity(x, at, s, id, i);
      at' := at;
    } else {
      NodeNext(x, p, i);
      SlotsSteps(items, id, i, s);
      var b := Body(NodeAt(x, p).value);
      assert items[0] == Parts(b)[i..][0] == Parts(b)[i] == Part(b, i);
      var r := Read(items[0], s, 0);
      FreshSlot(x, at, s, id, p, i);
      MarkFresh(x, at, s);
      var at1 := ReadBuild(x, p + [i], items[0], 0, s, at);
      ReadGrows(items[0], s, 0);
      FilledAfter(x, at, s, at1, r.s, p + [i], id, i, r.v);
      var s1 := SetSlot(r.s, id, i, r.v);
      SlotBounded(r.s, id, i, r.v);
      SlotAdds(x, p, i, at, s, at1, r.s, id, r.v);
      AddsKnown(x, p + [i], at, s, at1, s1);
      assert Parts(b)[i + 1..] == items[1..];
      at' := SlotsBuild(x, p, items[1..], id, i + 1, s1, at1);
      SlotsGrow(items[1..], id, i + 1, s1);
      AddsBoth(x, p, i, at, s, at1, s1, at', ReadSlots(items, id, i, s).s, id);
    }
  }

  lemma SlotsSteps(items: seq<Node>, id: nat, i: nat, s: State)
    requires items != [] && ReadSlots(items, id, i, s).Ok?
    ensures var r := Read(items[0], s, 0); r.Ok? && ReadSlots(items, id, i, s) == ReadSlots(items[1..], id, i + 1, SetSlot(r.s, id, i, r.v))
    ensures NoneChains(items) ==> NoChains(items[0]) && NoneChains(items[1..])
    ensures Size(items[0]) < Sizes(items) && Sizes(items[1..]) < Sizes(items)
  {
  }

  lemma AddsKnown(x: Node, p: Place, at: map<nat, Place>, s: State, at1: map<nat, Place>, s1: State)
    requires Adds(x, p, at, s, at1, s1)
    ensures Known(x, at1, s1) && Further(at, s, at1, s1)
  {
  }

  lemma FilledArity(x: Node, at: map<nat, Place>, s: State, id: nat, n: nat)
    requires FilledTo(x, at, s, id, n) && n == Arity(Body(NodeAt(x, at[id]).value))
    ensures Filled(x, at, s, id)
  {
  }

  lemma FreshSlot(x: Node, at: map<nat, Place>, s: State, id: nat, p: Place, i: nat)
    requires Known(x, at, s) && id in at && at[id] == p && ReadTo(at, id, p, i)
    ensures forall c {:trigger at[c]} :: c in at ==> !Under(p + [i], at[c])
  {
    forall c {:trigger at[c]} | c in at ensures !Under(p + [i], at[c]) { InSlotsNext(p, i, at[c]); }
  }

  /** The slot that has been read is filled. */
  lemma FilledAfter(x: Node, at: map<nat, Place>, s: State, at1: map<nat, Place>, r: State, q: Place, id: nat, i: nat, v: Val)
    requires FilledTo(x, at, s, id, i) && Adds(x, q, at, s, at1, r) && Grows(s, r, 0, 0) && Stands(x, at1, r.marks, q, v)
    requires q == at[id] + [i] && i < Arity(Body(NodeAt(x, at[id]).value))
    ensures FilledTo(x, at1, SetSlot(r, id, i, v), id, i + 1)
  {
    hide Stands, Filled, Known, MarkedAt;
    FilledFurther(x, at, s, at1, r, id, i);
    SlotFilled(x, at1, r, id, i, v);
  }

  /** What is written at the place p. */
  lemma {:induction false} ReadBuild(x: Node, p: Place, y: Node, mark: nat, s: State, at: map<nat, Place>) returns (at': map<nat, Place>)
    requires (NodeAt(x, p) == Some(y) && mark == 0) || (NodeAt(x, p) == Some(Marked(mark, y)) && !y.Marked?)
    requires NoChains(y) && Known(x, at, s) && Bounded(s) && mark !in s.marks
    requires forall c {:trigger at[c]} :: c in at ==> !Under(p, at[c])
    requires Read(y, s, mark).Ok?
    ensures Adds(x, p, at, s, at', Read(y, s, mark).s) && Stands(x, at', Read(y, s, mark).s.marks, p, Read(y, s, mark).v)
    decreases Size(y), 1
  {
    hide Known, FilledTo, Adds, AddsFrom, MarkedAt, Bounded, ReadSlots, ReadPair, Under, ReadTo;
    match y
    case Atom(_) =>
      LeafAdds(x, p, at, s);
      at' := at;
    case Ref(_) =>
      LeafAdds(x, p, at, s);
      at' := at;
    case Marked(k, z) =>
      MarkFresh(x, at, s);
      at' := ReadBuild(x, p, z, k, s, at);
    case Pair(a, d) =>
      PairIsSlots(a, d, s.next, SetMark(Allocated(s, 1, 2), mark, Obj(s.next)));
      assert Parts(y)[0..] == [a, d];
      TwoSizes(a, d);
      SlotsValue([a, d], s.next, 0, SetMark(Allocated(s, 1, 2), mark, Obj(s.next)));
      at' := ObjectBuild(x, p, y, [a, d], mark, s, at);
    case Vector(items) =>
      assert Parts(y)[0..] == items;
      SlotsValue(items, s.next, 0, SetMark(Allocated(s, 1, |items|), mark, Obj(s.next)));
      at' := ObjectBuild(x, p, y, items, mark, s, at);
  }

  lemma TwoSizes(a: Node, d: Node)
    ensures Sizes([a, d]) == 2 + Size(a) + Size(d)
    ensures NoChains(a) && NoChains(d) ==> NoneChains([a, d])
  {
    var xs := [a, d];
    assert xs[1..] == [d] && [d][1..] == [];
    assert Sizes([d]) == 1 + Size(d) + Sizes([]);
    assert NoneChains([d]) <==> NoChains(d) && NoneChains([]);
  }

  lemma SlotsValue(items: seq<Node>, id: nat, i: nat, s: State)
    ensures ReadSlots(items, id, i, s).Ok? ==> ReadSlots(items, id, i, s).v == Obj(id)
    decreases |items|
  {
    hide Read, SetSlot;
    if items != [] && Read(items[0], s, 0).Ok? {
      var r := Read(items[0], s, 0);
      SlotsValue(items[1..], id, i + 1, SetSlot(r.s, id, i, r.v));
    }
  }

  lemma MarkFresh(x: Node, at: map<nat, Place>, s: State)
    requires Known(x, at, s)
    ensures 0 !in s.marks
  {
  }

  /** Nothing is below an immediate value or a reference. */
  lemma LeafAdds(x: Node, p: Place, at: map<nat, Place>, s: State)
    requires NodeAt(x, p).Some? && !IsObject(Body(NodeAt(x, p).value)) && Known(x, at, s)
    ensures Adds(x, p, at, s, at, s)
  {
    hide Known;
    forall k, q {:trigger MarkedAt(x, k, q)} | MarkedAt(x, k, q) && Under(p, q) && k != 0 ensures IsMarked(at, s.marks, k, q) {
      if q != p { BelowSlot(x, p, q); }
    }
    KnownNext(x, at, s);
  }

  lemma KnownNext(x: Node, at: map<nat, Place>, s: State)
    requires Known(x, at, s)
    ensures forall id {:trigger id in at} :: id in at ==> id < s.next
  {
  }

  /** A new object, and what is read into its slots. */
  lemma {:induction false} ObjectBuild(x: Node, p: Place, y: Node, items: seq<Node>, mark: nat, s: State, at: map<nat, Place>) returns (at': map<nat, Place>)
    requires (NodeAt(x, p) == Some(y) && mark == 0) || NodeAt(x, p) == Some(Marked(mark, y))
    requires (y.Pair? || y.Vector?) && Parts(y)[0..] == items && NoneChains(items) && Known(x, at, s) && Bounded(s) && mark !in s.marks
    requires forall c {:trigger at[c]} :: c in at ==> !Under(p, at[c])
    requires ReadSlots(items, s.next, 0, SetMark(Allocated(s, 1, |items|), mark, Obj(s.next))).Ok?
    ensures var t := ReadSlots(items, s.next, 0, SetMark(Allocated(s, 1, |items|), mark, Obj(s.next))).s;
            Adds(x, p, at, s, at', t) && Stands(x, at', t.marks, p, Obj(s.next))
    decreases Sizes(items), 3
  {
    hide FilledTo, Adds, AddsFrom, MarkedAt, Bounded, ReadSlots, Under, Allocated, SetMark, Known, ReadTo, Stands, Filled;
    var id, s1 := s.next, SetMark(Allocated(s, 1, |items|), mark, Obj(s.next));
    var at1 := at[id := p];
    NewBounded(s, 1, |items|, mark, Obj(id));
    NewKnown(x, p, y, mark, s, at, |items|);
    at' := SlotsBuild(x, p, items, id, 0, s1, at1);
    var t := ReadSlots(items, id, 0, s1).s;
    SlotsGrow(items, id, 0, s1);
    NewAdds(x, p, y, mark, s, at, |items|, at', t);
  }

  lemma NewKnown(x: Node, p: Place, y: Node, mark: nat, s: State, at: map<nat, Place>, n: nat)
    requires (NodeAt(x, p) == Some(y) && mark == 0) || NodeAt(x, p) == Some(Marked(mark, y))
    requires (y.Pair? || y.Vector?) && Known(x, at, s) && mark !in s.marks && n == Arity(y)
    requires forall c {:trigger at[c]} :: c in at ==> !Under(p, at[c])
    ensures var id, s1 := s.next, SetMark(Allocated(s, 1, n), mark, Obj(s.next));
            Known(x, at[id := p], s1) && FilledTo(x, at[id := p], s1, id, 0) && ReadTo(at[id := p], id, p, 0)
            && Further(at, s, at[id := p], s1) && id !in at
  {
    BodyIs(x, p, y, mark);
    var id, s1, at1 := s.next, SetMark(Allocated(s, 1, n), mark, Obj(s.next)), at[s.next := p];
    NewObject(s, n, mark);
    hide Allocated, SetMark, MarkedAt, Known, ReadTo, FilledTo, Further, Under, NodeAt;
    KnownNext(x, at, s);
    NewReadTo(at, id, p);
    if mark != 0 { NowMarked(x, p, y, mark); }
    KnownMore(x, p, mark, s, at, s1);
    NewOpen(x, p, y, mark, s, at, s1);
  }

  lemma NewOpen(x: Node, p: Place, y: Node, mark: nat, s: State, at: map<nat, Place>, s1: State)
    requires NodeAt(x, p).Some? && Body(NodeAt(x, p).value) == y && IsObject(y)
    requires s.next !in at && mark !in s.marks && s1.next == s.next + 1 && s1.marks == if mark == 0 then s.marks else s.marks[mark := Obj(s.next)]
    requires s.next in s1.heap && |s1.heap[s.next]| == Arity(y)
    ensures FilledTo(x, at[s.next := p], s1, s.next, 0) && Further(at, s, at[s.next := p], s1)
  {
  }

  lemma NewReadTo(at: map<nat, Place>, id: nat, p: Place)
    requires forall c {:trigger at[c]} :: c in at ==> !Under(p, at[c])
    ensures ReadTo(at[id := p], id, p, 0) && forall c {:trigger at[c]} :: c in at ==> at[c] != p
  {
    assert p[..|p|] == p;
    var at1 := at[id := p];
    forall c {:trigger at1[c]} | c in at1 && c != id ensures !InSlots(p, 0, at1[c]) && at1[c] != p {
      assert at1[c] == at[c] && !Under(p, at[c]);
    }
  }

  lemma KnownMore(x: Node, p: Place, mark: nat, s: State, at: map<nat, Place>, s1: State)
    requires Known(x, at, s) && (forall c {:trigger at[c]} :: c in at ==> at[c] != p) && (mark != 0 ==> MarkedAt(x, mark, p))
    requires s1.next == s.next + 1 && s1.marks == if mark == 0 then s.marks else s.marks[mark := Obj(s.next)]
    ensures Known(x, at[s.next := p], s1)
  {
    hide MarkedAt;
    var at1 := at[s.next := p];
    assert s.next !in at;
    forall k {:trigger s1.marks[k]} | k in s1.marks ensures k != 0 && s1.marks[k].Obj? && s1.marks[k].id in at1 && MarkedAt(x, k, at1[s1.marks[k].id]) {
      if k != mark || mark == 0 { assert k in s.marks && s1.marks[k] == s.marks[k]; }
    }
  }

  lemma NewObject(s: State, n: nat, mark: nat)
    ensures var s1 := SetMark(Allocated(s, 1, n), mark, Obj(s.next));
            && s1.next == s.next + 1 && s.next in s1.heap && |s1.heap[s.next]| == n
            && s1.marks == if mark == 0 then s.marks else s.marks[mark := Obj(s.next)]
  {
    assert s.next in Numbers(s.next, 1);
  }

  lemma BodyIs(x: Node, p: Place, y: Node, mark: nat)
    requires (NodeAt(x, p) == Some(y) && mark == 0) || NodeAt(x, p) == Some(Marked(mark, y))
    ensures IsObject(y) ==> Body(NodeAt(x, p).value) == y
  {
  }

  lemma NowMarked(x: Node, p: Place, y: Node, mark: nat)
    requires IsObject(y) && mark != 0 && ((NodeAt(x, p) == Some(y) && mark == 0) || NodeAt(x, p) == Some(Marked(mark, y)))
    ensures MarkedAt(x, mark, p)
  {
  }

  lemma NewAdds(x: Node, p: Place, y: Node, mark: nat, s: State, at: map<nat, Place>, n: nat, at': map<nat, Place>, t: State)
    requires (NodeAt(x, p) == Some(y) && mark == 0) || NodeAt(x, p) == Some(Marked(mark, y))
    requires (y.Pair? || y.Vector?) && n == Arity(y)
    requires var s1 := SetMark(Allocated(s, 1, n), mark, Obj(s.next));
             && Further(at, s, at[s.next := p], s1) && s.next !in at && AddsFrom(x, p, 0, at[s.next := p], s1, at', t) && Filled(x, at', t, s.next)
    ensures Adds(x, p, at, s, at', t) && Stands(x, at', t.marks, p, Obj(s.next))
  {
    NewObject(s, n, mark);
    hide Filled, Known, Allocated, SetMark;
    var id, s1, at1 := s.next, SetMark(Allocated(s, 1, n), mark, Obj(s.next)), at[s.next := p];
    assert id in at1 && id in at' && at'[id] == p;
    FurtherTrans(at, s, at1, s1, at', t);
    assert p[..|p|] == p;
    forall k, q {:trigger MarkedAt(x, k, q)} | MarkedAt(x, k, q) && Under(p, q) && k != 0 ensures IsMarked(at', t.marks, k, q) {
      if q != p {
        BelowSlot(x, p, q);
        UnderNext(p, q[|p|], q);
      } else {
        assert k == mark && k in s1.marks && s1.marks[k] == Obj(id);
      }
    }
  }

  // ---------- The whole stream ----------

  /** The value at the end of a path, and what is written there. */
  ghost predicate Is(at: map<nat, Place>, u: seq<Val>, m: Meaning) {
    match m
    case Nothing => u == []
    case Number(n) => u == [Imm(n)]
    case Thing(p) => |u| == 1 && u[0].Obj? && u[0].id in at && at[u[0].id] == p
  }

  /** All that is read, and where it is written. */
  ghost predicate Built(x: Node, at: map<nat, Place>, s: State) {
    && (forall id {:trigger id in at} :: id in at ==> Filled(x, at, s, id))
    && (forall a, b {:trigger at[a], at[b]} :: a in at && b in at && a != b ==> at[a] != at[b])
    && (forall k {:trigger s.marks[k]} :: k in s.marks ==> s.marks[k].Obj? && s.marks[k].id in at && MarkedAt(x, k, at[s.marks[k].id]))
    && (forall k, q {:trigger MarkedAt(x, k, q)} :: MarkedAt(x, k, q) && k != 0 ==> IsMarked(at, s.marks, k, q))
  }

  lemma StreamBuilt(x: Node) returns (at: map<nat, Place>)
    requires NoChains(x) && Read(x, EMPTY, 0).Ok?
    ensures Built(x, at, Read(x, EMPTY, 0).s) && Stands(x, at, Read(x, EMPTY, 0).s.marks, [], Read(x, EMPTY, 0).v)
  {
    hide Stands, Filled, MarkedAt, Read;
    at := ReadBuild(x, [], x, 0, EMPTY, map[]);
    var s := Read(x, EMPTY, 0).s;
    forall k, q {:trigger MarkedAt(x, k, q)} | MarkedAt(x, k, q) && k != 0 ensures IsMarked(at, s.marks, k, q) { assert Under([], q); }
  }

  /** The object that a mark stands for is the one that is marked. */
  lemma HomeIs(x: Node, at: map<nat, Place>, s: State, k: nat)
    requires Built(x, at, s) && k in s.marks && k != 0
    ensures Home(x, k) == Thing(at[s.marks[k].id])
  {
    hide Filled, MarkedAt;
    assert MarkedAt(x, k, at[s.marks[k].id]);
    var place := Home(x, k).place;
    assert MarkedAt(x, k, place);
    assert IsMarked(at, s.marks, k, place);
  }

  lemma LandingIs(x: Node, at: map<nat, Place>, s: State, p: Place, v: Val)
    requires Built(x, at, s) && Stands(x, at, s.marks, p, v)
    ensures Is(at, [v], Landing(x, p))
  {
    hide Built, Filled, MarkedAt, Home;
    var y := Body(NodeAt(x, p).value);
    if y.Ref? {
      HomeIs(x, at, s, y.index);
      MarkIs(x, at, s, y.index);
    }
  }

  lemma MarkIs(x: Node, at: map<nat, Place>, s: State, k: nat)
    requires Built(x, at, s) && k in s.marks
    ensures s.marks[k].Obj? && s.marks[k].id in at
  {
  }

  lemma FilledSlots(x: Node, at: map<nat, Place>, s: State, id: nat, i: nat)
    requires Built(x, at, s) && id in at
    ensures id in s.heap && NodeAt(x, at[id]).Some? && |s.heap[id]| == Arity(Body(NodeAt(x, at[id]).value))
    ensures i < |s.heap[id]| ==> Stands(x, at, s.marks, at[id] + [i], s.heap[id][i])
  {
    hide Stands, MarkedAt;
    assert Filled(x, at, s, id);
    if i < |s.heap[id]| { assert SlotStands(x, at, s, id, i); }
  }

  lemma NothingThere(x: Node, p: Place, path: seq<nat>)
    requires NodeAt(x, p).None?
    ensures Means(x, p, path) == Nothing
  {
  }

  lemma {:induction false} FollowIs(x: Node, at: map<nat, Place>, s: State, p: Place, v: Val, path: seq<nat>)
    requires Built(x, at, s) && Stands(x, at, s.marks, p, v)
    ensures Is(at, Follow(s.heap, v, path), Means(x, p, path))
    decreases |path|
  {
    hide Built, Stands, Landing, NodeAt, Body, Arity;
    LandingIs(x, at, s, p, v);
    if path != [] && v.Obj? {
      var q, i := at[v.id], path[0];
      FilledSlots(x, at, s, v.id, i);
      if i < |s.heap[v.id]| {
        FollowIs(x, at, s, q + [i], s.heap[v.id][i], path[1..]);
      } else {
        NodeNext(x, q, i);
        NothingThere(x, q + [i], path[1..]);
      }
    }
  }

  // ---------- Chains ----------

  lemma PlainBody(x: Node)
    ensures Body(Plain(x)) == Plain(Body(x)) && IsObject(Plain(x)) == IsObject(x) && Arity(Plain(x)) == Arity(x)
    ensures Plain(x).Marked? == x.Marked? && (x.Marked? ==> Plain(x).index == x.index && Plain(x).node == Plain(x.node))
    ensures x.Atom? || x.Ref? ==> Plain(x) == x
  {
  }

  lemma {:induction false} PlainItem(items: seq<Node>, i: nat)
    requires i < |items|
    ensures PlainItems(items)[i] == Plain(items[i])
    decreases |items|
  {
    if i > 0 { PlainItem(items[1..], i - 1); }
  }

  lemma PlainPart(x: Node, i: nat)
    requires i < Arity(x)
    ensures Arity(Plain(x)) == Arity(x) && Part(Plain(x), i) == Plain(Part(x, i))
  {
    if x.Vector? { PlainItem(x.items, i); }
  }

  /** The plain form has the plain form of every node at its place. */
  lemma {:induction false} PlainAt(x: Node, p: Place)
    ensures NodeAt(Plain(x), p) == match NodeAt(x, p) { case None => None case Some(y) => Some(Plain(y)) }
    decreases |p|
  {
    hide Plain, Part;
    if p != [] {
      PlainBody(x);
      PlainBody(Body(x));
      if p[0] < Arity(Body(x)) {
        PlainPart(Body(x), p[0]);
        PlainAt(Part(Body(x), p[0]), p[1..]);
      }
    }
  }

  lemma PlainMarked(x: Node, k: nat, p: Place)
    ensures MarkedAt(Plain(x), k, p) <==> MarkedAt(x, k, p)
  {
    hide Plain, NodeAt;
    PlainAt(x, p);
    if NodeAt(x, p).Some? {
      var y := NodeAt(x, p).value;
      PlainBody(y);
      if y.Marked? { PlainBody(y.node); }
    }
  }

  lemma {:induction false} PlainHasNoChains(x: Node)
    ensures NoChains(Plain(x))
    decreases Size(x), 1
  {
    match x
    case Atom(_) =>
    case Ref(_) =>
    case Pair(a, d) => PlainHasNoChains(a); PlainHasNoChains(d);
    case Chain(a, more, d) => NestedHasNoChains(a, more, d);
    case Vector(items) => PlainItemsHaveNone(items);
    case Marked(_, y) => PlainHasNoChains(y);
  }

  lemma {:induction false} NestedHasNoChains(a: Node, more: seq<Node>, d: Node)
    ensures NoChains(Nested(a, more, d))
    decreases Size(a) + Sizes(more) + Size(d) + 1, 0
  {
    PlainHasNoChains(a);
    if more == [] { PlainHasNoChains(d); } else { NestedHasNoChains(more[0], more[1..], d); }
  }

  lemma {:induction false} PlainItemsHaveNone(items: seq<Node>)
    ensures NoneChains(PlainItems(items))
    decreases Sizes(items), 2
  {
    if items != [] {
      PlainHasNoChains(items[0]);
      PlainItemsHaveNone(items[1..]);
      assert PlainItems(items)[1..] == PlainItems(items[1..]);
    }
  }

  /** No index marks two objects. */
  ghost predicate OneEach(x: Node) {
    forall k, p, q {:trigger MarkedAt(x, k, p), MarkedAt(x, k, q)} :: k != 0 && MarkedAt(x, k, p) && MarkedAt(x, k, q) ==> p == q
  }

  lemma BuiltOneEach(x: Node, at: map<nat, Place>, s: State)
    requires Built(Plain(x), at, s)
    ensures OneEach(x)
  {
    hide MarkedAt, Filled, Plain;
    forall k, p, q {:trigger MarkedAt(x, k, p), MarkedAt(x, k, q)} | k != 0 && MarkedAt(x, k, p) && MarkedAt(x, k, q) ensures p == q {
      PlainMarked(x, k, p);
      PlainMarked(x, k, q);
      assert IsMarked(at, s.marks, k, p) && IsMarked(at, s.marks, k, q);
    }
  }

  lemma PlainHome(x: Node, k: nat)
    requires OneEach(x)
    ensures Home(Plain(x), k) == Home(x, k)
  {
    hide MarkedAt, Plain;
    if k != 0 {
      if Home(x, k).Thing? { PlainMarked(x, k, Home(x, k).place); }
      if Home(Plain(x), k).Thing? { PlainMarked(x, k, Home(Plain(x), k).place); }
    }
  }

  lemma PlainLanding(x: Node, p: Place)
    requires OneEach(x)
    ensures Landing(Plain(x), p) == Landing(x, p)
  {
    hide Plain, NodeAt, OneEach, Home;
    PlainAt(x, p);
    if NodeAt(x, p).Some? {
      var y := NodeAt(x, p).value;
      PlainBody(y);
      PlainBody(Body(y));
      if Body(y).Ref? { PlainHome(x, Body(y).index); }
    }
  }

  /** Both forms mean the same. */
  lemma {:induction false} PlainMeans(x: Node, p: Place, path: seq<nat>)
    requires OneEach(x)
    ensures Means(Plain(x), p, path) == Means(x, p, path)
    decreases |path|
  {
    hide Plain, Landing, OneEach;
    PlainLanding(x, p);
    if path != [] {
      match Landing(x, p)
      case Thing(q) => PlainMeans(x, q + [path[0]], path[1..]);
      case _ =>
    }
  }

  // ---------- What is read ----------

  /** The value u is what the stream means. */
  predicate Shows(u: seq<Val>, m: Meaning) {
    match m
    case Nothing => u == []
    case Number(n) => u == [Imm(n)]
    case Thing(_) => |u| == 1 && u[0].Obj?
  }

  /** Every path of slots leads to what is written there, and two paths lead to one object just when one object is
      written at the ends of both. */
  lemma ReadMeans(x: Node, p: seq<nat>, q: seq<nat>)
    requires Read(x, EMPTY, 0).Ok?
    ensures OneEach(x)
    ensures var r := Read(x, EMPTY, 0);
            && Shows(Follow(r.s.heap, r.v, p), Means(x, [], p))
            && (Means(x, [], p).Thing? && Means(x, [], q).Thing? ==>
                  (Follow(r.s.heap, r.v, p) == Follow(r.s.heap, r.v, q) <==> Means(x, [], p) == Means(x, [], q)))
  {
    hide Read, Plain, Means, Built, Stands, OneEach;
    SamePaths(x, p, q);
    SamePaths(x, q, p);
    PlainHasNoChains(x);
    var at := StreamBuilt(Plain(x));
    var b := Read(Plain(x), EMPTY, 0);
    BuiltOneEach(x, at, b.s);
    PlainMeans(x, [], p);
    PlainMeans(x, [], q);
    FollowIs(Plain(x), at, b.s, [], b.v, p);
    FollowIs(Plain(x), at, b.s, [], b.v, q);
    OnePlaceEach(Plain(x), at, b.s, Follow(b.s.heap, b.v, p), Follow(b.s.heap, b.v, q), Means(x, [], p), Means(x, [], q));
  }

  lemma OnePlaceEach(x: Node, at: map<nat, Place>, s: State, u: seq<Val>, w: seq<Val>, m: Meaning, n: Meaning)
    requires Built(x, at, s) && Is(at, u, m) && Is(at, w, n)
    ensures m.Thing? && n.Thing? ==> (u == w <==> m == n)
  {
    hide Filled, MarkedAt;
  }

  ghost predicate Conveys(x: Node, heap: map<nat, seq<Val>>, v: Val) {
    && OneEach(x)
    && (forall p {:trigger Follow(heap, v, p)} :: Shows(Follow(heap, v, p), Means(x, [], p)))
    && (forall p, q {:trigger Follow(heap, v, p), Follow(heap, v, q)} :: Means(x, [], p).Thing? && Means(x, [], q).Thing? ==>
          (Follow(heap, v, p) == Follow(heap, v, q) <==> Means(x, [], p) == Means(x, [], q)))
  }

  lemma ReadConveys(x: Node)
    requires Read(x, EMPTY, 0).Ok?
    ensures Conveys(x, Read(x, EMPTY, 0).s.heap, Read(x, EMPTY, 0).v)
  {
    hide Read, Means, Follow, OneEach, Shows;
    var r := Read(x, EMPTY, 0);
    ReadMeans(x, [], []);
    forall p, q {:trigger Follow(r.s.heap, r.v, p), Follow(r.s.heap, r.v, q)}
      ensures Shows(Follow(r.s.heap, r.v, p), Means(x, [], p))
      ensures Means(x, [], p).Thing? && Means(x, [], q).Thing? ==>
                (Follow(r.s.heap, r.v, p) == Follow(r.s.heap, r.v, q) <==> Means(x, [], p) == Means(x, [], q))
    {
      ReadMeans(x, p, q);
    }
    forall p {:trigger Follow(r.s.heap, r.v, p)} ensures Shows(Follow(r.s.heap, r.v, p), Means(x, [], p)) { ReadMeans(x, p, p); }
  }

  /** fasl_read_super_code_object, after its header: a stream is read with a table of marks of its own. */
  method ReadStream(x: Node) returns (ok: bool, v: Val, heap: map<nat, seq<Val>>)
    ensures ok <==> InOrder(Events(x, 0), {})
    ensures ok ==> Conveys(x, heap, v)
  {
    hide Read, Conveys, InOrder, Events;
    var port := new Port();
    ReadInOrder(x);
    ok, v := port.DoRead(x, 0);
    heap := port.heap;
    if ok {
      ReadConveys(x);
      assert heap == port.Now().heap;
    }
  }
}
