/** What a FASL stream means, said of the tree of its headers alone, and that the reader builds just that. */
module FaslMeaning {
  import opened Fasl
  import opened Wrappers

  // ---------- The tree ----------

  /** A node without its mark. */
  function Body(x: Node): Node {
    if x.Marked? then x.node else x
  }

  predicate IsObject(x: Node) {
    x.Pair? || x.Chain? || x.Vector?
  }

  /** How many slots the object has. The pairs of a chain are objects of their own. */
  function Arity(x: Node): nat {
    match x
    case Pair(_, _) => 2
    case Chain(_, _, _) => 2
    case Vector(items) => |items|
    case _ => 0
  }

  /** What is in slot i of the object: car and cdr, or item i. The cdr of a chain is what is left of it. */
  function Part(x: Node, i: nat): Node
    requires i < Arity(x)
  {
    match x
    case Pair(a, d) => if i == 0 then a else d
    case Chain(a, more, d) => if i == 0 then a else if more == [] then d else Chain(more[0], more[1..], d)
    case Vector(items) => items[i]
  }

  /** The node at a place of the tree: the slots that lead there from the top. */
  function NodeAt(x: Node, place: seq<nat>): Option<Node>
    decreases |place|
  {
    if place == [] then Some(x)
    else if place[0] < Arity(Body(x)) then NodeAt(Part(Body(x), place[0]), place[1..])
    else None
  }

  ghost predicate MarkedAt(x: Node, k: nat, place: seq<nat>) {
    var n := NodeAt(x, place);
    n.Some? && n.value.Marked? && n.value.index == k && IsObject(n.value.node)
  }

  // ---------- What it means ----------

  /** What there is at the end of a path: nothing, an immediate value, or the object written at a place of the tree. */
  datatype Meaning = Nothing | Number(n: int) | Thing(place: seq<nat>)

  /** The object that is marked with the index. */
  ghost function Home(x: Node, k: nat): Meaning {
    if place :| k != 0 && MarkedAt(x, k, place) then Thing(place) else Nothing
  }

  ghost function Landing(x: Node, place: seq<nat>): Meaning {
    match NodeAt(x, place)
    case None => Nothing
    case Some(y) =>
      match Body(y)
      case Atom(n) => Number(n)
      case Ref(k) => Home(x, k)
      case Marked(_, _) => Nothing
      case _ => Thing(place)
  }

  /** Following a path of slots from a place, through references to objects that are written elsewhere. */
  ghost function Means(x: Node, place: seq<nat>, path: seq<nat>): Meaning
    decreases |path|
  {
    if path == [] then Landing(x, place)
    else match Landing(x, place)
      case Thing(q) => Means(x, q + [path[0]], path[1..])
      case _ => Nothing
  }

  // ---------- Which streams are read ----------

  /** What the reader meets, in its order: a mark before a node, the object that gets it, a reference. */
  datatype Event = Opens(k: nat) | Gets(k: nat) | Uses(k: nat) | Wrong

  function Events(x: Node, mark: nat): seq<Event>
    decreases Size(x), 1
  {
    var got := if mark == 0 then [] else [Gets(mark)];
    match x
    case Atom(_) => []
    case Ref(k) => [Uses(k)]
    case Pair(a, d) => got + (Events(a, 0) + Events(d, 0))
    case Chain(a, more, d) => got + (Events(a, 0) + (AllEvents(more) + Events(d, 0)))
    case Vector(items) => got + AllEvents(items)
    case Marked(k, y) => if mark != 0 || y.Marked? then [Wrong] else [Opens(k)] + Events(y, k)
  }

  function AllEvents(xs: seq<Node>): seq<Event>
    decreases Sizes(xs), 2
  {
    if xs == [] then [] else Events(xs[0], 0) + AllEvents(xs[1..])
  }

  predicate EventFits(es: seq<Event>, i: nat, known: set<nat>)
    requires i < |es|
  {
    match es[i]
    case Opens(k) => k !in known && Gets(k) !in es[..i]
    case Gets(_) => true
    case Uses(k) => k != 0 && (k in known || Gets(k) in es[..i])
    case Wrong => false
  }

  /** References come after the objects that they refer to, and no mark is used again after an object has got it. */
  predicate InOrder(es: seq<Event>, known: set<nat>) {
    forall i {:trigger es[i]} :: 0 <= i < |es| ==> EventFits(es, i, known)
  }

  function GotBy(es: seq<Event>): set<nat> {
    set e | e in es && e.Gets? :: e.k
  }

  lemma GotByAppend(a: seq<Event>, b: seq<Event>)
    ensures GotBy(a + b) == GotBy(a) + GotBy(b)
  {
    forall k | k in GotBy(a) + GotBy(b) ensures k in GotBy(a + b) { assert Gets(k) in a || Gets(k) in b; assert Gets(k) in a + b; }
    forall k | k in GotBy(a + b) ensures k in GotBy(a) + GotBy(b) { assert Gets(k) in a + b; }
  }

  lemma InOrderAppend(a: seq<Event>, b: seq<Event>, known: set<nat>)
    ensures InOrder(a + b, known) <==> InOrder(a, known) && InOrder(b, known + GotBy(a))
  {
    forall i | 0 <= i < |a| ensures EventFits(a + b, i, known) <==> EventFits(a, i, known) {
      assert (a + b)[..i] == a[..i];
    }
    forall i | 0 <= i < |b| ensures EventFits(a + b, |a| + i, known) <==> EventFits(b, i, known + GotBy(a)) {
      LaterFits(a, b, known, i);
    }
    if InOrder(a + b, known) {
      forall i | 0 <= i < |a| ensures EventFits(a, i, known) { assert (a + b)[i] == a[i]; }
      forall i | 0 <= i < |b| ensures EventFits(b, i, known + GotBy(a)) { assert (a + b)[|a| + i] == b[i]; }
    }
    if InOrder(a, known) && InOrder(b, known + GotBy(a)) {
      forall i | 0 <= i < |a + b| ensures EventFits(a + b, i, known) {
        if i < |a| { assert (a + b)[i] == a[i]; } else { assert (a + b)[i] == b[i - |a|] && i == |a| + (i - |a|); }
      }
    }
  }

  lemma LaterFits(a: seq<Event>, b: seq<Event>, known: set<nat>, i: nat)
    requires i < |b|
    ensures EventFits(a + b, |a| + i, known) <==> EventFits(b, i, known + GotBy(a))
  {
    assert (a + b)[|a| + i] == b[i];
    assert (a + b)[..|a| + i] == a + b[..i];
    forall k ensures Gets(k) in a + b[..i] <==> k in GotBy(a) || Gets(k) in b[..i] {
      assert Gets(k) in a <==> k in GotBy(a);
    }
  }

  lemma NoEvents(known: set<nat>)
    ensures InOrder([], known) && GotBy([]) == {}
  {
  }

  lemma OneEvent(e: Event, known: set<nat>)
    ensures InOrder([e], known) <==> match e { case Opens(k) => k !in known case Gets(_) => true case Uses(k) => k != 0 && k in known case Wrong => false }
    ensures GotBy([e]) == if e.Gets? then {e.k} else {}
  {
    var es := [e];
    assert es[..0] == [] && es[0] == e;
    assert InOrder(es, known) <==> EventFits(es, 0, known);
    if e.Gets? { assert Gets(e.k) in es; }
  }

  // ---------- The reader refuses the others ----------

  /** What the events say of a result: whether there is one, and which marks there are afterwards. */
  ghost predicate Heeds(r: Result, es: seq<Event>, known: set<nat>) {
    && (r.Ok? <==> InOrder(es, known))
    && (r.Ok? ==> r.s.marks.Keys == known + GotBy(es))
  }

  lemma NothingHeeded(v: Val, s: State)
    ensures Heeds(Ok(v, s), [], s.marks.Keys)
  {
    NoEvents(s.marks.Keys);
  }

  /** After a part that was read, the rest. */
  lemma HeedsMore(r: Result, q: Result, es: seq<Event>, more: seq<Event>, known: set<nat>)
    requires Heeds(r, es, known) && (r.Ok? ==> Heeds(q, more, r.s.marks.Keys)) && (r.Abort? ==> q.Abort?)
    ensures Heeds(q, es + more, known)
  {
    InOrderAppend(es, more, known);
    GotByAppend(es, more);
    hide InOrder, GotBy;
    if r.Ok? { assert known + GotBy(es) + GotBy(more) == known + (GotBy(es) + GotBy(more)); }
  }

  lemma SlotKeepsMarks(s: State, id: nat, i: nat, v: Val)
    ensures SetSlot(s, id, i, v).marks == s.marks
  {
  }

  /** The new object gets its mark. */
  lemma GotMark(r: Result, s: State, mark: nat, count: nat, n: nat, v: Val, es: seq<Event>)
    requires Heeds(r, es, SetMark(Allocated(s, count, n), mark, v).marks.Keys)
    ensures Heeds(r, (if mark == 0 then [] else [Gets(mark)]) + es, s.marks.Keys)
  {
    var s1 := SetMark(Allocated(s, count, n), mark, v);
    if mark == 0 {
      assert [] + es == es;
    } else {
      OneEvent(Gets(mark), s.marks.Keys);
      assert s1.marks.Keys == s.marks.Keys + {mark};
      HeedsMore(Ok(v, s1), r, [Gets(mark)], es, s.marks.Keys);
    }
  }

  lemma {:induction false} ReadHeeds(x: Node, s: State, mark: nat)
    ensures Heeds(Read(x, s, mark), Events(x, mark), s.marks.Keys)
    decreases Size(x), 1
  {
    hide Heeds, Allocated, SetMark, SetSlot, ReadPair, ReadSpine, ReadSlots, InOrder, GotBy;
    match x
    case Atom(n) => NothingHeeded(Imm(n), s);
    case Ref(k) => RefHeeds(k, s);
    case Pair(a, d) =>
      var s1 := SetMark(Allocated(s, 1, 2), mark, Obj(s.next));
      PairHeeds(a, d, s.next, s1);
      GotMark(ReadPair(a, d, s.next, s1), s, mark, 1, 2, Obj(s.next), Events(a, 0) + Events(d, 0));
    case Chain(a, more, d) =>
      var s1 := SetMark(Allocated(s, 1 + |more|, 2), mark, Obj(s.next));
      SpineHeeds(a, more, d, s.next, s1);
      GotMark(ReadSpine(a, more, d, s.next, s1), s, mark, 1 + |more|, 2, Obj(s.next), Events(a, 0) + (AllEvents(more) + Events(d, 0)));
    case Vector(items) =>
      var s1 := SetMark(Allocated(s, 1, |items|), mark, Obj(s.next));
      SlotsHeed(items, s.next, 0, s1);
      GotMark(ReadSlots(items, s.next, 0, s1), s, mark, 1, |items|, Obj(s.next), AllEvents(items));
    case Marked(k, y) =>
      if mark != 0 || y.Marked? {
        WrongHeeds(s);
      } else {
        ReadHeeds(y, s, k);
        OpensHeeds(k, s, Read(y, s, k), Events(y, k));
      }
  }

  lemma RefHeeds(k: nat, s: State)
    ensures Heeds(Read(Ref(k), s, 0), [Uses(k)], s.marks.Keys)
  {
    OneEvent(Uses(k), s.marks.Keys);
  }

  lemma WrongHeeds(s: State)
    ensures Heeds(Abort, [Wrong], s.marks.Keys)
  {
    OneEvent(Wrong, s.marks.Keys);
  }

  lemma OpensHeeds(k: nat, s: State, r: Result, es: seq<Event>)
    requires Heeds(r, es, s.marks.Keys)
    ensures Heeds(if k in s.marks then Abort else r, [Opens(k)] + es, s.marks.Keys)
  {
    var first := if k in s.marks then Abort else Ok(Imm(0), s);
    OneEvent(Opens(k), s.marks.Keys);
    HeedsMore(first, if k in s.marks then Abort else r, [Opens(k)], es, s.marks.Keys);
  }

  lemma {:induction false} PairHeeds(a: Node, d: Node, id: nat, s: State)
    ensures Heeds(ReadPair(a, d, id, s), Events(a, 0) + Events(d, 0), s.marks.Keys)
    decreases Size(a) + Size(d) + 1, 0
  {
    hide SetSlot, Read, Events, InOrder, GotBy;
    ReadHeeds(a, s, 0);
    var r := Read(a, s, 0);
    if r.Ok? {
      SlotKeepsMarks(r.s, id, 0, r.v);
      var s1 := SetSlot(r.s, id, 0, r.v);
      ReadHeeds(d, s1, 0);
      var q := Read(d, s1, 0);
      if q.Ok? { SlotKeepsMarks(q.s, id, 1, q.v); }
    }
    HeedsMore(r, ReadPair(a, d, id, s), Events(a, 0), Events(d, 0), s.marks.Keys);
  }

  lemma {:induction false} SpineHeeds(a: Node, more: seq<Node>, d: Node, id: nat, s: State)
    ensures Heeds(ReadSpine(a, more, d, id, s), Events(a, 0) + (AllEvents(more) + Events(d, 0)), s.marks.Keys)
    decreases Size(a) + Sizes(more) + Size(d) + 1, 1
  {
    hide SetSlot, Read, Events, ReadPair, InOrder, GotBy;
    SpineStep(a, more, d, id, s);
    if more == [] {
      PairHeeds(a, d, id, s);
      assert [] + Events(d, 0) == Events(d, 0);
    } else {
      ReadHeeds(a, s, 0);
      var r := Read(a, s, 0);
      var rest := Events(more[0], 0) + (AllEvents(more[1..]) + Events(d, 0));
      assert AllEvents(more) + Events(d, 0) == rest;
      if r.Ok? {
        SlotKeepsMarks(r.s, id, 0, r.v);
        var s1 := SetSlot(r.s, id, 0, r.v);
        SlotKeepsMarks(s1, id, 1, Obj(id + 1));
        SpineHeeds(more[0], more[1..], d, id + 1, SetSlot(s1, id, 1, Obj(id + 1)));
      }
      hide ReadSpine;
      HeedsMore(r, ReadSpine(a, more, d, id, s), Events(a, 0), rest, s.marks.Keys);
    }
  }

  lemma {:induction false} SlotsHeed(items: seq<Node>, id: nat, i: nat, s: State)
    ensures Heeds(ReadSlots(items, id, i, s), AllEvents(items), s.marks.Keys)
    decreases Sizes(items), 2
  {
    hide SetSlot, Read, Events, InOrder, GotBy;
    if items == [] {
      NothingHeeded(Obj(id), s);
    } else {
      ReadHeeds(items[0], s, 0);
      var r := Read(items[0], s, 0);
      if r.Ok? {
        SlotKeepsMarks(r.s, id, i, r.v);
        SlotsHeed(items[1..], id, i + 1, SetSlot(r.s, id, i, r.v));
      }
      HeedsMore(r, ReadSlots(items, id, i, s), Events(items[0], 0), AllEvents(items[1..]), s.marks.Keys);
    }
  }

  /** The reader reads exactly the streams that are in order. */
  lemma ReadInOrder(x: Node)
    ensures Read(x, EMPTY, 0).Ok? <==> InOrder(Events(x, 0), {})
  {
    assert EMPTY.marks.Keys == {};
    ReadHeeds(x, EMPTY, 0);
  }
}
