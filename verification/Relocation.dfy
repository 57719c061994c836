/** Relocation of code objects: the walk over a relocation vector when code is loaded, and the one the collector makes
    when code, or what it refers to, has moved. */
module Relocation {
  import opened Bits
  import opened Bytes

  const W: int := 0x1_0000_0000_0000_0000
  const HALF32: int := 0x8000_0000

  type Word = x: int | 0 <= x < W

  // ---------- Relocation vectors ----------

  /** A record: where in the data area something is stored, and what. */
  datatype Record =
    | Vanilla(disp: nat, obj: int)
    | Foreign(disp: nat, name: int)
    | InObject(disp: nat, off: int, obj: int)
    | Jump(disp: nat, off: int, obj: int)

  /** IK_UNFIX */
  function Unfix(w: Word): int {
    (if w >= W / 2 then w - W else w) / 8
  }

  function RecordLength(tag: int): nat {
    if tag == 0 || tag == 1 then 2 else 3
  }

  function RecordOf(s: seq<Word>): Record
    requires 3 <= |s| || (2 <= |s| && Unfix(s[0]) % 4 <= 1)
    requires 0 <= Unfix(s[0])
  {
    var bits := Unfix(s[0]);
    var disp := bits / 4;
    match bits % 4
    case 0 => Vanilla(disp, s[1])
    case 1 => Foreign(disp, s[1])
    case 2 => InObject(disp, Unfix(s[1]), s[2])
    case _ => Jump(disp, Unfix(s[1]), s[2])
  }

  /** The vector holds whole records, with displacements that are not negative. */
  predicate WholeRecords(vec: seq<Word>) {
    vec == [] || (var n := RecordLength(Unfix(vec[0]) % 4); 0 <= Unfix(vec[0]) && n <= |vec| && WholeRecords(vec[n..]))
  }

  function Records(vec: seq<Word>): seq<Record>
    requires WholeRecords(vec)
  {
    if vec == [] then [] else [RecordOf(vec)] + Records(vec[RecordLength(Unfix(vec[0]) % 4)..])
  }

  function Width(r: Record): nat {
    if r.Jump? then 4 else 8
  }

  predicate Within(rs: seq<Record>, size: nat) {
    forall i {:trigger rs[i]} :: 0 <= i < |rs| ==> rs[i].disp + Width(rs[i]) <= size
  }

  predicate Disjoint(rs: seq<Record>) {
    forall i, j {:trigger rs[i], rs[j]} :: 0 <= i < |rs| && 0 <= j < |rs| && i != j
      ==> rs[i].disp + Width(rs[i]) <= rs[j].disp || rs[j].disp + Width(rs[j]) <= rs[i].disp
  }

  // ---------- How the assembler writes records ----------

  /** IK_FIX */
  function Fix(n: int): Word {
    8 * n % W
  }

  /** What fits into the words of a record. */
  predicate Sound(r: Record) {
    && r.disp < W / 64
    && (r.Foreign? || 0 <= r.obj < W)
    && (r.Foreign? ==> 0 <= r.name < W)
    && (r.InObject? || r.Jump? ==> -(W / 16) <= r.off < W / 16)
  }

  /** The words of a record: the tag below the displacement, and then what it takes to find the value. */
  function Laid(r: Record): (s: seq<Word>)
    requires Sound(r)
    ensures 2 <= |s| <= 3
  {
    match r
    case Vanilla(disp, obj) => [Fix(4 * disp), obj]
    case Foreign(disp, name) => [Fix(4 * disp + 1), name]
    case InObject(disp, off, obj) => [Fix(4 * disp + 2), Fix(off), obj]
    case Jump(disp, off, obj) => [Fix(4 * disp + 3), Fix(off), obj]
  }

  function AllLaid(rs: seq<Record>): seq<Word>
    requires forall i {:trigger rs[i]} :: 0 <= i < |rs| ==> Sound(rs[i])
  {
    if rs == [] then [] else Laid(rs[0]) + AllLaid(rs[1..])
  }

  lemma FixRead(n: int)
    requires -(W / 16) <= n < W / 16
    ensures Unfix(Fix(n)) == n
  {
  }

  /** The first record of a vector is the one that was written first. */
  lemma FirstRead(r: Record, more: seq<Word>)
    requires Sound(r)
    ensures var s := Laid(r) + more;
            && s != [] && 0 <= Unfix(s[0]) && RecordLength(Unfix(s[0]) % 4) == |Laid(r)| && s[|Laid(r)|..] == more && RecordOf(s) == r
  {
    FixRead(4 * r.disp + if r.Vanilla? then 0 else if r.Foreign? then 1 else if r.InObject? then 2 else 3);
    if r.InObject? || r.Jump? { FixRead(r.off); }
    hide Fix, Unfix;
    var s := Laid(r) + more;
    assert s[0] == Laid(r)[0] && s[1] == Laid(r)[1] && (|Laid(r)| == 3 ==> s[2] == Laid(r)[2]);
  }

  /** The walks see the records that the assembler wrote, in their order. */
  lemma {:induction false} RecordsRead(rs: seq<Record>)
    requires forall i {:trigger rs[i]} :: 0 <= i < |rs| ==> Sound(rs[i])
    ensures WholeRecords(AllLaid(rs)) && Records(AllLaid(rs)) == rs
    decreases |rs|
  {
    hide Laid, Unfix;
    if rs != [] {
      RecordsRead(rs[1..]);
      FirstRead(rs[0], AllLaid(rs[1..]));
      assert rs == [rs[0]] + rs[1..];
    }
  }

  // ---------- What is stored ----------

  function Signed64(v: int): int {
    (v + W / 2) % W - W / 2
  }

  /** From the instruction after the jump to its target. */
  function Distance(r: Record, pData: int): int
    requires r.Jump?
  {
    Signed64(r.obj + r.off - (pData + r.disp + 4))
  }

  datatype Patch = Patch(at: nat, bytes: seq<Byte>)

  function Symbol(syms: map<int, Word>, name: int): int {
    if name in syms then syms[name] else 0
  }

  /** What a record stands for when the data area is at pData. */
  function PatchOf(r: Record, pData: int, syms: map<int, Word>): (p: Patch)
    ensures p.at == r.disp && |p.bytes| == Width(r)
  {
    match r
    case Vanilla(disp, obj) => Patch(disp, Le(obj, 8))
    case Foreign(disp, name) => Patch(disp, Le(Symbol(syms, name), 8))
    case InObject(disp, off, obj) => Patch(disp, Le((obj + off) % W, 8))
    case Jump(disp, off, obj) => Patch(disp, Le(Distance(r, pData), 4))
  }

  /** A record whose object has moved. */
  function Moved(r: Record, move: int -> int): (r': Record)
    ensures r'.disp == r.disp && Width(r') == Width(r)
  {
    match r
    case Vanilla(disp, obj) => Vanilla(disp, move(obj))
    case Foreign(_, _) => r
    case InObject(disp, off, obj) => InObject(disp, off, move(obj))
    case Jump(disp, off, obj) => Jump(disp, off, move(obj))
  }

  function AllMoved(rs: seq<Record>, move: int -> int): (r: seq<Record>)
    ensures |r| == |rs| && forall i {:trigger r[i]} :: 0 <= i < |r| ==> r[i] == Moved(rs[i], move)
  {
    seq(|rs|, i requires 0 <= i < |rs| => Moved(rs[i], move))
  }

  function Patches(rs: seq<Record>, pData: int, syms: map<int, Word>): (ps: seq<Patch>)
    ensures |ps| == |rs| && forall i {:trigger ps[i]} :: 0 <= i < |ps| ==> ps[i] == PatchOf(rs[i], pData, syms)
  {
    seq(|rs|, i requires 0 <= i < |rs| => PatchOf(rs[i], pData, syms))
  }

  /** The collector stores nothing for a foreign address. */
  function GcPatch(r: Record, pData: int, move: int -> int): Patch {
    if r.Foreign? then Patch(0, []) else PatchOf(Moved(r, move), pData, map[])
  }

  function GcPatches(rs: seq<Record>, pData: int, move: int -> int): (ps: seq<Patch>)
    ensures |ps| == |rs| && forall i {:trigger ps[i]} :: 0 <= i < |ps| ==> ps[i] == GcPatch(rs[i], pData, move)
  {
    seq(|rs|, i requires 0 <= i < |rs| => GcPatch(rs[i], pData, move))
  }

  predicate Fits(ps: seq<Patch>, size: nat) {
    forall i {:trigger ps[i]} :: 0 <= i < |ps| ==> ps[i].at + |ps[i].bytes| <= size
  }

  /** The data area after the patches, in their order. */
  function Patched(data: seq<Byte>, ps: seq<Patch>): (r: seq<Byte>)
    requires Fits(ps, |data|)
    ensures |r| == |data|
    decreases |ps|
  {
    if ps == [] then data else
      assert Fits(ps[1..], |data|) by { assert forall i {:trigger ps[1..][i]} :: 0 <= i < |ps| - 1 ==> ps[1..][i] == ps[i + 1]; }
      assert ps[0].at + |ps[0].bytes| <= |data|;
      Patched(Put(data, ps[0].at, ps[0].bytes), ps[1..])
  }

  // ---------- What the fields have to be ----------

  /** The field of a record in code that has been loaded at pData: the object, the address of the foreign name, an
      address within the object, or the low half of the distance to it. */
  ghost predicate Stored(data: seq<Byte>, r: Record, pData: int, syms: map<int, Word>)
    requires r.disp + Width(r) <= |data|
  {
    match r
    case Vanilla(disp, obj) => LeValue(data[disp..disp + 8]) == obj % W
    case Foreign(disp, name) => name in syms && LeValue(data[disp..disp + 8]) == syms[name]
    case InObject(disp, off, obj) => LeValue(data[disp..disp + 8]) == (obj + off) % W
    case Jump(disp, off, obj) => LeValue(data[disp..disp + 4]) == (obj + off - (pData + disp + 4)) % (2 * HALF32)
  }

  /** The same in code that the collector has relocated, where foreign addresses stay as they are. */
  ghost predicate Restored(was: seq<Byte>, data: seq<Byte>, r: Record, pData: int, move: int -> int)
    requires r.disp + Width(r) <= |data| == |was|
  {
    match r
    case Vanilla(disp, obj) => LeValue(data[disp..disp + 8]) == move(obj) % W
    case Foreign(disp, name) => data[disp..disp + 8] == was[disp..disp + 8]
    case InObject(disp, off, obj) => LeValue(data[disp..disp + 8]) == (move(obj) + off) % W
    case Jump(disp, off, obj) => LeValue(data[disp..disp + 4]) == (move(obj) + off - (pData + disp + 4)) % (2 * HALF32)
  }

  /** Byte k belongs to the code itself. */
  predicate NoField(rs: seq<Record>, k: int) {
    forall i {:trigger rs[i]} :: 0 <= i < |rs| ==> !(rs[i].disp <= k < rs[i].disp + Width(rs[i]))
  }

  ghost predicate Loaded(was: seq<Byte>, data: seq<Byte>, rs: seq<Record>, pData: int, syms: map<int, Word>)
    requires |data| == |was| && Within(rs, |data|)
  {
    && (forall i {:trigger rs[i]} :: 0 <= i < |rs| ==> Stored(data, rs[i], pData, syms))
    && (forall k {:trigger data[k]} :: 0 <= k < |data| && NoField(rs, k) ==> data[k] == was[k])
  }

  ghost predicate Relocated(was: seq<Byte>, data: seq<Byte>, rs: seq<Record>, pData: int, move: int -> int)
    requires |data| == |was| && Within(rs, |data|)
  {
    && (forall i {:trigger rs[i]} :: 0 <= i < |rs| ==> Restored(was, data, rs[i], pData, move))
    && (forall k {:trigger data[k]} :: 0 <= k < |data| && NoField(rs, k) ==> data[k] == was[k])
  }

  // ---------- The load-time walk ----------

  /** Loading succeeds if no record is zero and all the foreign names are found. */
  predicate Loadable(rs: seq<Record>, syms: map<int, Word>) {
    forall i {:trigger rs[i]} :: 0 <= i < |rs| ==>
      !(rs[i].Vanilla? && rs[i].disp == 0) && (rs[i].Foreign? ==> rs[i].name in syms)
  }

  lemma NextRecord(vec: seq<Word>, cur: nat, rs: seq<Record>, i: nat)
    requires cur < |vec| && i <= |rs| && WholeRecords(vec[cur..]) && Records(vec[cur..]) == rs[i..]
    ensures var n := RecordLength(Unfix(vec[cur]) % 4);
            && i < |rs| && 0 <= Unfix(vec[cur]) && cur + n <= |vec| && WholeRecords(vec[cur + n..])
            && Records(vec[cur + n..]) == rs[i + 1..]
    ensures rs[i] == RecordOf(vec[cur..])
  {
    var v := vec[cur..];
    var n := RecordLength(Unfix(vec[cur]) % 4);
    assert v[0] == vec[cur] && v[n..] == vec[cur + n..];
    assert rs[i] == rs[i..][0] && rs[i..][1..] == rs[i + 1..];
    assert Records(v)[1..] == Records(v[n..]);
  }

  lemma NextPatch(data: seq<Byte>, ps: seq<Patch>, i: nat)
    requires i < |ps| && Fits(ps, |data|)
    ensures Fits(ps[i..], |data|) && Fits(ps[i + 1..], |data|)
    ensures Patched(data, ps[i..]) == Patched(Put(data, ps[i].at, ps[i].bytes), ps[i + 1..])
  {
    assert forall k {:trigger ps[i..][k]} :: 0 <= k < |ps| - i ==> ps[i..][k] == ps[i + k];
    assert forall k {:trigger ps[i + 1..][k]} :: 0 <= k < |ps| - i - 1 ==> ps[i + 1..][k] == ps[i + 1 + k];
    assert ps[i..][1..] == ps[i + 1..] && ps[i..][0] == ps[i];
  }

  /** ik_relocate_code: the vector is walked to its exact end, unless a record is zero or a foreign name is not found. */
  method RelocateLoaded(data: array<Byte>, pData: int, vec: seq<Word>, syms: map<int, Word>) returns (ok: bool)
    requires WholeRecords(vec) && Within(Records(vec), data.Length)
    modifies data
    ensures ok <==> Loadable(Records(vec), syms)
    ensures ok <==> forall i {:trigger Records(vec)[i]} :: 0 <= i < |Records(vec)| ==>
                      var r := Records(vec)[i]; !(r.Vanilla? && r.disp == 0) && (r.Foreign? ==> r.name in syms)
    ensures ok ==> Fits(Patches(Records(vec), pData, syms), data.Length)
                   && data[..] == Patched(old(data[..]), Patches(Records(vec), pData, syms))
    ensures ok && Disjoint(Records(vec)) ==> Loaded(old(data[..]), data[..], Records(vec), pData, syms)
  {
    hide WholeRecords, Records, Patched, Le, Unfix, Loaded, Relocated, Disjoint;
    ghost var rs := Records(vec);
    ghost var ps := Patches(rs, pData, syms);
    ghost var i := 0;
    ghost var was := data[..];
    var cur := 0;
    assert vec[0..] == vec && rs[0..] == rs && ps[0..] == ps;
    while cur < |vec|
      invariant 0 <= cur <= |vec| && 0 <= i <= |rs| && Fits(ps[i..], data.Length)
      invariant WholeRecords(vec[cur..]) && Records(vec[cur..]) == rs[i..]
      invariant Patched(data[..], ps[i..]) == Patched(was, ps)
      invariant forall k {:trigger rs[k]} :: 0 <= k < i ==> !(rs[k].Vanilla? && rs[k].disp == 0) && (rs[k].Foreign? ==> rs[k].name in syms)
    {
      NextRecord(vec, cur, rs, i);
      NextPatch(data[..], ps, i);
      var bits := Unfix(vec[cur]);
      if bits == 0 {
        return false;
      }
      var tag, disp := bits % 4, bits / 4;
      assert rs[i].disp == disp && ps[i] == PatchOf(rs[i], pData, syms);
      match tag {
        case 0 =>
          StoreBytes(data, disp, vec[cur + 1], 8);
          cur := cur + 2;
        case 2 =>
          var off, obj := Unfix(vec[cur + 1]), vec[cur + 2];
          StoreBytes(data, disp, (obj + off) % W, 8);
          cur := cur + 3;
        case 3 =>
          var off, obj := Unfix(vec[cur + 1]), vec[cur + 2];
          var target, after := obj + off, pData + disp + 4;
          StoreBytes(data, disp, Signed64(target - after), 4);
          cur := cur + 3;
        case _ =>
          var name := vec[cur + 1];
          if name !in syms {
            return false;
          }
          StoreBytes(data, disp, syms[name], 8);
          cur := cur + 2;
      }
      i := i + 1;
    }
    AllWalked(vec, rs, i);
    assert ps[|ps|..] == [];
    NothingPatched(data[..], ps[i..]);
    if Disjoint(rs) { PatchesLoad(was, rs, pData, syms); }
    ok := true;
  }

  lemma AllWalked(vec: seq<Word>, rs: seq<Record>, i: nat)
    requires i <= |rs| && WholeRecords(vec[|vec|..]) && Records(vec[|vec|..]) == rs[i..]
    ensures i == |rs|
  {
  }

  lemma NothingPatched(data: seq<Byte>, ps: seq<Patch>)
    requires ps == []
    ensures Patched(data, ps) == data
  {
  }

  // ---------- The collector's walk ----------

  predicate InRange(d: int) {
    -HALF32 <= d < HALF32
  }

  /** The collector aborts at a jump that has become too long. */
  predicate Reachable(rs: seq<Record>, pData: int, move: int -> int) {
    forall i {:trigger rs[i]} :: 0 <= i < |rs| && rs[i].Jump? ==> InRange(Distance(Moved(rs[i], move), pData))
  }

  /** relocate_code_object; move is what gather_live_object returns for each object. */
  method RelocateMoved(data: array<Byte>, pData: int, vec: seq<Word>, move: int -> int) returns (ok: bool)
    requires WholeRecords(vec) && Within(Records(vec), data.Length)
    modifies data
    ensures ok <==> Reachable(Records(vec), pData, move)
    ensures ok ==> Fits(GcPatches(Records(vec), pData, move), data.Length)
                   && data[..] == Patched(old(data[..]), GcPatches(Records(vec), pData, move))
    ensures ok && Disjoint(Records(vec)) ==> Relocated(old(data[..]), data[..], Records(vec), pData, move)
  {
    hide WholeRecords, Records, Patched, Le, Unfix, Loaded, Relocated, Disjoint;
    ghost var rs := Records(vec);
    ghost var ps := GcPatches(rs, pData, move);
    ghost var i := 0;
    ghost var was := data[..];
    var cur := 0;
    assert vec[0..] == vec && rs[0..] == rs && ps[0..] == ps;
    while cur < |vec|
      invariant 0 <= cur <= |vec| && 0 <= i <= |rs| && Fits(ps[i..], data.Length)
      invariant WholeRecords(vec[cur..]) && Records(vec[cur..]) == rs[i..]
      invariant Patched(data[..], ps[i..]) == Patched(was, ps)
      invariant forall k {:trigger rs[k]} :: 0 <= k < i && rs[k].Jump? ==> InRange(Distance(Moved(rs[k], move), pData))
    {
      NextRecord(vec, cur, rs, i);
      NextPatch(data[..], ps, i);
      var bits := Unfix(vec[cur]);
      var tag, disp := bits % 4, bits / 4;
      assert rs[i].disp == disp && ps[i] == GcPatch(rs[i], pData, move);
      match tag {
        case 0 =>
          StoreBytes(data, disp, move(vec[cur + 1]), 8);
          cur := cur + 2;
        case 2 =>
          var off, obj := Unfix(vec[cur + 1]), move(vec[cur + 2]);
          StoreBytes(data, disp, (obj + off) % W, 8);
          cur := cur + 3;
        case 3 =>
          var off, obj := Unfix(vec[cur + 1]), move(vec[cur + 2]);
          var target, after := obj + off, pData + disp + 4;
          var distance := Signed64(target - after);
          if !InRange(distance) {
            return false;
          }
          StoreBytes(data, disp, distance, 4);
          cur := cur + 3;
        case _ =>
          assert Put(data[..], 0, []) == data[..];
          cur := cur + 2;
      }
      i := i + 1;
    }
    AllWalked(vec, rs, i);
    assert ps[|ps|..] == [];
    NothingPatched(data[..], ps[i..]);
    if Disjoint(rs) { PatchesRelocate(was, rs, pData, move); }
    ok := true;
  }

  // ---------- The two agree ----------

  predicate Covers(p: Patch, k: int) {
    p.at <= k < p.at + |p.bytes|
  }

  ghost predicate Apart(ps: seq<Patch>) {
    forall i, j, k {:trigger Covers(ps[i], k), Covers(ps[j], k)} :: 0 <= i < |ps| && 0 <= j < |ps| && i != j && Covers(ps[i], k) ==> !Covers(ps[j], k)
  }

  lemma {:induction false} PatchedElsewhere(data: seq<Byte>, ps: seq<Patch>, k: nat)
    requires Fits(ps, |data|) && k < |data| && forall i {:trigger ps[i]} :: 0 <= i < |ps| ==> !Covers(ps[i], k)
    ensures Patched(data, ps)[k] == data[k]
    decreases |ps|
  {
    if ps != [] {
      assert !Covers(ps[0], k);
      NextPatch(data, ps, 0);
      assert ps[0..] == ps;
      assert forall i {:trigger ps[1..][i]} :: 0 <= i < |ps| - 1 ==> ps[1..][i] == ps[i + 1];
      PatchedElsewhere(Put(data, ps[0].at, ps[0].bytes), ps[1..], k);
    }
  }

  lemma {:induction false} PatchedAt(data: seq<Byte>, ps: seq<Patch>, i: nat, k: nat)
    requires Fits(ps, |data|) && Apart(ps) && i < |ps| && Covers(ps[i], k) && k < |data|
    ensures Patched(data, ps)[k] == ps[i].bytes[k - ps[i].at]
    decreases |ps|
  {
    NextPatch(data, ps, 0);
    assert ps[0..] == ps;
    assert forall j {:trigger ps[1..][j]} :: 0 <= j < |ps| - 1 ==> ps[1..][j] == ps[j + 1];
    var next := Put(data, ps[0].at, ps[0].bytes);
    if i == 0 {
      PatchedElsewhere(next, ps[1..], k);
    } else {
      PatchedAt(next, ps[1..], i - 1, k);
    }
  }

  lemma PatchesApart(rs: seq<Record>, pData: int, syms: map<int, Word>, size: nat)
    requires Disjoint(rs) && Within(rs, size)
    ensures var ps := Patches(rs, pData, syms); Apart(ps) && Fits(ps, size)
  {
  }

  lemma GcPatchesApart(rs: seq<Record>, pData: int, move: int -> int, size: nat)
    requires Disjoint(rs) && Within(rs, size)
    ensures var ps := GcPatches(rs, pData, move); Apart(ps) && Fits(ps, size)
  {
  }

  /** Every patch of c is a patch of b, or is one of a that b leaves alone. */
  predicate Refills(a: seq<Patch>, b: seq<Patch>, c: seq<Patch>) {
    && |a| == |b| == |c|
    && (forall i {:trigger a[i]} :: 0 <= i < |a| ==> a[i].at == c[i].at && |a[i].bytes| == |c[i].bytes|)
    && (forall i {:trigger b[i]} :: 0 <= i < |b| ==> b[i] == c[i] || (b[i].bytes == [] && a[i] == c[i]))
  }

  lemma RefilledAt(data: seq<Byte>, a: seq<Patch>, b: seq<Patch>, c: seq<Patch>, i: nat, k: nat)
    requires Fits(a, |data|) && Fits(b, |data|) && Fits(c, |data|) && Apart(a) && Apart(b) && Apart(c) && Refills(a, b, c)
    requires i < |c| && Covers(c[i], k) && k < |data|
    ensures Patched(Patched(data, a), b)[k] == Patched(data, c)[k]
  {
    hide Patched, Fits;
    PatchedAt(data, c, i, k);
    if b[i] == c[i] {
      PatchedAt(Patched(data, a), b, i, k);
    } else {
      assert a[i] == c[i];
      PatchedAt(data, a, i, k);
      forall j | 0 <= j < |b| ensures !Covers(b[j], k) {
        if j != i { assert !Covers(c[j], k); }
      }
      PatchedElsewhere(Patched(data, a), b, k);
    }
  }

  lemma Refilled(data: seq<Byte>, a: seq<Patch>, b: seq<Patch>, c: seq<Patch>)
    requires Fits(a, |data|) && Fits(b, |data|) && Fits(c, |data|) && Apart(a) && Apart(b) && Apart(c) && Refills(a, b, c)
    ensures Patched(Patched(data, a), b) == Patched(data, c)
  {
    hide Patched, Fits, Apart;
    forall k | 0 <= k < |data| ensures Patched(Patched(data, a), b)[k] == Patched(data, c)[k] {
      if i :| 0 <= i < |c| && Covers(c[i], k) {
        RefilledAt(data, a, b, c, i, k);
      } else {
        forall i | 0 <= i < |c| ensures !Covers(a[i], k) && !Covers(b[i], k) {
          assert !Covers(c[i], k);
        }
        PatchedElsewhere(data, a, k);
        PatchedElsewhere(Patched(data, a), b, k);
        PatchedElsewhere(data, c, k);
      }
    }
  }

  lemma MovedSame(rs: seq<Record>, move: int -> int, size: nat)
    requires Disjoint(rs) && Within(rs, size)
    ensures Disjoint(AllMoved(rs, move)) && Within(AllMoved(rs, move), size)
  {
  }

  lemma PatchesRefill(rs: seq<Record>, p: int, q: int, syms: map<int, Word>, move: int -> int)
    ensures Refills(Patches(rs, p, syms), GcPatches(rs, q, move), Patches(AllMoved(rs, move), q, syms))
  {
    hide Le;
  }

  /** The relocators agree: code that has been loaded at one place and relocated by the collector at another is the code
      as it would have been loaded there, with the objects where they are now. */
  lemma RelocatorsAgree(data: seq<Byte>, rs: seq<Record>, p: int, q: int, syms: map<int, Word>, move: int -> int)
    requires Disjoint(rs) && Within(rs, |data|)
    ensures Fits(Patches(rs, p, syms), |data|) && Fits(GcPatches(rs, q, move), |data|) && Fits(Patches(AllMoved(rs, move), q, syms), |data|)
    ensures Patched(Patched(data, Patches(rs, p, syms)), GcPatches(rs, q, move)) == Patched(data, Patches(AllMoved(rs, move), q, syms))
  {
    hide Patched, Le, Fits, Apart, Disjoint, Within, Refills;
    var moved := AllMoved(rs, move);
    MovedSame(rs, move, |data|);
    PatchesApart(rs, p, syms, |data|);
    GcPatchesApart(rs, q, move, |data|);
    PatchesApart(moved, q, syms, |data|);
    PatchesRefill(rs, p, q, syms, move);
    Refilled(data, Patches(rs, p, syms), GcPatches(rs, q, move), Patches(moved, q, syms));
  }

  // ---------- Jumps ----------

  function Sext32(v: int): int {
    (v + HALF32) % (2 * HALF32) - HALF32
  }

  /** Where the machine goes: the next instruction and the stored distance. */
  function Landing(data: seq<Byte>, r: Record, pData: int): int
    requires r.disp + 4 <= |data|
  {
    (pData + r.disp + 4 + Sext32(LeValue(data[r.disp..r.disp + 4]))) % W
  }

  lemma PatchedBytes(data: seq<Byte>, ps: seq<Patch>, i: nat)
    requires Fits(ps, |data|) && Apart(ps) && i < |ps|
    ensures Patched(data, ps)[ps[i].at..ps[i].at + |ps[i].bytes|] == ps[i].bytes
  {
    hide Patched;
    forall k | ps[i].at <= k < ps[i].at + |ps[i].bytes| ensures Patched(data, ps)[k] == ps[i].bytes[k - ps[i].at] {
      PatchedAt(data, ps, i, k);
    }
  }

  lemma LeWord(v: int)
    ensures LeValue(Le(v, 8)) == v % W && LeValue(Le(v, 4)) == v % (2 * HALF32)
  {
    hide Le, LeValue, Pow2;
    LeRead(v, 8);
    LeRead(v, 4);
    Pow32();
    PowAdd(32, 32);
  }

  lemma WordsStay(w: Word)
    ensures w % W == w
  {
  }

  /** Half of a word does not depend on what is above it. */
  lemma DistanceMod(r: Record, pData: int)
    requires r.Jump?
    ensures Distance(r, pData) % (2 * HALF32) == (r.obj + r.off - (pData + r.disp + 4)) % (2 * HALF32)
  {
    var d := r.obj + r.off - (pData + r.disp + 4);
    var q := (d + W / 2) / W;
    assert Distance(r, pData) == d - W * q;
    assert W * q == (2 * HALF32) * (2 * HALF32 * q);
    Multiple(d, 2 * HALF32 * q);
  }

  lemma Multiple(d: int, q: int)
    ensures (d - (2 * HALF32) * q) % (2 * HALF32) == d % (2 * HALF32)
  {
  }

  lemma PatchStored(data: seq<Byte>, r: Record, pData: int, syms: map<int, Word>)
    requires r.disp + Width(r) <= |data| && (r.Foreign? ==> r.name in syms)
    requires data[r.disp..r.disp + Width(r)] == PatchOf(r, pData, syms).bytes
    ensures Stored(data, r, pData, syms)
  {
    hide Le, LeValue, Distance;
    match r
    case Vanilla(_, obj) => LeWord(obj);
    case Foreign(_, name) => LeWord(syms[name]); WordsStay(syms[name]);
    case InObject(_, off, obj) => LeWord((obj + off) % W);
    case Jump(_, _, _) => LeWord(Distance(r, pData)); DistanceMod(r, pData);
  }

  lemma NoFieldPatched(data: seq<Byte>, rs: seq<Record>, ps: seq<Patch>, k: nat)
    requires Fits(ps, |data|) && |ps| == |rs| && k < |data| && NoField(rs, k)
    requires forall i {:trigger ps[i]} :: 0 <= i < |ps| ==> ps[i].bytes == [] || (ps[i].at == rs[i].disp && |ps[i].bytes| == Width(rs[i]))
    ensures Patched(data, ps)[k] == data[k]
  {
    hide Patched, Fits;
    forall i {:trigger ps[i]} | 0 <= i < |ps| ensures !Covers(ps[i], k) { assert !(rs[i].disp <= k < rs[i].disp + Width(rs[i])); }
    PatchedElsewhere(data, ps, k);
  }

  /** Whatever the order of the records, each field holds what its record stands for, and nothing else is written. */
  lemma PatchesLoad(data: seq<Byte>, rs: seq<Record>, pData: int, syms: map<int, Word>)
    requires Disjoint(rs) && Within(rs, |data|) && Loadable(rs, syms)
    ensures Fits(Patches(rs, pData, syms), |data|) && Loaded(data, Patched(data, Patches(rs, pData, syms)), rs, pData, syms)
  {
    hide Patched, Le, LeValue, PatchOf, Distance, Stored, Apart, Disjoint, NoField;
    var ps := Patches(rs, pData, syms);
    PatchesApart(rs, pData, syms, |data|);
    var now := Patched(data, ps);
    forall i {:trigger rs[i]} | 0 <= i < |rs| ensures Stored(now, rs[i], pData, syms) {
      PatchedBytes(data, ps, i);
      PatchStored(now, rs[i], pData, syms);
    }
    forall k {:trigger now[k]} | 0 <= k < |now| && NoField(rs, k) ensures now[k] == data[k] {
      NoFieldPatched(data, rs, ps, k);
    }
  }

  lemma PatchRestored(was: seq<Byte>, data: seq<Byte>, r: Record, pData: int, move: int -> int)
    requires r.disp + Width(r) <= |data| == |was|
    requires if r.Foreign? then data[r.disp..r.disp + 8] == was[r.disp..r.disp + 8] else data[r.disp..r.disp + Width(r)] == GcPatch(r, pData, move).bytes
    ensures Restored(was, data, r, pData, move)
  {
    hide Le, LeValue, Distance;
    match r
    case Vanilla(_, obj) => LeWord(move(obj));
    case Foreign(_, _) =>
    case InObject(_, off, obj) => LeWord((move(obj) + off) % W);
    case Jump(_, _, _) => LeWord(Distance(Moved(r, move), pData)); DistanceMod(Moved(r, move), pData);
  }

  /** The field of a foreign address is nobody else's. */
  lemma ForeignStays(data: seq<Byte>, rs: seq<Record>, pData: int, move: int -> int, i: nat)
    requires Disjoint(rs) && Within(rs, |data|) && i < |rs| && rs[i].Foreign? && Fits(GcPatches(rs, pData, move), |data|)
    ensures Patched(data, GcPatches(rs, pData, move))[rs[i].disp..rs[i].disp + 8] == data[rs[i].disp..rs[i].disp + 8]
  {
    hide Patched, Le, Distance, Fits;
    var ps := GcPatches(rs, pData, move);
    forall k | rs[i].disp <= k < rs[i].disp + 8 ensures Patched(data, ps)[k] == data[k] {
      forall j {:trigger ps[j]} | 0 <= j < |ps| ensures !Covers(ps[j], k) { assert rs[j] == rs[j] && rs[i] == rs[i]; }
      PatchedElsewhere(data, ps, k);
    }
  }

  lemma PatchesRelocate(data: seq<Byte>, rs: seq<Record>, pData: int, move: int -> int)
    requires Disjoint(rs) && Within(rs, |data|)
    ensures Fits(GcPatches(rs, pData, move), |data|) && Relocated(data, Patched(data, GcPatches(rs, pData, move)), rs, pData, move)
  {
    hide Patched, Le, LeValue, Distance, Restored, Apart, Disjoint, NoField, PatchOf;
    var ps := GcPatches(rs, pData, move);
    GcPatchesApart(rs, pData, move, |data|);
    var now := Patched(data, ps);
    forall i {:trigger rs[i]} | 0 <= i < |rs| ensures Restored(data, now, rs[i], pData, move) {
      if rs[i].Foreign? { ForeignStays(data, rs, pData, move, i); } else { PatchedBytes(data, ps, i); }
      PatchRestored(data, now, rs[i], pData, move);
    }
    forall k {:trigger now[k]} | 0 <= k < |now| && NoField(rs, k) ensures now[k] == data[k] {
      NoFieldPatched(data, rs, ps, k);
    }
  }

  lemma StoredDistance(r: Record, pData: int)
    requires r.Jump?
    ensures var d := Distance(r, pData); (Sext32(LeValue(Le(d, 4))) - d) % W == 0 <==> InRange(d)
  {
    var d := Distance(r, pData);
    LeRead(d, 4);
    Pow32();
    SextMod(d);
    SmallMod(Sext32(d) - d);
  }

  lemma SmallMod(x: int)
    requires -W < x < W
    ensures x % W == 0 <==> x == 0
  {
  }

  lemma SextMod(d: int)
    ensures Sext32(d % (2 * HALF32)) == Sext32(d) && -HALF32 <= Sext32(d) < HALF32
    ensures InRange(d) <==> Sext32(d) == d
  {
  }

  /** After loading, a jump goes to its target exactly when the target is in range: the distance is truncated without
      a test. */
  lemma LoadedJumpLands(data: seq<Byte>, rs: seq<Record>, pData: int, syms: map<int, Word>, i: nat)
    requires Disjoint(rs) && Within(rs, |data|) && i < |rs| && rs[i].Jump?
    ensures Fits(Patches(rs, pData, syms), |data|)
    ensures Landing(Patched(data, Patches(rs, pData, syms)), rs[i], pData) == (rs[i].obj + rs[i].off) % W
            <==> InRange(Distance(rs[i], pData))
  {
    hide Patched, Le, LeValue, Sext32, Distance, InRange, Apart, Disjoint;
    var ps := Patches(rs, pData, syms);
    PatchesApart(rs, pData, syms, |data|);
    PatchedBytes(data, ps, i);
    Lands(rs[i], pData, Sext32(LeValue(Le(Distance(rs[i], pData), 4))));
    StoredDistance(rs[i], pData);
  }

  /** A jump that does not: its target is 2^31 bytes after the next instruction. */
  lemma FarJumpMisses(data: seq<Byte>, syms: map<int, Word>)
    requires |data| == 4
    ensures var rs := [Jump(0, 0, HALF32 + 4)];
            && Disjoint(rs) && Within(rs, |data|) && Fits(Patches(rs, 0, syms), |data|)
            && Landing(Patched(data, Patches(rs, 0, syms)), rs[0], 0) != rs[0].obj + rs[0].off
  {
    var rs := [Jump(0, 0, HALF32 + 4)];
    LoadedJumpLands(data, rs, 0, syms, 0);
    assert Distance(rs[0], 0) == HALF32;
    assert (rs[0].obj + rs[0].off) % W == rs[0].obj + rs[0].off;
  }

  /** After a collection every jump goes to where its target is now, or the collector has aborted. */
  lemma MovedJumpLands(data: seq<Byte>, rs: seq<Record>, pData: int, move: int -> int, i: nat)
    requires Disjoint(rs) && Within(rs, |data|) && i < |rs| && rs[i].Jump? && Reachable(rs, pData, move)
    ensures Fits(GcPatches(rs, pData, move), |data|)
    ensures Landing(Patched(data, GcPatches(rs, pData, move)), rs[i], pData) == (move(rs[i].obj) + rs[i].off) % W
  {
    hide Patched, Apart, Disjoint, Landing, Distance, InRange;
    JumpMoved(data, rs, pData, move, i);
    assert InRange(Distance(Moved(rs[i], move), pData));
  }

  /** The collector aborts just when some jump would not reach its target. */
  lemma ReachableLands(data: seq<Byte>, rs: seq<Record>, pData: int, move: int -> int)
    requires Disjoint(rs) && Within(rs, |data|)
    ensures Fits(GcPatches(rs, pData, move), |data|)
    ensures Reachable(rs, pData, move) <==>
              forall i {:trigger rs[i]} :: 0 <= i < |rs| && rs[i].Jump? ==>
                Landing(Patched(data, GcPatches(rs, pData, move)), rs[i], pData) == (move(rs[i].obj) + rs[i].off) % W
  {
    hide Patched, Apart, Disjoint, Landing, Distance, InRange;
    GcPatchesApart(rs, pData, move, |data|);
    forall i {:trigger rs[i]} | 0 <= i < |rs| && rs[i].Jump?
      ensures Landing(Patched(data, GcPatches(rs, pData, move)), rs[i], pData) == (move(rs[i].obj) + rs[i].off) % W
              <==> InRange(Distance(Moved(rs[i], move), pData))
    {
      JumpMoved(data, rs, pData, move, i);
    }
  }

  lemma JumpMoved(data: seq<Byte>, rs: seq<Record>, pData: int, move: int -> int, i: nat)
    requires Disjoint(rs) && Within(rs, |data|) && i < |rs| && rs[i].Jump?
    ensures Fits(GcPatches(rs, pData, move), |data|)
    ensures Landing(Patched(data, GcPatches(rs, pData, move)), rs[i], pData) == (move(rs[i].obj) + rs[i].off) % W
            <==> InRange(Distance(Moved(rs[i], move), pData))
  {
    hide Patched, Le, LeValue, Sext32, Distance, InRange, Apart, Disjoint;
    var ps := GcPatches(rs, pData, move);
    GcPatchesApart(rs, pData, move, |data|);
    PatchedBytes(data, ps, i);
    var r := Moved(rs[i], move);
    Lands(r, pData, Sext32(LeValue(Le(Distance(r, pData), 4))));
    StoredDistance(r, pData);
  }

  lemma Lands(r: Record, pData: int, s: int)
    requires r.Jump?
    ensures (pData + r.disp + 4 + s) % W == (r.obj + r.off) % W <==> (s - Distance(r, pData)) % W == 0
  {
    var after, target := pData + r.disp + 4, r.obj + r.off;
    SameMod(after + s, target);
    SameMod(target - after, Distance(r, pData));
  }

  lemma SameMod(a: int, b: int)
    ensures a % W == b % W <==> (a - b) % W == 0
  {
  }

  /** It does not matter which slots of the relocation vector have been scanned already. */
  lemma ScannedAlready(rs: seq<Record>, rs': seq<Record>, move: int -> int)
    requires |rs| == |rs'| && forall x {:trigger move(x)} :: move(move(x)) == move(x)
    requires forall i {:trigger rs'[i]} :: 0 <= i < |rs| ==> rs'[i] == rs[i] || rs'[i] == Moved(rs[i], move)
    ensures AllMoved(rs', move) == AllMoved(rs, move)
  {
    forall i | 0 <= i < |rs| ensures Moved(rs'[i], move) == Moved(rs[i], move) {
      assert move(move(0)) == move(0);
    }
  }
}
