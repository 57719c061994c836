/** The execution of Scheme code and its continuations: sealing the stack, resuming frozen frames, and calls to C
    functions that call back. */
module Exec {
  import opened Frames
  import opened ExecLog

  datatype Resumption = Resumed | NoRoom | Aborted

  class Machine {
    const sizes: map<int, nat>
    const stack: array<int>
    var konts: seq<Continuation>
    var nextK: Ref
    var frameBase: nat
    var framePointer: nat
    var systemStack: int

    constructor (sizes: map<int, nat>, size: nat)
      requires 0 < size
      ensures Idle() && nextK == Null && konts == []
    {
      this.sizes := sizes;
      stack := new int[size](_ => UNDERFLOW_HANDLER);
      konts := [];
      nextK := Null;
      frameBase := size;
      framePointer := size;
      systemStack := 0;
    }

    function Now(): Mem
      reads this, stack
    {
      Mem(sizes, stack[..], konts)
    }

    function Conf(): Config
      reads this, stack
    {
      Config(Now(), nextK, frameBase, framePointer, systemStack)
    }

    /** The word under the frame base is the underflow handler, and all that is frozen is not below the base. */
    predicate Based()
      reads this, stack
    {
      && 0 < frameBase <= stack.Length && stack[frameBase - 1] == UNDERFLOW_HANDLER
      && Frozen(Now(), frameBase) && Linked(Now(), nextK)
    }

    /** Compiled code runs: its segment is made of whole frames. */
    predicate Running()
      reads this, stack
    {
      Based() && framePointer < frameBase && Whole(sizes, stack[..], framePointer, frameBase - 1)
    }

    /** The stack as ik_exec_code asserts it. */
    predicate Idle()
      reads this, stack
    {
      Based() && framePointer == frameBase
    }

    // ---------- Sealing ----------

    /** seal_scheme_stack: what is pending afterwards is the frames of the segment, and then what was pending. */
    method Seal()
      requires Running() && (framePointer == frameBase - 1 || 0 < framePointer)
      modifies this, stack
      ensures Running() && framePointer == frameBase - 1 && frameBase <= old(frameBase)
      ensures Keeps(old(Now()), Now()) && systemStack == old(systemStack) && |old(konts)| <= |konts|
      ensures forall items {:trigger Pends(old(Now()), old(nextK), items)} :: Pends(old(Now()), old(nextK), items)
                ==> Pends(Now(), nextK, old(Split(sizes, stack[..], framePointer, frameBase - 1)) + items)
      ensures SameFrom(old(stack[..]), stack[..], old(framePointer))
    {
      ghost var m, before := Now(), nextK;
      if frameBase - 1 != framePointer {
        var kont := Process(framePointer, (frameBase - 1) - framePointer, nextK);
        konts := konts + [kont];
        nextK := Kont(|konts| - 1);
        frameBase := framePointer;
        framePointer := frameBase - 1;
        stack[framePointer] := UNDERFLOW_HANDLER;
        Sealed(m, before, Now(), kont, frameBase);
      } else {
        forall items | Pends(m, before, items) ensures Pends(Now(), nextK, [] + items) {
          assert [] + items == items;
        }
      }
    }

    /** ik_enter_c_function: the stack is sealed, and the C stack saved, with what is to be resumed, in a new system
        continuation. */
    method EnterC()
      requires Running() && (framePointer == frameBase - 1 || 0 < framePointer)
      modifies this, stack
      ensures Running() && framePointer == frameBase - 1 && frameBase <= old(frameBase)
      ensures Keeps(old(Now()), Now()) && systemStack == old(systemStack)
      ensures |old(konts)| < |konts| && nextK == Kont(|konts| - 1)
      ensures var k := konts[|konts| - 1]; k.System? && k.systemTop == systemStack && Linked(Now(), k.next)
      ensures forall items {:trigger Pends(old(Now()), old(nextK), items)} :: Pends(old(Now()), old(nextK), items)
                ==> Pends(Now(), konts[|konts| - 1].next, old(Split(sizes, stack[..], framePointer, frameBase - 1)) + items)
    {
      ghost var m, r := Now(), nextK;
      ghost var active := Split(sizes, stack[..], framePointer, frameBase - 1);
      Seal();
      ghost var n, s := Now(), nextK;
      konts := konts + [System(systemStack, nextK)];
      nextK := Kont(|konts| - 1);
      Entered(m, n, Now(), frameBase);
      forall items | Pends(m, r, items) ensures Pends(Now(), s, active + items) {
        assert Pends(n, s, active + items);
      }
    }

    /** ik_leave_c_function */
    method LeaveC() returns (aborted: bool)
      requires Based() && (framePointer == frameBase || framePointer == frameBase - 1) && nextK.Kont?
      modifies this
      ensures konts == old(konts) && frameBase == old(frameBase) && framePointer == frameBase - 1
      ensures aborted <==> konts[old(nextK).id].Process?
      ensures !aborted ==> nextK == konts[old(nextK).id].next && systemStack == konts[old(nextK).id].systemTop && Running()
      ensures aborted ==> nextK == old(nextK) && systemStack == old(systemStack) && Based()
    {
      framePointer := frameBase - 1;
      var k := konts[nextK.id];
      if !k.System? {
        return true;
      }
      nextK := k.next;
      systemStack := k.systemTop;
      aborted := false;
    }

    // ---------- Resuming a frame ----------

    /** The head frame is taken off the continuation that is to be resumed, which is split in place if it has more.
        The two aborts cannot be reached. */
    method TakeFrame() returns (aborted: bool, top: int, framesize: int)
      requires Idle() && nextK.Kont? && konts[nextK.id].Process?
      modifies this
      ensures !aborted
      ensures Idle() && frameBase == old(frameBase) && systemStack == old(systemStack) && Keeps(old(Now()), Now())
      ensures 0 < framesize && frameBase <= top && top + framesize < stack.Length
      ensures Whole(sizes, stack[..], top, top + framesize)
      ensures Split(sizes, stack[..], top, top + framesize) == [Frame(stack[top..top + framesize])]
      ensures forall items {:trigger Pends(old(Now()), old(nextK), items)} :: Pends(old(Now()), old(nextK), items)
                ==> 0 < |items| && items[0] == Frame(stack[top..top + framesize]) && Pends(Now(), nextK, items[1..])
    {
      hide Split, Whole, Frozen, Keeps;
      ghost var m, r := Now(), nextK;
      var id := nextK.id;
      var kont := konts[id];
      top := kont.top;
      HeadFrame(m, id, frameBase);
      var returnAddress := stack[top];
      var size: int := CallTable(sizes, returnAddress);
      framesize := size;
      if returnAddress == UNDERFLOW_HANDLER {
        return true, top, size;
      }
      if size == 0 {
        size := stack[top + 1];
      }
      if size <= 0 || size > kont.size {
        return true, top, size;
      }
      framesize := size;
      if framesize < kont.size {
        konts := konts[id := Process(top, framesize, Kont(|konts|))] + [Process(top + framesize, kont.size - framesize, kont.next)];
        nextK := konts[id].next;
        assert Now() == SplitKont(m, id, framesize);
        SplitKeeps(m, id, framesize, frameBase);
      } else {
        nextK := kont.next;
        SameKept(m);
      }
      HeadTaken(m, id, framesize, frameBase);
      aborted := false;
    }

    /** memmove of the values, and memcpy of the frame: word by word from low to high, as the ranges may overlap. */
    method MoveWords(dst: nat, src: nat, count: nat)
      requires dst <= src && src + count <= stack.Length
      modifies stack
      ensures Moved(old(stack[..]), stack[..], dst, src, count)
    {
      var i := 0;
      while i < count
        invariant 0 <= i <= count
        invariant Moved(old(stack[..]), stack[..], dst, src, i)
      {
        stack[dst + i] := stack[src + i];
        i := i + 1;
      }
    }

    /** The copies under the frame base: the values are moved down by a frame, and the frame is put over them. */
    method PutFrame(top: nat, framesize: nat, count: nat)
      requires 0 < frameBase <= top && top + framesize <= stack.Length && framesize + count < frameBase
      modifies stack
      ensures Put(old(stack[..]), stack[..], frameBase - 1, top, framesize, count)
    {
      hide Put;
      var fbase := frameBase - 1;
      var newBase := fbase - framesize;
      ghost var s := stack[..];
      MoveWords(newBase - count, fbase - count, count);
      ghost var u := stack[..];
      MoveWords(newBase, top, framesize);
      ghost var t := stack[..];
      CopiesPut(s, u, t, fbase, top, framesize, count);
    }

    /** The frame is put on the stack, and is what compiled code has there. */
    method Reinstate(top: nat, framesize: nat, count: nat)
      requires Idle() && 0 < framesize && frameBase <= top && top + framesize < stack.Length && framesize + count < frameBase
      requires Whole(sizes, stack[..], top, top + framesize) && Split(sizes, stack[..], top, top + framesize) == [Frame(stack[top..top + framesize])]
      modifies stack, this`framePointer
      ensures Running() && count <= framePointer < frameBase - 1 && Keeps(old(Now()), Now())
      ensures Shifted(old(stack[..]), stack[..], frameBase - 1, framePointer, count)
      ensures stack[framePointer..frameBase - 1] == old(stack[top..top + framesize])
      ensures Split(sizes, stack[..], framePointer, frameBase - 1) == [Frame(stack[framePointer..frameBase - 1])]
    {
      hide Split, Whole, Frozen, Keeps, SameFrom, FrameSize;
      ghost var n := Now();
      PutFrame(top, framesize, count);
      framePointer := frameBase - 1 - framesize;
      ghost var o := Now();
      BaseWord(n.stack, o.stack, frameBase - 1);
      Reinstated(n, o, top, framesize, frameBase);
      SameLinks(n, o, nextK);
    }

    /** One turn of the loop, up to the entry into compiled code: exactly the head frame is resumed, the values are
        under it in their order, and the tail is what is pending. There is no room exactly when the frame and the values
        do not fit under the frame base. */
    method Resume(count: nat) returns (r: Resumption, ghost size: nat)
      requires Idle() && nextK.Kont? && konts[nextK.id].Process?
      modifies this, stack
      ensures !r.Aborted?
      ensures Based() && frameBase == old(frameBase) && systemStack == old(systemStack) && Keeps(old(Now()), Now())
      ensures r.Resumed? ==> Running() && count <= framePointer && framePointer < frameBase - 1
      ensures r.Resumed? ==> Shifted(old(stack[..]), stack[..], frameBase - 1, framePointer, count)
      ensures r.Resumed? ==>
                forall items {:trigger Pends(old(Now()), old(nextK), items)} :: Pends(old(Now()), old(nextK), items)
                  ==> && 0 < |items| && Split(sizes, stack[..], framePointer, frameBase - 1) == [items[0]]
                      && items[0] == Frame(stack[framePointer..frameBase - 1]) && Pends(Now(), nextK, items[1..])
      ensures HeadLength(old(Now()), old(nextK), size) && (r.NoRoom? <==> frameBase <= size + count)
    {
      hide Split, Whole, Frozen, Keeps, Pends, HeadLength, Linked, Shifted;
      ghost var m, k := Now(), nextK;
      size := 0;
      var aborted, top, framesize := TakeFrame();
      if aborted {
        r := Aborted;
        return;
      }
      size := framesize;
      ghost var n := Now();
      HasLength(m, k, n.stack, top, framesize);
      if frameBase <= framesize + count {
        return NoRoom, size;
      }
      Reinstate(top, framesize, count);
      KeepsTrans(m, n, Now());
      ResumedPends(m, k, n, Now(), nextK, Frame(stack[framePointer..frameBase - 1]));
      r := Resumed;
    }

    // ---------- Runs ----------

    /** A store of compiled code into its part of the stack, or below it. */
    method StoreWord(at: nat, word: int)
      requires Running()
      modifies stack
      ensures Running() && Keeps(old(Now()), Now())
      ensures stack[..] == if MayStore(old(Conf()), at, word) then old(stack[..])[at := word] else old(stack[..])
    {
      ghost var m := Now();
      SameKept(m);
      if at < frameBase - 1 && Whole(sizes, stack[..][at := word], framePointer, frameBase - 1) {
        stack[at] := word;
        assert stack[..] == m.stack[at := word];
        BelowKeeps(m, Now(), frameBase);
      }
    }

    /** One step of compiled code. What does not apply is passed over; there is no test for a full stack in the code,
        and a run that fills it ends here. Whatever happens every continuation object keeps its frames, and under
        the frames of this run there is what was there before. */
    method RunAct(act: Act, ghost rest: seq<Item>) returns (ok: bool, ghost log: StepLog)
      requires Running() && Bottom(rest) && Chain(Now(), nextK, rest)
      modifies this, stack
      ensures Based() && Keeps(old(Now()), Now()) && frameBase <= old(frameBase)
      ensures ok ==> Running() && Chain(Now(), nextK, rest) && systemStack == old(systemStack)
      ensures log.before == old(Conf()) && log.after == Conf() && log.done == ok && StepFits(act, log)
      decreases act
    {
      hide Whole, Split, Frozen, Keeps, Pends, Chain, CallsFit, EnteredC, LeftC, Froze, SameRun;
      ghost var m, a := Now(), Conf();
      SameKept(m);
      ok := true;
      match act {
        case Store(at, word) =>
          StoreWord(at, word);
          ChainKept(m, Now(), nextK, rest);
        case Adjust(pointer) =>
          if pointer < frameBase && Whole(sizes, stack[..], pointer, frameBase - 1) {
            framePointer := pointer;
          }
        case Capture =>
          if framePointer == 0 && frameBase != 1 {
            return false, StepLog(a, a, [], Conf(), false);
          }
          ghost var r := nextK;
          Seal();
          ChainSealed(m, r, Now(), nextK, Active(a), rest);
          IsFroze(a, Now(), nextK);
        case Throw(k) =>
          if k < |konts| && SameRun(konts, Kont(k), nextK) {
            ThrowKeeps(Now(), Kont(k), nextK, frameBase, rest);
            nextK := Kont(k);
            framePointer := frameBase - 1;
            EmptySegment(sizes, stack[..], framePointer);
          }
        case CallC(callbacks) =>
          ghost var inside, calls;
          ok, inside, calls := Call(callbacks, rest);
          log := StepLog(a, inside, calls, Conf(), ok);
          return;
      }
      log := StepLog(a, a, [], Conf(), true);
    }

    /** A call to a C function that calls Scheme back any number of times: it ends with the C stack and the
        continuation that it found, and without an abort. */
    method Call(callbacks: seq<Callback>, ghost rest: seq<Item>) returns (ok: bool, ghost inside: Config, ghost calls: seq<RunLog>)
      requires Running() && Bottom(rest) && Chain(Now(), nextK, rest)
      modifies this, stack
      ensures Based() && Keeps(old(Now()), Now()) && frameBase <= old(frameBase)
      ensures ok ==> Running() && Chain(Now(), nextK, rest) && systemStack == old(systemStack) && framePointer == frameBase - 1
      ensures if Full(old(Conf())) then !ok && Conf() == old(Conf()) else
                && EnteredC(old(Conf()), inside) && CallsFit(callbacks, inside, calls, ok)
                && if ok then LeftC(old(Conf()), LastEnd(inside, calls), Conf()) else Conf() == LastEnd(inside, calls)
      decreases callbacks
    {
      hide Whole, Split, Frozen, Keeps, Pends, Chain, CallsFit, Froze, RunFits, Given;
      ghost var m, r, a := Now(), nextK, Conf();
      SameKept(m);
      if framePointer == 0 && frameBase != 1 {
        return false, a, [];
      }
      ghost var active := Active(a);
      EnterC();
      inside := Conf();
      ghost var n, id := Now(), |konts| - 1;
      IsFroze(a, n, konts[id].next);
      SameKept(n);
      ghost var bottom := Entry(m, r, n, id, active, rest);
      calls := [];
      NoCalls(callbacks, inside);
      var i := 0;
      while i < |callbacks|
        invariant 0 <= i <= |callbacks| && Based() && (framePointer == frameBase || framePointer == frameBase - 1)
        invariant Keeps(m, Now()) && Keeps(n, Now()) && frameBase <= old(frameBase)
        invariant Pends(Now(), nextK, bottom)
        invariant |calls| == i && Conf() == LastEnd(inside, calls) && CallsFit(callbacks[..i], inside, calls, true)
      {
        ghost var before, b := Now(), Conf();
        ghost var logs;
        var result;
        ok, result, logs := RunCallback(callbacks[i], bottom);
        KeepsTrans(m, before, Now());
        KeepsTrans(n, before, Now());
        NextCall(callbacks, inside, calls, logs, Conf(), ok);
        calls := calls + logs;
        if !ok {
          return;
        }
        i := i + 1;
      }
      assert callbacks[..i] == callbacks;
      ReturnIs(n, Now(), nextK, id, bottom);
      ghost var z := Conf();
      var aborted := LeaveC();
      assert !aborted;
      if aborted {
        return false, inside, calls;
      }
      Left(m, r, n, Now(), id, active, rest);
      IsFroze(a, Now(), nextK);
      ok := true;
    }

    /** The stack part of generic_callback; the log is empty if there is no room for the arguments. The result is what
        is converted to a native value. */
    method RunCallback(callback: Callback, ghost rest: seq<Item>) returns (ok: bool, result: int, ghost logs: seq<RunLog>)
      requires Based() && (framePointer == frameBase || framePointer == frameBase - 1)
      requires Bottom(rest) && Pends(Now(), nextK, rest)
      modifies this, stack
      ensures Based() && Keeps(old(Now()), Now()) && frameBase <= old(frameBase)
      ensures ok ==> Idle() && Pends(Now(), nextK, rest)
      ensures CallFits(callback, old(Conf()), logs, Conf(), ok)
      ensures ok ==> var values := Results(callback.turns, logs[0]); values != [] ==> result == values[0]
      decreases callback
    {
      hide Whole, Split, Frozen, Keeps, Pends;
      ghost var m, a := Now(), Conf();
      SameKept(m);
      if frameBase <= |callback.args| {
        return false, 0, [];
      }
      framePointer := frameBase;
      StoreBelow(callback.args);
      ghost var n := Now();
      KeptPends(m, n, nextK, rest);
      NoFrames(n, nextK, rest);
      ghost var log;
      ok, result, log := ExecCode(callback.turns, rest);
      logs := [log];
      KeepsTrans(m, n, Now());
    }

    /** Values are stored under the underflow handler, the first one highest. */
    method StoreBelow(values: seq<int>)
      requires Idle() && |values| < frameBase
      modifies stack
      ensures Idle() && Keeps(old(Now()), Now()) && SameFrom(old(stack[..]), stack[..], frameBase - 1)
      ensures forall j {:trigger values[j]} :: 0 <= j < |values| ==> stack[frameBase - 2 - j] == values[j]
    {
      hide Frozen, Keeps, Linked;
      ghost var m := Now();
      var i := 0;
      while i < |values|
        invariant 0 <= i <= |values|
        invariant forall k {:trigger stack[k]} :: frameBase - 1 <= k < stack.Length ==> stack[k] == m.stack[k]
        invariant forall j {:trigger values[j]} :: 0 <= j < i ==> stack[frameBase - 2 - j] == values[j]
      {
        stack[frameBase - 2 - i] := values[i];
        i := i + 1;
      }
      BelowKeeps(m, Now(), frameBase);
      SameLinks(m, Now(), nextK);
    }

    /** From an entry into compiled code to the return to ik_exec_code, with the returned values on the stack. */
    method RunTurn(turn: Turn, ghost rest: seq<Item>) returns (ok: bool, count: nat, ghost log: TurnLog)
      requires Running() && Bottom(rest) && Chain(Now(), nextK, rest)
      modifies this, stack
      ensures Based() && Keeps(old(Now()), Now()) && frameBase <= old(frameBase)
      ensures ok ==> Idle() && Chain(Now(), nextK, rest) && count == |turn.values| < frameBase
      ensures ok ==> forall j {:trigger turn.values[j]} :: 0 <= j < count ==> stack[frameBase - 2 - j] == turn.values[j]
      ensures log.enter == old(Conf()) && log.leave == Conf() && log.done == ok && TurnFits(turn, log)
      decreases turn
    {
      hide Whole, Split, Frozen, Keeps, Pends, Chain, StepsFit, StepFits;
      ghost var enter := Conf();
      systemStack := turn.cStack;
      count := |turn.values|;
      ghost var m, a := Now(), Conf();
      SameKept(m);
      ghost var steps: seq<StepLog> := [];
      NoSteps(turn.acts, a);
      var i := 0;
      while i < |turn.acts|
        invariant 0 <= i <= |turn.acts| && Running() && Chain(Now(), nextK, rest)
        invariant Keeps(m, Now()) && frameBase <= old(frameBase)
        invariant |steps| == i && Conf() == LastAfter(a, steps) && StepsFit(turn.acts, a, steps) && (steps != [] ==> steps[|steps| - 1].done)
      {
        ghost var before := Now();
        ghost var step;
        ok, step := RunAct(turn.acts[i], rest);
        KeepsTrans(m, before, Now());
        NextStep(turn.acts, a, steps, step);
        steps := steps + [step];
        if !ok {
          log := TurnLog(enter, steps, Conf(), false);
          return;
        }
        i := i + 1;
      }
      if frameBase <= count {
        return false, count, TurnLog(enter, steps, Conf(), false);
      }
      ghost var before := Now();
      framePointer := frameBase;
      StoreBelow(turn.values);
      KeepsTrans(m, before, Now());
      ChainKept(before, Now(), nextK, rest);
      ok := true;
      log := TurnLog(enter, steps, Conf(), true);
    }

    /** The body of the loop of ik_exec_code up to the entry into compiled code, with the values that are there. */
    method Reenter(count: nat, ghost values: seq<int>, ghost rest: seq<Item>) returns (ok: bool)
      requires Idle() && More(Conf()) && Bottom(rest) && Chain(Now(), nextK, rest) && count == |values| < frameBase
      requires forall j {:trigger values[j]} :: 0 <= j < count ==> stack[frameBase - 2 - j] == values[j]
      modifies this, stack
      ensures Based() && frameBase == old(frameBase) && Keeps(old(Now()), Now())
      ensures ok ==> Running() && Chain(Now(), nextK, rest) && Resumes(old(Conf()), values, Conf())
      ensures !ok ==> NoRoomFor(old(Conf()), values)
    {
      hide Whole, Split, Frozen, Keeps, Pends, Chain, Linked;
      ghost var m, k, a := Now(), nextK, Conf();
      ghost var size;
      var r;
      r, size := Resume(count);
      ok := r.Resumed?;
      if ok {
        ResumedChain(m, k, Now(), nextK, Split(sizes, stack[..], framePointer, frameBase - 1), rest);
        IsResumed(a, values, Conf());
      } else {
        NoRoomThere(a, size, values);
      }
    }

    /** ik_exec_code: compiled code is entered, and then its continuations are resumed frame by frame, down to the
        first system continuation or until there are none. A run is as long as the list of its turns. The result is
        the word where the first of the returned values is. */
    method ExecCode(turns: seq<Turn>, ghost rest: seq<Item>) returns (done: bool, result: int, ghost log: RunLog)
      requires Idle() && Bottom(rest) && Chain(Now(), nextK, rest)
      modifies this, stack
      ensures Based() && Keeps(old(Now()), Now()) && frameBase <= old(frameBase)
      ensures done ==> Idle() && Pends(Now(), nextK, rest)
      ensures log.start == old(Conf()) && log.end == Conf() && log.done == done && RunFits(turns, log)
      ensures done ==> var values := Results(turns, log); values != [] ==> result == values[0]
      decreases turns
    {
      hide Whole, Split, Frozen, Keeps, Pends, Chain, RunsTo, TurnFits, Resumes, Given, NoRoomFor;
      ghost var start := Conf();
      ghost var m := Now();
      SameKept(m);
      if turns == [] {
        NoTurns(start, start);
        return false, 0, RunLog(start, [], Conf(), false);
      }
      framePointer := frameBase - 1;
      EmptySegment(sizes, stack[..], framePointer);
      ghost var t;
      var ok, count;
      ok, count, t := RunTurn(turns[0], rest);
      ghost var ts := [t];
      FirstTurn(turns, start, t);
      if !ok {
        return false, 0, RunLog(start, ts, Conf(), false);
      }
      var i := 1;
      ghost var values := turns[0].values;
      while nextK.Kont? && konts[nextK.id].Process?
        invariant 1 <= i <= |turns| && Idle() && Chain(Now(), nextK, rest) && values == turns[i - 1].values && count == |values| < frameBase
        invariant Keeps(m, Now()) && frameBase <= old(frameBase)
        invariant forall j {:trigger values[j]} :: 0 <= j < count ==> stack[frameBase - 2 - j] == values[j]
        invariant |ts| == i && RunsTo(turns, start, ts) && ts[i - 1].done && ts[i - 1].leave == Conf()
        decreases |turns| - i
      {
        ghost var before := Now();
        ok := Reenter(count, values, rest);
        KeepsTrans(m, before, Now());
        if !ok || i == |turns| {
          return false, 0, RunLog(start, ts, Conf(), false);
        }
        ghost var entered := Now();
        ok, count, t := RunTurn(turns[i], rest);
        KeepsTrans(m, entered, Now());
        NextTurn(turns, start, ts, t);
        values := turns[i].values;
        ts := ts + [t];
        if !ok {
          return false, 0, RunLog(start, ts, Conf(), false);
        }
        i := i + 1;
      }
      ChainEnds(Now(), nextK, rest);
      done := true;
      result := if 1 < frameBase then stack[frameBase - 2] else 0;
      log := RunLog(start, ts, Conf(), true);
    }
  }

  // ---------- Lemmas about these steps ----------

  /** The first pending frame is on the stack now, with the values under it. */
  lemma IsResumed(a: Config, values: seq<int>, b: Config)
    requires b.base == a.base <= |a.m.stack| == |b.m.stack| && b.c == a.c && |values| <= b.fp < b.base - 1 && |values| < a.base
    requires Shifted(a.m.stack, b.m.stack, a.base - 1, b.fp, |values|)
    requires forall j {:trigger values[j]} :: 0 <= j < |values| ==> a.m.stack[a.base - 2 - j] == values[j]
    requires Whole(b.m.sizes, b.m.stack, b.fp, b.base - 1)
    requires forall items: seq<Item> {:trigger Pends(a.m, a.k, items)} :: Pends(a.m, a.k, items) ==>
               && 0 < |items| && Split(b.m.sizes, b.m.stack, b.fp, b.base - 1) == [items[0]]
               && items[0] == Frame(b.m.stack[b.fp..b.base - 1]) && Pends(b.m, b.k, items[1..])
    ensures Resumes(a, values, b)
  {
    hide Whole, Split, Pends;
    var n := |values|;
    forall j {:trigger values[j]} | 0 <= j < n ensures b.m.stack[b.fp - 1 - j] == values[j] {
      assert b.m.stack[b.fp - n..b.fp][n - 1 - j] == a.m.stack[a.base - 1 - n..a.base - 1][n - 1 - j];
    }
  }

  /** The values that were under fbase are under the frame pointer, in their order. */
  predicate Shifted(s: seq<int>, t: seq<int>, fbase: nat, fp: nat, count: nat) {
    count <= fp <= fbase <= |s| == |t| && t[fp - count..fp] == s[fbase - count..fbase]
  }

  /** The first of the pending frames has so many words. */
  ghost predicate HeadLength(m: Mem, k: Ref, size: nat) {
    forall items: seq<Item> {:trigger Pends(m, k, items)} :: Pends(m, k, items) ==> 0 < |items| && items[0].Frame? && |items[0].words| == size
  }

  lemma HasLength(m: Mem, k: Ref, stack: seq<int>, top: nat, size: nat)
    requires top + size <= |stack|
    requires forall items {:trigger Pends(m, k, items)} :: Pends(m, k, items) ==> 0 < |items| && items[0] == Frame(stack[top..top + size])
    ensures HeadLength(m, k, size)
  {
    hide Pends;
  }

  lemma NoRoomThere(a: Config, size: nat, values: seq<int>)
    requires HeadLength(a.m, a.k, size) && a.base <= size + |values|
    ensures NoRoomFor(a, values)
  {
    hide Pends;
  }

  lemma IsFroze(a: Config, m: Mem, k: Ref)
    requires forall items: seq<Item> {:trigger Pends(a.m, a.k, items)} :: Pends(a.m, a.k, items) ==> Pends(m, k, Active(a) + items)
    ensures Froze(a, m, k)
  {
  }

  /** The words of t are those of s, but for count words at dst, which are what s has at src. */
  ghost predicate Moved(s: seq<int>, t: seq<int>, dst: nat, src: nat, count: nat)
    requires dst <= src && src + count <= |s|
  {
    && |t| == |s|
    && (forall i {:trigger t[i]} :: 0 <= i < dst || dst + count <= i < |s| ==> t[i] == s[i])
    && (forall i {:trigger t[i]} :: dst <= i < dst + count ==> t[i] == s[i + (src - dst)])
  }

  lemma MovedSlice(s: seq<int>, t: seq<int>, dst: nat, src: nat, count: nat)
    requires dst <= src && src + count <= |s| && Moved(s, t, dst, src, count)
    ensures t[dst..dst + count] == s[src..src + count]
    ensures t[..dst] == s[..dst] && t[dst + count..] == s[dst + count..]
  {
  }

  /** The frame at top is under fbase, the values that were there are under it, and from fbase on nothing is changed. */
  predicate Put(s: seq<int>, t: seq<int>, fbase: nat, top: nat, framesize: nat, count: nat)
    requires framesize + count <= fbase <= top && top + framesize <= |s|
  {
    && SameFrom(s, t, fbase) && t[fbase - framesize..fbase] == s[top..top + framesize]
    && t[fbase - framesize - count..fbase - framesize] == s[fbase - count..fbase]
  }

  /** The two copies, from s to u and from u to t. */
  lemma CopiesPut(s: seq<int>, u: seq<int>, t: seq<int>, fbase: nat, top: nat, framesize: nat, count: nat)
    requires framesize + count <= fbase <= top && top + framesize <= |s|
    requires Moved(s, u, fbase - framesize - count, fbase - count, count) && Moved(u, t, fbase - framesize, top, framesize)
    ensures Put(s, t, fbase, top, framesize, count)
  {
    var newBase := fbase - framesize;
    MovedSlice(s, u, newBase - count, fbase - count, count);
    MovedSlice(u, t, newBase, top, framesize);
    assert u[top..top + framesize] == s[top..top + framesize];
    assert t[newBase - count..newBase] == u[newBase - count..newBase];
  }

  /** One more object above base, on top of objects that are frozen above base too. */
  lemma FrozenMore(m: Mem, n: Mem, k: Continuation, base: nat)
    requires n.konts == m.konts + [k] && n.sizes == m.sizes && Frozen(m.(stack := n.stack), base) && Linked(n, k.next)
    requires k.Process? ==> base <= k.top && GoodSegment(n, k)
    ensures Frozen(n, base)
  {
    hide Whole;
    ghost var o := m.(stack := n.stack);
    forall id | 0 <= id < |n.konts|
      ensures Linked(n, n.konts[id].next) && (n.konts[id].Process? ==> base <= n.konts[id].top && GoodSegment(n, n.konts[id]))
    {
      if id < |m.konts| {
        assert n.konts[id] == o.konts[id];
      }
    }
  }

  /** The frames of a new object are pending on top of those under it. */
  lemma PendsMore(n: Mem, id: nat, items: seq<Item>)
    requires id < |n.konts| && n.konts[id].Process? && GoodSegment(n, n.konts[id]) && Pends(n, n.konts[id].next, items)
    ensures var k := n.konts[id]; Pends(n, Kont(id), Split(n.sizes, n.stack, k.top, k.top + k.size) + items)
  {
    hide Whole;
    var k := n.konts[id];
    var fs := Split(n.sizes, n.stack, k.top, k.top + k.size);
    PendsAt(n, id, fs + items);
    hide Pends, Split;
    assert (fs + items)[..|fs|] == fs && (fs + items)[|fs|..] == items;
  }

  lemma FrozenFrom(m: Mem, high: nat, base: nat)
    requires Frozen(m, high) && base <= high
    ensures Frozen(m, base)
  {
    hide Whole;
  }

  lemma Sealed(m: Mem, before: Ref, n: Mem, kont: Continuation, base: nat)
    requires kont.Process? && kont.next == before && Linked(m, before) && 0 < base == kont.top && 0 < kont.size
    requires base + kont.size < |m.stack| && Frozen(m, base + kont.size + 1) && Whole(m.sizes, m.stack, base, base + kont.size)
    requires n == Mem(m.sizes, m.stack[base - 1 := UNDERFLOW_HANDLER], m.konts + [kont])
    ensures Keeps(m, n) && Frozen(n, base) && SameFrom(m.stack, n.stack, base)
    ensures Whole(n.sizes, n.stack, base - 1, base - 1)
    ensures forall items {:trigger Pends(m, before, items)} :: Pends(m, before, items)
              ==> Pends(n, Kont(|m.konts|), Split(m.sizes, m.stack, base, base + kont.size) + items)
  {
    var hi := base + kont.size;
    assert SameFrom(m.stack, n.stack, base);
    WholeStable(m.sizes, m.stack, n.stack, base, hi);
    hide Pends, Split;
    BelowKeeps(m, n, hi + 1);
    BelowKeeps(m, m.(stack := n.stack), hi + 1);
    FrozenFrom(m.(stack := n.stack), hi + 1, base);
    FrozenMore(m, n, kont, base);
    hide Frozen;
    forall items | Pends(m, before, items)
      ensures Pends(n, Kont(|m.konts|), Split(m.sizes, m.stack, base, hi) + items)
    {
      assert n.konts[|m.konts|] == kont;
      PendsMore(n, |m.konts|, items);
    }
  }

  lemma Entered(m: Mem, n: Mem, o: Mem, base: nat)
    requires Keeps(m, n) && Frozen(n, base)
    requires o.sizes == n.sizes && o.stack == n.stack && |o.konts| == |n.konts| + 1 && n.konts <= o.konts
    requires o.konts[|n.konts|].System? && Linked(n, o.konts[|n.konts|].next)
    ensures Keeps(m, o) && Frozen(o, base) && Keeps(n, o)
  {
    BelowKeeps(n, o, base);
    KeepsTrans(m, n, o);
    forall id | 0 <= id < |o.konts|
      ensures Linked(o, o.konts[id].next) && (o.konts[id].Process? ==> base <= o.konts[id].top && GoodSegment(o, o.konts[id]))
    {
      if id < |n.konts| { assert o.konts[id] == n.konts[id]; }
    }
  }

  lemma KeptPends(m: Mem, n: Mem, r: Ref, items: seq<Item>)
    requires Keeps(m, n) && Pends(m, r, items)
    ensures Pends(n, r, items)
  {
  }

  lemma SameKept(m: Mem)
    ensures Keeps(m, m)
  {
  }

  /** The first frame of a frozen segment. */
  lemma HeadFrame(m: Mem, id: nat, base: nat)
    requires Frozen(m, base) && id < |m.konts| && m.konts[id].Process?
    ensures var k := m.konts[id];
            && base <= k.top && 0 < k.size && k.top + k.size < |m.stack| && Whole(m.sizes, m.stack, k.top, k.top + k.size)
            && m.stack[k.top] != UNDERFLOW_HANDLER && 0 < FrameSize(m.sizes, m.stack, k.top) <= k.size
            && Linked(m, k.next)
  {
    assert GoodSegment(m, m.konts[id]);
  }

  lemma HeadTaken(m: Mem, id: nat, f: nat, base: nat)
    requires Frozen(m, base) && id < |m.konts| && m.konts[id].Process?
    requires m.konts[id].top + 1 < |m.stack| && f == FrameSize(m.sizes, m.stack, m.konts[id].top) && 0 < f <= m.konts[id].size
    ensures var k := m.konts[id]; var n := if f < k.size then SplitKont(m, id, f) else m;
            && k.top + f < |m.stack| && Whole(m.sizes, m.stack, k.top, k.top + f)
            && Split(m.sizes, m.stack, k.top, k.top + f) == [Frame(m.stack[k.top..k.top + f])]
            && Linked(n, n.konts[id].next)
    ensures var n := if f < m.konts[id].size then SplitKont(m, id, f) else m;
            forall items {:trigger Pends(m, Kont(id), items)} :: Pends(m, Kont(id), items)
              ==> 0 < |items| && items[0] == Frame(m.stack[m.konts[id].top..m.konts[id].top + f]) && Pends(n, n.konts[id].next, items[1..])
  {
    hide Pends, Split, Whole;
    var k := m.konts[id];
    HeadWhole(m, k, f);
    var n := if f < k.size then SplitKont(m, id, f) else m;
    assert f < k.size ==> n.konts[id].next == Kont(|m.konts|);
    forall items | Pends(m, Kont(id), items)
      ensures 0 < |items| && items[0] == Frame(m.stack[k.top..k.top + f]) && Pends(n, n.konts[id].next, items[1..])
    {
      HeadOf(m, id, f, items);
    }
  }

  lemma HeadOf(m: Mem, id: nat, f: nat, items: seq<Item>)
    requires Frozen(m, 0) && id < |m.konts| && m.konts[id].Process? && GoodSegment(m, m.konts[id])
    requires f == FrameSize(m.sizes, m.stack, m.konts[id].top) && 0 < f <= m.konts[id].size && Pends(m, Kont(id), items)
    ensures var k := m.konts[id]; var n := if f < k.size then SplitKont(m, id, f) else m;
            0 < |items| && items[0] == Frame(m.stack[k.top..k.top + f]) && Pends(n, n.konts[id].next, items[1..])
  {
    hide Pends, Split, Whole, Frozen;
    HeadWhole(m, m.konts[id], f);
    if f < m.konts[id].size {
      SplitSegments(m, id, f);
      SplitInvisible(m, id, f, Kont(id), items);
      HeadPends(SplitKont(m, id, f), id, f, items);
    } else {
      HeadPends(m, id, f, items);
    }
  }

  lemma HeadWhole(m: Mem, k: Continuation, f: nat)
    requires k.Process? && GoodSegment(m, k) && f == FrameSize(m.sizes, m.stack, k.top)
    ensures k.top + f < |m.stack| && Whole(m.sizes, m.stack, k.top, k.top + f)
    ensures Split(m.sizes, m.stack, k.top, k.top + f) == [Frame(m.stack[k.top..k.top + f])]
  {
    assert Whole(m.sizes, m.stack, k.top + f, k.top + f);
  }

  lemma HeadPends(n: Mem, id: nat, f: nat, items: seq<Item>)
    requires id < |n.konts| && n.konts[id].Process? && n.konts[id].size == f && GoodSegment(n, n.konts[id])
    requires Split(n.sizes, n.stack, n.konts[id].top, n.konts[id].top + f) == [Frame(n.stack[n.konts[id].top..n.konts[id].top + f])]
    requires Pends(n, Kont(id), items)
    ensures 0 < |items| && items[0] == Frame(n.stack[n.konts[id].top..n.konts[id].top + f]) && Pends(n, n.konts[id].next, items[1..])
  {
    assert items[..1][0] == items[0];
  }

  lemma Reinstated(n: Mem, o: Mem, top: nat, f: nat, base: nat)
    requires n.sizes == o.sizes && n.konts == o.konts && 0 < base && Frozen(n, base) && SameFrom(n.stack, o.stack, base - 1)
    requires 0 < f < base <= top && top + f < |n.stack| && Whole(n.sizes, n.stack, top, top + f)
    requires Split(n.sizes, n.stack, top, top + f) == [Frame(n.stack[top..top + f])]
    requires o.stack[base - 1 - f..base - 1] == n.stack[top..top + f]
    ensures Keeps(n, o) && Frozen(o, base)
    ensures Whole(o.sizes, o.stack, base - 1 - f, base - 1)
    ensures Split(o.sizes, o.stack, base - 1 - f, base - 1) == [Frame(o.stack[base - 1 - f..base - 1])]
  {
    BelowKeeps(n, o, base);
    var lo := base - 1 - f;
    assert forall k {:trigger o.stack[k]} :: lo <= k < base - 1 ==> o.stack[k] == o.stack[lo..base - 1][k - lo] == n.stack[top..top + f][k - lo] == n.stack[top + k - lo];
    assert Whole(o.sizes, o.stack, base - 1, base - 1);
    HeadIs(n.sizes, n.stack, top, f);
    assert FrameSize(o.sizes, o.stack, lo) == f;
  }

  lemma ResumedPends(m: Mem, k: Ref, n: Mem, o: Mem, next: Ref, head: Item)
    requires Keeps(n, o)
    requires forall items {:trigger Pends(m, k, items)} :: Pends(m, k, items) ==> 0 < |items| && items[0] == head && Pends(n, next, items[1..])
    ensures forall items {:trigger Pends(m, k, items)} :: Pends(m, k, items) ==> 0 < |items| && items[0] == head && Pends(o, next, items[1..])
  {
    forall items | Pends(m, k, items) ensures 0 < |items| && items[0] == head && Pends(o, next, items[1..]) {
      KeptPends(n, o, next, items[1..]);
    }
  }

  lemma BaseWord(s: seq<int>, t: seq<int>, base: nat)
    requires SameFrom(s, t, base) && base < |s|
    ensures |s| == |t| && s[base] == t[base]
  {
  }

  /** The size of a single frame. */
  lemma HeadIs(sizes: map<int, nat>, stack: seq<int>, top: nat, f: nat)
    requires 0 < f && top + f < |stack| && Whole(sizes, stack, top, top + f) && Split(sizes, stack, top, top + f) == [Frame(stack[top..top + f])]
    ensures FrameSize(sizes, stack, top) == f && (f == 1 ==> CallTable(sizes, stack[top]) == 1) && stack[top] != UNDERFLOW_HANDLER
  {
    var g := FrameSize(sizes, stack, top);
    assert Split(sizes, stack, top, top + f)[0] == Frame(stack[top..top + g]);
    assert |stack[top..top + g]| == g && |stack[top..top + f]| == f;
  }

  lemma EmptySegment(sizes: map<int, nat>, stack: seq<int>, lo: nat)
    requires lo < |stack|
    ensures Whole(sizes, stack, lo, lo) && Split(sizes, stack, lo, lo) == []
  {
  }

  lemma SameLinks(m: Mem, n: Mem, r: Ref)
    requires m.konts == n.konts && Linked(m, r)
    ensures Linked(n, r)
  {
  }

  lemma NoFrames(m: Mem, r: Ref, rest: seq<Item>)
    requires Pends(m, r, rest)
    ensures Chain(m, r, rest)
  {
    assert OnlyFrames([]) && [] + rest == rest;
  }

  /** The chain after the stack has been sealed. */
  lemma ChainSealed(m: Mem, r: Ref, n: Mem, s: Ref, active: seq<Item>, rest: seq<Item>)
    requires Chain(m, r, rest) && OnlyFrames(active)
    requires forall items {:trigger Pends(m, r, items)} :: Pends(m, r, items) ==> Pends(n, s, active + items)
    ensures Chain(n, s, rest)
  {
    hide Pends, OnlyFrames;
    var fs :| OnlyFrames(fs) && Pends(m, r, fs + rest);
    assert active + (fs + rest) == (active + fs) + rest;
    MoreFrames(active, fs);
  }

  lemma MoreFrames(a: seq<Item>, b: seq<Item>)
    requires OnlyFrames(a) && OnlyFrames(b)
    ensures OnlyFrames(a + b)
  {
  }

  /** What is pending when a C function has been entered: a return to it, and then all that was pending. */
  lemma Entry(m: Mem, r: Ref, n: Mem, id: nat, active: seq<Item>, rest: seq<Item>) returns (bottom: seq<Item>)
    requires Chain(m, r, rest) && id < |n.konts| && n.konts[id].System?
    requires forall items {:trigger Pends(m, r, items)} :: Pends(m, r, items) ==> Pends(n, n.konts[id].next, active + items)
    ensures 0 < |bottom| && bottom[0] == Return(id) && Pends(n, Kont(id), bottom)
  {
    var fs :| OnlyFrames(fs) && Pends(m, r, fs + rest);
    var items := active + (fs + rest);
    bottom := [Return(id)] + items;
    assert bottom[1..] == items;
  }

  /** The system continuation that a C function finds when it leaves is its own, as it made it. */
  lemma ReturnIs(n: Mem, o: Mem, r: Ref, id: nat, bottom: seq<Item>)
    requires Keeps(n, o) && id < |n.konts| && n.konts[id].System?
    requires 0 < |bottom| && bottom[0] == Return(id) && Pends(o, r, bottom)
    ensures r == Kont(id) && o.konts[id] == n.konts[id]
  {
    if o.konts[r.id].Process? { FrameFirst(o, r, bottom); }
  }

  lemma FrameFirst(m: Mem, r: Ref, items: seq<Item>)
    requires Pends(m, r, items) && r.Kont? && m.konts[r.id].Process?
    ensures 0 < |items| && items[0].Frame?
  {
    var k := m.konts[r.id];
    var fs := Split(m.sizes, m.stack, k.top, k.top + k.size);
    assert items[..|fs|][0] == items[0];
  }

  lemma Left(m: Mem, r: Ref, n: Mem, o: Mem, id: nat, active: seq<Item>, rest: seq<Item>)
    requires Keeps(n, o) && id < |n.konts| && OnlyFrames(active) && Chain(m, r, rest)
    requires forall items {:trigger Pends(m, r, items)} :: Pends(m, r, items) ==> Pends(n, n.konts[id].next, active + items)
    ensures Chain(o, n.konts[id].next, rest)
    ensures forall items {:trigger Pends(m, r, items)} :: Pends(m, r, items) ==> Pends(o, n.konts[id].next, active + items)
  {
    var k := n.konts[id].next;
    forall items | Pends(m, r, items) ensures Pends(o, k, active + items) {
      assert Pends(n, k, active + items);
    }
    ChainSealed(m, r, o, k, active, rest);
  }

  /** The chain after its head frame has been resumed. */
  lemma ResumedChain(m: Mem, r: Ref, n: Mem, s: Ref, active: seq<Item>, rest: seq<Item>)
    requires Chain(m, r, rest) && Bottom(rest) && OnlyFrames(active)
    requires forall items {:trigger Pends(m, r, items)} :: Pends(m, r, items) ==> 0 < |items| && active == [items[0]] && Pends(n, s, items[1..])
    ensures Chain(n, s, rest)
  {
    var fs :| OnlyFrames(fs) && Pends(m, r, fs + rest);
    NotPast(fs, rest, active);
    assert (fs + rest)[1..] == fs[1..] + rest;
    assert OnlyFrames(fs[1..]);
  }

  lemma ThrowKeeps(m: Mem, k: Ref, r: Ref, base: nat, rest: seq<Item>)
    requires Frozen(m, base) && Chain(m, r, rest) && Bottom(rest) && SameRun(m.konts, k, r)
    ensures Chain(m, k, rest)
  {
    assert Frozen(m, 0);
    ChainReaches(m, r, |m.konts|, rest);
    FirstSystemChain(m, k, |m.konts|, rest);
  }
}
