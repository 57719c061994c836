/** What compiled code may do, as far as the stack and the continuations are concerned, and what a run of it has to be:
    which words and which frame are found at every entry into compiled code, step by step. */
module ExecLog {
  import opened Frames

  /** A step of compiled code. It may store into its own part of the stack, push and pop whole frames, seal the stack to
      capture a continuation, go back to a captured continuation of the same run, and call C functions that call Scheme
      back. */
  datatype Act =
    | Store(at: nat, word: int)
    | Adjust(pointer: nat)
    | Capture
    | Throw(k: nat)
    | CallC(callbacks: seq<Callback>)

  /** A Scheme function called from C: its arguments, and what happens until it has returned. */
  datatype Callback = Callback(args: seq<int>, turns: seq<Turn>)

  /** What happens between an entry into compiled code and the return to ik_exec_code, with the values that are returned. */
  datatype Turn = Turn(cStack: int, acts: seq<Act>, values: seq<int>)

  /** The fields of the process control block that are about the stack. */
  datatype Config = Config(m: Mem, k: Ref, base: nat, fp: nat, c: int)

  // ---------- What happened ----------

  /** One step; for a call to C also the state in C code, and the runs of the callbacks. */
  datatype StepLog = StepLog(before: Config, inside: Config, calls: seq<RunLog>, after: Config, done: bool)

  datatype TurnLog = TurnLog(enter: Config, steps: seq<StepLog>, leave: Config, done: bool)

  datatype RunLog = RunLog(start: Config, turns: seq<TurnLog>, end: Config, done: bool)

  // ---------- What has to happen ----------

  /** The frames of compiled code that are on the stack. */
  function Active(a: Config): (r: seq<Item>)
    ensures OnlyFrames(r)
  {
    if 0 < a.base <= |a.m.stack| && Whole(a.m.sizes, a.m.stack, a.fp, a.base - 1) then Split(a.m.sizes, a.m.stack, a.fp, a.base - 1) else []
  }

  /** The values are on the stack below the underflow handler, the first one highest, and all else is as it was. */
  ghost predicate Given(a: Config, values: seq<int>, b: Config) {
    && |values| < a.base <= |a.m.stack| && b.base == b.fp == a.base && b.k == a.k && b.c == a.c
    && b.m.sizes == a.m.sizes && b.m.konts == a.m.konts && SameFrom(a.m.stack, b.m.stack, a.base - 1)
    && forall j {:trigger values[j]} :: 0 <= j < |values| ==> b.m.stack[a.base - 2 - j] == values[j]
  }

  /** Compiled code is entered again: its frame is the first of those pending, the values are under it, and what is
      pending is the rest. */
  ghost predicate Resumes(a: Config, values: seq<int>, b: Config) {
    && b.base == a.base <= |b.m.stack| && b.c == a.c && b.fp < b.base && |values| <= b.fp
    && (forall items: seq<Item> {:trigger Pends(a.m, a.k, items)} :: Pends(a.m, a.k, items) ==>
          0 < |items| && items[0] == Frame(b.m.stack[b.fp..b.base - 1]) && Active(b) == [items[0]] && Pends(b.m, b.k, items[1..]))
    && (forall j {:trigger values[j]} :: 0 <= j < |values| ==> b.m.stack[b.fp - 1 - j] == values[j])
  }

  /** There is no room for the first frame and the values under it. */
  ghost predicate NoRoomFor(a: Config, values: seq<int>) {
    forall items: seq<Item> {:trigger Pends(a.m, a.k, items)} :: Pends(a.m, a.k, items) ==>
      0 < |items| && items[0].Frame? && a.base <= |items[0].words| + |values|
  }

  /** The stack is full: there is no word for another underflow handler. */
  predicate Full(a: Config) {
    a.fp == 0 && a.base != 1
  }

  /** All frames are frozen, on top of what was pending. */
  ghost predicate Froze(a: Config, m: Mem, k: Ref) {
    forall items: seq<Item> {:trigger Pends(a.m, a.k, items)} :: Pends(a.m, a.k, items) ==> Pends(m, k, Active(a) + items)
  }

  ghost predicate Captured(a: Config, b: Config) {
    b.fp == b.base - 1 && b.base <= a.base && b.c == a.c && Froze(a, b.m, b.k)
  }

  /** C code runs: the C stack is saved in a system continuation over all that was pending. */
  ghost predicate EnteredC(a: Config, b: Config) {
    && b.fp == b.base - 1 && b.base <= a.base && b.k.Kont? && b.k.id < |b.m.konts|
    && b.m.konts[b.k.id].System? && b.m.konts[b.k.id].systemTop == a.c && Froze(a, b.m, b.m.konts[b.k.id].next)
  }

  /** Back in compiled code, with the C stack from before. */
  ghost predicate LeftC(a: Config, z: Config, b: Config) {
    b.m == z.m && b.base == z.base && b.fp == b.base - 1 && b.c == a.c && Froze(a, b.m, b.k)
  }

  predicate MayStore(a: Config, at: nat, word: int) {
    && 0 < a.base <= |a.m.stack| && at < a.base - 1 && Whole(a.m.sizes, a.m.stack[at := word], a.fp, a.base - 1)
  }

  predicate MayAdjust(a: Config, pointer: nat) {
    pointer < a.base <= |a.m.stack| && Whole(a.m.sizes, a.m.stack, pointer, a.base - 1)
  }

  predicate MayThrow(a: Config, k: nat) {
    k < |a.m.konts| && SameRun(a.m.konts, Kont(k), a.k)
  }

  /** Two continuations of the same run of Scheme code. */
  predicate SameRun(konts: seq<Continuation>, k: Ref, r: Ref) {
    var e := FirstSystem(konts, k, |konts|);
    e.Reaches? && e == FirstSystem(konts, r, |konts|)
  }

  /** A step does what it says; what does not apply is passed over. */
  ghost predicate StepFits(act: Act, s: StepLog)
    decreases act
  {
    var a := s.before;
    match act
    case Store(at, word) => s.done && s.after == if MayStore(a, at, word) then a.(m := a.m.(stack := a.m.stack[at := word])) else a
    case Adjust(pointer) => s.done && s.after == if MayAdjust(a, pointer) then a.(fp := pointer) else a
    case Throw(k) => s.done && s.after == if MayThrow(a, k) then a.(k := Kont(k), fp := if a.base > 0 then a.base - 1 else 0) else a
    case Capture => if Full(a) then !s.done && s.after == a else s.done && Captured(a, s.after)
    case CallC(callbacks) =>
      if Full(a) then !s.done && s.after == a else
        EnteredC(a, s.inside) && CallsFit(callbacks, s.inside, s.calls, s.done)
        && if s.done then LeftC(a, LastEnd(s.inside, s.calls), s.after) else s.after == LastEnd(s.inside, s.calls)
  }

  function LastEnd(a: Config, calls: seq<RunLog>): Config {
    if calls == [] then a else calls[|calls| - 1].end
  }

  /** The callbacks are run one after the other, each with its arguments. */
  ghost predicate CallsFit(callbacks: seq<Callback>, a: Config, calls: seq<RunLog>, done: bool)
    decreases callbacks
  {
    && |calls| <= |callbacks|
    && (forall i {:trigger calls[i]} :: 0 <= i < |calls| ==>
          RunFits(callbacks[i].turns, calls[i]) && Given(LastEnd(a, calls[..i]), callbacks[i].args, calls[i].start))
    && (forall i {:trigger calls[i]} :: 0 <= i < |calls| - 1 ==> calls[i].done)
    && if done then |calls| == |callbacks| && (calls != [] ==> calls[|calls| - 1].done)
       else if calls != [] && !calls[|calls| - 1].done then true
       else |calls| < |callbacks| && LastEnd(a, calls).base <= |callbacks[|calls|].args|
  }

  function LastAfter(a: Config, steps: seq<StepLog>): Config {
    if steps == [] then a else steps[|steps| - 1].after
  }

  ghost predicate StepsFit(acts: seq<Act>, a: Config, steps: seq<StepLog>)
    decreases acts
  {
    && |steps| <= |acts|
    && (forall j {:trigger steps[j]} :: 0 <= j < |steps| ==> StepFits(acts[j], steps[j]) && steps[j].before == LastAfter(a, steps[..j]))
    && (forall j {:trigger steps[j]} :: 0 <= j < |steps| - 1 ==> steps[j].done)
  }

  /** Compiled code takes its steps in their order, and then returns its values. */
  ghost predicate TurnFits(turn: Turn, t: TurnLog)
    decreases turn
  {
    var a := t.enter.(c := turn.cStack);
    var z := LastAfter(a, t.steps);
    && StepsFit(turn.acts, a, t.steps)
    && if t.done then |t.steps| == |turn.acts| && (t.steps != [] ==> t.steps[|t.steps| - 1].done) && Given(z, turn.values, t.leave)
       else t.leave == z &&
            if t.steps != [] && !t.steps[|t.steps| - 1].done then true
            else |t.steps| == |turn.acts| && z.base <= |turn.values|
  }

  /** Whether there is a frame to be resumed. */
  predicate More(a: Config) {
    a.k.Kont? && a.k.id < |a.m.konts| && a.m.konts[a.k.id].Process?
  }

  /** Compiled code is entered with nothing of its own on the stack, and after every turn the first pending frame is
      resumed with the values of that turn. */
  ghost predicate RunsTo(turns: seq<Turn>, start: Config, ts: seq<TurnLog>)
    decreases turns, 0
  {
    && |ts| <= |turns|
    && (forall i {:trigger ts[i]} :: 0 <= i < |ts| ==> TurnFits(turns[i], ts[i]))
    && (forall i {:trigger ts[i]} :: 0 <= i < |ts| - 1 ==> ts[i].done && More(ts[i].leave))
    && (ts != [] ==> start.base > 0 && ts[0].enter == start.(fp := start.base - 1))
    && (forall i {:trigger ts[i]} :: 0 < i < |ts| ==> Resumes(ts[i - 1].leave, turns[i - 1].values, ts[i].enter))
  }

  /** A run is done when there is no frame to be resumed after a turn. */
  ghost predicate RunFits(turns: seq<Turn>, r: RunLog)
    decreases turns, 1
  {
    && RunsTo(turns, r.start, r.turns)
    && if r.done then r.turns != [] && r.turns[|r.turns| - 1].done && r.end == r.turns[|r.turns| - 1].leave && !More(r.end)
       else Halts(turns, r.turns)
  }

  /** A run that is not done: the stack was full, or the script is over. */
  ghost predicate Halts(turns: seq<Turn>, ts: seq<TurnLog>)
    requires |ts| <= |turns|
  {
    var n := |ts|;
    if n == 0 then turns == []
    else if !ts[n - 1].done then true
    else More(ts[n - 1].leave) && (n == |turns| || NoRoomFor(ts[n - 1].leave, turns[n - 1].values))
  }

  /** One callback: its arguments and its run, or nothing if there is no room for the arguments. */
  ghost predicate CallFits(callback: Callback, a: Config, logs: seq<RunLog>, z: Config, done: bool) {
    if logs == [] then !done && z == a && a.base <= |callback.args| else
      && |logs| == 1 && RunFits(callback.turns, logs[0]) && Given(a, callback.args, logs[0].start)
      && logs[0].end == z && logs[0].done == done
  }

  // ---------- Putting logs together ----------

  lemma NoSteps(acts: seq<Act>, a: Config)
    ensures StepsFit(acts, a, [])
  {
  }

  lemma NextStep(acts: seq<Act>, a: Config, steps: seq<StepLog>, step: StepLog)
    requires StepsFit(acts, a, steps) && |steps| < |acts| && (steps != [] ==> steps[|steps| - 1].done)
    requires StepFits(acts[|steps|], step) && step.before == LastAfter(a, steps)
    ensures StepsFit(acts, a, steps + [step]) && LastAfter(a, steps + [step]) == step.after
  {
    hide StepFits;
    var all := steps + [step];
    forall j {:trigger all[j]} | 0 <= j < |all| ensures StepFits(acts[j], all[j]) && all[j].before == LastAfter(a, all[..j]) {
      assert all[..j] == steps[..j];
      assert steps[..|steps|] == steps;
    }
  }

  lemma NoCalls(callbacks: seq<Callback>, a: Config)
    ensures CallsFit(callbacks[..0], a, [], true)
  {
  }

  /** What CallsFit asks of the calls so far. */
  ghost predicate CallsSoFar(callbacks: seq<Callback>, a: Config, calls: seq<RunLog>) {
    && |calls| <= |callbacks|
    && (forall i {:trigger calls[i]} :: 0 <= i < |calls| ==>
          RunFits(callbacks[i].turns, calls[i]) && Given(LastEnd(a, calls[..i]), callbacks[i].args, calls[i].start))
  }

  lemma CallsAre(callbacks: seq<Callback>, a: Config, calls: seq<RunLog>, done: bool)
    ensures CallsFit(callbacks, a, calls, done) <==>
              && CallsSoFar(callbacks, a, calls)
              && (forall i {:trigger calls[i]} :: 0 <= i < |calls| - 1 ==> calls[i].done)
              && if done then |calls| == |callbacks| && (calls != [] ==> calls[|calls| - 1].done)
                 else if calls != [] && !calls[|calls| - 1].done then true
                 else |calls| < |callbacks| && LastEnd(a, calls).base <= |callbacks[|calls|].args|
  {
    hide RunFits, Given;
  }

  lemma MoreCalls(callbacks: seq<Callback>, cs: seq<Callback>, a: Config, calls: seq<RunLog>, log: RunLog)
    requires |calls| < |cs| <= |callbacks| && cs <= callbacks && CallsSoFar(callbacks[..|calls|], a, calls)
    requires RunFits(callbacks[|calls|].turns, log) && Given(LastEnd(a, calls), callbacks[|calls|].args, log.start)
    ensures CallsSoFar(cs, a, calls + [log])
  {
    hide RunFits, Given, LastEnd;
    var all := calls + [log];
    forall i {:trigger all[i]} | 0 <= i < |all|
      ensures RunFits(cs[i].turns, all[i]) && Given(LastEnd(a, all[..i]), cs[i].args, all[i].start)
    {
      assert all[..i] == calls[..i];
      assert calls[..|calls|] == calls;
      if i < |calls| { assert callbacks[..|calls|][i] == callbacks[i] && all[i] == calls[i]; }
    }
  }

  lemma SameCalls(callbacks: seq<Callback>, a: Config, calls: seq<RunLog>)
    requires |calls| <= |callbacks| && CallsSoFar(callbacks[..|calls|], a, calls)
    ensures CallsSoFar(callbacks, a, calls)
  {
    hide RunFits, Given, LastEnd;
    forall i {:trigger calls[i]} | 0 <= i < |calls|
      ensures RunFits(callbacks[i].turns, calls[i]) && Given(LastEnd(a, calls[..i]), callbacks[i].args, calls[i].start)
    {
      assert callbacks[..|calls|][i] == callbacks[i];
    }
  }

  lemma NextCall(callbacks: seq<Callback>, a: Config, calls: seq<RunLog>, logs: seq<RunLog>, z: Config, done: bool)
    requires |calls| < |callbacks| && CallsFit(callbacks[..|calls|], a, calls, true)
    requires CallFits(callbacks[|calls|], LastEnd(a, calls), logs, z, done)
    ensures LastEnd(a, calls + logs) == z
    ensures if done then |logs| == 1 && CallsFit(callbacks[..|calls| + 1], a, calls + logs, true) else CallsFit(callbacks, a, calls + logs, false)
  {
    hide RunFits, Given, CallsFit, CallsSoFar;
    var cs := if done then callbacks[..|calls| + 1] else callbacks;
    CallsAre(callbacks[..|calls|], a, calls, true);
    CallsAre(cs, a, calls + logs, done);
    if logs == [] {
      assert calls + logs == calls;
      SameCalls(callbacks, a, calls);
    } else {
      assert logs == [logs[0]];
      MoreCalls(callbacks, cs, a, calls, logs[0]);
    }
  }

  lemma NoTurns(start: Config, end: Config)
    ensures RunFits([], RunLog(start, [], end, false))
  {
  }

  lemma FirstTurn(turns: seq<Turn>, start: Config, t: TurnLog)
    requires turns != [] && TurnFits(turns[0], t) && start.base > 0 && t.enter == start.(fp := start.base - 1)
    ensures RunsTo(turns, start, [t])
  {
    hide TurnFits;
  }

  lemma NextTurn(turns: seq<Turn>, start: Config, ts: seq<TurnLog>, t: TurnLog)
    requires RunsTo(turns, start, ts) && 0 < |ts| < |turns| && ts[|ts| - 1].done && More(ts[|ts| - 1].leave)
    requires TurnFits(turns[|ts|], t) && Resumes(ts[|ts| - 1].leave, turns[|ts| - 1].values, t.enter)
    ensures RunsTo(turns, start, ts + [t])
  {
    hide TurnFits, Resumes, More;
    var all := ts + [t];
    forall i {:trigger all[i]} | 0 <= i < |all| ensures TurnFits(turns[i], all[i]) { assert i < |ts| ==> all[i] == ts[i]; }
    forall i {:trigger all[i]} | 0 <= i < |all| - 1 ensures all[i].done && More(all[i].leave) { assert all[i] == ts[i]; }
    forall i {:trigger all[i]} | 0 < i < |all| ensures Resumes(all[i - 1].leave, turns[i - 1].values, all[i].enter) {
      assert all[i - 1] == ts[i - 1] && (i < |ts| ==> all[i] == ts[i]);
    }
  }

  // ---------- What a run says ----------

  /** The values of a turn are found, in their order, right under the frame that is resumed next. */
  lemma ValuesArrive(turns: seq<Turn>, start: Config, ts: seq<TurnLog>, i: nat, j: nat)
    requires RunsTo(turns, start, ts) && i + 1 < |ts| && j < |turns[i].values|
    ensures var e := ts[i + 1].enter; j < e.fp < e.base <= |e.m.stack| && e.m.stack[e.fp - 1 - j] == turns[i].values[j]
  {
    hide TurnFits, More, Active, Pends;
    assert ts[i + 1] == ts[i + 1];
  }

  /** And that frame is the first one of what was pending after the turn. */
  lemma FrameArrives(turns: seq<Turn>, start: Config, ts: seq<TurnLog>, i: nat, items: seq<Item>)
    requires RunsTo(turns, start, ts) && i + 1 < |ts| && Pends(ts[i].leave.m, ts[i].leave.k, items)
    ensures var e := ts[i + 1].enter;
            0 < |items| && e.fp < e.base <= |e.m.stack| && items[0] == Frame(e.m.stack[e.fp..e.base - 1]) && Pends(e.m, e.k, items[1..])
  {
    hide TurnFits, Pends, More, Active;
    assert ts[i + 1] == ts[i + 1];
  }

  /** The arguments of a callback are found at its first entry into compiled code. */
  lemma ArgumentsArrive(callback: Callback, a: Config, log: RunLog, z: Config, done: bool, j: nat)
    requires CallFits(callback, a, [log], z, done) && log.turns != [] && j < |callback.args|
    ensures var e := log.turns[0].enter;
            j + 2 <= e.base == a.base <= |e.m.stack| && e.fp == e.base - 1 && e.m.stack[e.base - 2 - j] == callback.args[j]
  {
    hide TurnFits, Halts, Resumes, More;
    assert [log][0] == log && RunFits(callback.turns, log);
    assert RunsTo(callback.turns, log.start, log.turns);
    assert callback.args[j] == callback.args[j];
  }

  /** The values of the last turn. */
  function Results(turns: seq<Turn>, r: RunLog): seq<int> {
    if 0 < |r.turns| <= |turns| then turns[|r.turns| - 1].values else []
  }

  lemma TurnGives(turn: Turn, t: TurnLog, j: nat)
    requires TurnFits(turn, t) && t.done && j < |turn.values|
    ensures j + 2 <= t.leave.base <= |t.leave.m.stack| && t.leave.m.stack[t.leave.base - 2 - j] == turn.values[j]
  {
    hide StepsFit;
    assert turn.values[j] == turn.values[j];
  }

  /** The last turn of a run that is done. */
  lemma LastTurn(turns: seq<Turn>, r: RunLog)
    requires RunFits(turns, r) && r.done
    ensures var n := |r.turns| - 1; 0 <= n < |turns| && TurnFits(turns[n], r.turns[n]) && r.turns[n].done && r.end == r.turns[n].leave
  {
    hide TurnFits, Resumes, More, Halts;
    assert RunsTo(turns, r.start, r.turns);
  }

  /** When the run is done the values of the last turn are on the stack. */
  lemma ResultsStay(turns: seq<Turn>, r: RunLog, j: nat)
    requires RunFits(turns, r) && r.done && j < |Results(turns, r)|
    ensures j + 2 <= r.end.base <= |r.end.m.stack| && r.end.m.stack[r.end.base - 2 - j] == Results(turns, r)[j]
  {
    hide TurnFits, RunFits;
    LastTurn(turns, r);
    TurnGives(turns[|r.turns| - 1], r.turns[|r.turns| - 1], j);
  }
}
