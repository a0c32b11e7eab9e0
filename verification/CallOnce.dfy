/** The once-only call of a type initialiser, as interleaved atomic steps of any number of threads, under
    sequential consistency (section II.10.5.3 of ECMA-335). */
module CallOnce {

  /** Where a thread stands in il2cpp_CallOnce. */
  datatype PC = Start      // about to test onceFlag != 2
              | Cas        // about to swap onceFlag from 0 to 1
              | SetTid     // has swapped; about to store its id in lockTid
              | Invoke     // about to call invokeFunc
              | Invoking   // in invokeFunc, which may call again
              | Finish     // invokeFunc has returned; about to swap onceFlag from 1 to 2
              | CheckTid   // about to compare lockTid with its id
              | Spin       // waits until onceFlag is 2
              | CheckFlag  // about to test onceFlag != 1

  type Tid = nat

  /** The shared variables, the calls of each thread with the innermost last, how often invokeFunc has been
      called and has returned, and whether the unreachable branch has been taken. */
  datatype State = State(flag: nat, lockTid: Tid, calls: map<Tid, seq<PC>>, begun: nat, ended: nat, trapped: bool)

  function Calls(s: State, t: Tid): seq<PC> {
    if t in s.calls then s.calls[t] else []
  }

  /** What a step does, seen from outside. */
  datatype Event = Called | Began | Ended | Returned | Internal

  function Init(lockTid: Tid): State {
    State(0, lockTid, map[], 0, 0, false)
  }

  /** The innermost call of t goes on at pc. */
  function Goto(s: State, t: Tid, pc: PC): State {
    var c := Calls(s, t);
    if c == [] then s else s.(calls := s.calls[t := c[..|c| - 1] + [pc]])
  }

  function Return(s: State, t: Tid): State {
    var c := Calls(s, t);
    if c == [] then s else s.(calls := s.calls[t := c[..|c| - 1]])
  }

  function Call(s: State, t: Tid): State {
    s.(calls := s.calls[t := Calls(s, t) + [Start]])
  }

  /** One atomic step of thread t. A thread outside of all calls calls; one in invokeFunc calls again if enter is
      true, and returns from invokeFunc otherwise. */
  function Step(s: State, t: Tid, enter: bool): (State, Event) {
    var c := Calls(s, t);
    if c == [] then (Call(s, t), Called) else
    match c[|c| - 1]
    case Start => if s.flag != 2 then (Goto(s, t, Cas), Internal) else (Return(s, t), Returned)
    case Cas =>
      if s.flag == 0 then (Goto(s.(flag := 1), t, SetTid), Internal) else (Goto(s, t, CheckTid), Internal)
    case SetTid => (Goto(s.(lockTid := t), t, Invoke), Internal)
    case Invoke => (Goto(s.(begun := s.begun + 1), t, Invoking), Began)
    case Invoking =>
      if enter then (Call(s, t), Called) else (Goto(s.(ended := s.ended + 1), t, Finish), Ended)
    case Finish => (Return(s.(flag := if s.flag == 1 then 2 else s.flag), t), Returned)
    case CheckTid => (Goto(s, t, if s.lockTid != t then Spin else CheckFlag), Internal)
    case Spin => if s.flag != 2 then (s, Internal) else (Return(s, t), Returned)
    case CheckFlag => (Return(s.(trapped := s.trapped || s.flag != 1), t), Returned)
  }

  /** A move: which thread steps, and how it chooses. */
  datatype Move = Move(t: Tid, enter: bool)

  /** The state after an interleaving. */
  function After(s: State, moves: seq<Move>): State
    decreases |moves|
  {
    if moves == [] then s else After(Step(s, moves[0].t, moves[0].enter).0, moves[1..])
  }

  // ----- the invariant -----

  /** Calls of a thread that does not run the function: at most one, not past a successful swap. */
  predicate Waiting(c: seq<PC>) {
    |c| <= 1 && (c != [] ==> c[0] in {Start, Cas, CheckTid, Spin})
  }

  /** The same before any swap. */
  predicate Arriving(c: seq<PC>) {
    |c| <= 1 && (c != [] ==> c[0] in {Start, Cas})
  }

  /** Calls of the thread that runs the function: the outermost runs it; a nested one passes through. */
  predicate Runs(c: seq<PC>) {
    || (|c| == 1 && c[0] in {SetTid, Invoke, Invoking, Finish})
    || (|c| == 2 && c[0] == Invoking && c[1] in {Start, Cas, CheckTid, CheckFlag})
  }

  /** The states that can be reached when no thread's id is the initial value of lockTid. */
  ghost predicate Inv(s: State, initial: Tid) {
    && !s.trapped && Calls(s, initial) == []
    && match s.flag
       case 0 => s.lockTid == initial && s.begun == 0 == s.ended && forall t :: Arriving(Calls(s, t))
       case 1 => exists r :: RunningOne(s, initial, r)
       case 2 =>
         && s.begun == 1 == s.ended && s.lockTid != initial && (forall t :: Waiting(Calls(s, t)))
         && (Calls(s, s.lockTid) == [] || Calls(s, s.lockTid) == [Start])
       case _ => false
  }

  /** Thread r runs the function. */
  ghost predicate RunningOne(s: State, initial: Tid, r: Tid) {
    && Runs(Calls(s, r)) && (forall t :: t != r ==> Waiting(Calls(s, t)))
    && (if Calls(s, r) == [SetTid] then s.lockTid == initial else s.lockTid == r)
    && s.begun == (if Calls(s, r)[0] in {SetTid, Invoke} then 0 else 1)
    && s.ended == (if Calls(s, r)[0] == Finish then 1 else 0)
  }

  lemma InitInv(initial: Tid)
    ensures Inv(Init(initial), initial)
  {
    assert forall t :: Calls(Init(initial), t) == [];
  }

  lemma StepInv(s: State, initial: Tid, t: Tid, enter: bool)
    requires Inv(s, initial) && t != initial
    ensures Inv(Step(s, t, enter).0, initial)
  {
    CallsMove(s, t, enter);
    if s.flag == 0 {
      StepFrom0(s, initial, t, enter);
    } else if s.flag == 1 {
      var r :| RunningOne(s, initial, r);
      StepFrom1(s, initial, t, enter, r);
    } else {
      StepFrom2(s, initial, t, enter);
    }
  }

  /** The calls of t after its step. */
  function CallsAfter(s: State, t: Tid, enter: bool): seq<PC> {
    var c := Calls(s, t);
    if c == [] then [Start] else
    var outer, pc := c[..|c| - 1], c[|c| - 1];
    match pc
    case Start => if s.flag != 2 then outer + [Cas] else outer
    case Cas => if s.flag == 0 then outer + [SetTid] else outer + [CheckTid]
    case SetTid => outer + [Invoke]
    case Invoke => outer + [Invoking]
    case Invoking => if enter then c + [Start] else outer + [Finish]
    case Finish => outer
    case CheckTid => outer + [if s.lockTid != t then Spin else CheckFlag]
    case Spin => if s.flag != 2 then c else outer
    case CheckFlag => outer
  }

  /** A step of t changes the calls of t only. */
  lemma CallsMove(s: State, t: Tid, enter: bool)
    ensures Calls(Step(s, t, enter).0, t) == CallsAfter(s, t, enter)
    ensures forall u :: u != t ==> Calls(Step(s, t, enter).0, u) == Calls(s, u)
  {
    hide Goto, Return, Call;
    var c := Calls(s, t);
    CallCalls(s, t);
    ReturnCalls(s, t);
    if c != [] {
      match c[|c| - 1]
      case Start => GotoCalls(s, t, Cas);
      case Cas => GotoCalls(s, t, CheckTid); GotoCalls(s.(flag := 1), t, SetTid);
      case SetTid => GotoCalls(s.(lockTid := t), t, Invoke);
      case Invoke => GotoCalls(s.(begun := s.begun + 1), t, Invoking);
      case Invoking => GotoCalls(s.(ended := s.ended + 1), t, Finish);
      case Finish => ReturnCalls(s.(flag := if s.flag == 1 then 2 else s.flag), t);
      case CheckTid => GotoCalls(s, t, if s.lockTid != t then Spin else CheckFlag);
      case Spin =>
      case CheckFlag => ReturnCalls(s.(trapped := s.trapped || s.flag != 1), t);
    }
  }

  lemma GotoCalls(s: State, t: Tid, pc: PC)
    requires Calls(s, t) != []
    ensures Calls(Goto(s, t, pc), t) == Calls(s, t)[..|Calls(s, t)| - 1] + [pc]
    ensures forall u :: u != t ==> Calls(Goto(s, t, pc), u) == Calls(s, u)
  {
  }

  lemma ReturnCalls(s: State, t: Tid)
    ensures Calls(s, t) != [] ==> Calls(Return(s, t), t) == Calls(s, t)[..|Calls(s, t)| - 1]
    ensures forall u :: u != t ==> Calls(Return(s, t), u) == Calls(s, u)
  {
  }

  lemma CallCalls(s: State, t: Tid)
    ensures Calls(Call(s, t), t) == Calls(s, t) + [Start]
    ensures forall u :: u != t ==> Calls(Call(s, t), u) == Calls(s, u)
  {
  }

  lemma StepFrom0(s: State, initial: Tid, t: Tid, enter: bool)
    requires Inv(s, initial) && t != initial && s.flag == 0 && Calls(Step(s, t, enter).0, t) == CallsAfter(s, t, enter)
    requires forall u :: u != t ==> Calls(Step(s, t, enter).0, u) == Calls(s, u)
    ensures Inv(Step(s, t, enter).0, initial)
  {
    hide Calls;
    var s' := Step(s, t, enter).0;
    assert Arriving(Calls(s, t));
    if s'.flag == 1 {
      assert RunningOne(s', initial, t);
    }
  }

  lemma StepFrom1(s: State, initial: Tid, t: Tid, enter: bool, r: Tid)
    requires !s.trapped && Calls(s, initial) == [] && RunningOne(s, initial, r) && t != initial && s.flag == 1
    requires Calls(Step(s, t, enter).0, t) == CallsAfter(s, t, enter)
    requires forall u :: u != t ==> Calls(Step(s, t, enter).0, u) == Calls(s, u)
    ensures Inv(Step(s, t, enter).0, initial)
  {
    hide Calls;
    var s' := Step(s, t, enter).0;
    if t == r {
      if s'.flag == 1 {
        assert RunningOne(s', initial, r);
      }
    } else {
      assert Waiting(Calls(s, t)) && Waiting(Calls(s', t));
      assert RunningOne(s', initial, r);
    }
  }

  lemma StepFrom2(s: State, initial: Tid, t: Tid, enter: bool)
    requires Inv(s, initial) && t != initial && s.flag == 2 && Calls(Step(s, t, enter).0, t) == CallsAfter(s, t, enter)
    requires forall u :: u != t ==> Calls(Step(s, t, enter).0, u) == Calls(s, u)
    ensures Inv(Step(s, t, enter).0, initial)
  {
    hide Calls;
    assert Waiting(Calls(s, t)) && Waiting(CallsAfter(s, t, enter));
  }

  // ----- every interleaving -----

  lemma {:induction false} AfterInv(s: State, initial: Tid, moves: seq<Move>)
    requires Inv(s, initial) && forall m :: m in moves ==> m.t != initial
    ensures Inv(After(s, moves), initial)
    decreases |moves|
  {
    if moves != [] {
      StepInv(s, initial, moves[0].t, moves[0].enter);
      AfterInv(Step(s, moves[0].t, moves[0].enter).0, initial, moves[1..]);
    }
  }

  /** In every interleaving the function is called at most once, the flag is 2 exactly when it has returned and
      that has been published, and the unreachable branch is never taken. */
  lemma CalledOnce(initial: Tid, moves: seq<Move>)
    requires forall m :: m in moves ==> m.t != initial
    ensures var s := After(Init(initial), moves);
      s.ended <= s.begun <= 1 && !s.trapped && s.flag <= 2 && (s.flag == 2 ==> s.ended == 1)
  {
    InitInv(initial);
    AfterInv(Init(initial), initial, moves);
  }

  /** A call returns only when the function has been called once and has returned, or to the thread that runs it. */
  lemma ReturnsLate(initial: Tid, moves: seq<Move>, t: Tid, enter: bool)
    requires t != initial && forall m :: m in moves ==> m.t != initial
    ensures var s := After(Init(initial), moves); var (s', e) := Step(s, t, enter);
      e == Returned ==>
        (s'.flag == 2 && s'.begun == 1 == s'.ended) || (|Calls(s', t)| == 1 && Calls(s', t)[0] == Invoking)
  {
    hide Inv, Calls, Step;
    InitInv(initial);
    AfterInv(Init(initial), initial, moves);
    if Step(After(Init(initial), moves), t, enter).1 == Returned {
      ReturnsLateAt(After(Init(initial), moves), initial, t, enter);
    }
  }

  lemma ReturnsLateAt(s: State, initial: Tid, t: Tid, enter: bool)
    requires Inv(s, initial) && t != initial && Step(s, t, enter).1 == Returned
    ensures var s' := Step(s, t, enter).0;
      (s'.flag == 2 && s'.begun == 1 == s'.ended) || (|Calls(s', t)| == 1 && Calls(s', t)[0] == Invoking)
  {
    hide Calls;
    CallsMove(s, t, enter);
    assert s.flag != 1 ==> Waiting(Calls(s, t));
    if s.flag == 1 {
      var r :| RunningOne(s, initial, r);
      assert t != r ==> Waiting(Calls(s, t));
    }
  }

  /** While one thread runs the function, no other thread returns from a call. */
  lemma OthersWait(initial: Tid, moves: seq<Move>, t: Tid, u: Tid, enter: bool)
    requires t != initial && u != t && forall m :: m in moves ==> m.t != initial
    requires Invoking in Calls(After(Init(initial), moves), u)
    ensures Step(After(Init(initial), moves), t, enter).1 != Returned
  {
    hide Inv, Calls, Step;
    InitInv(initial);
    AfterInv(Init(initial), initial, moves);
    OtherWaits(After(Init(initial), moves), initial, t, u, enter);
  }

  lemma OtherWaits(s: State, initial: Tid, t: Tid, u: Tid, enter: bool)
    requires Inv(s, initial) && u != t && Invoking in Calls(s, u)
    ensures Step(s, t, enter).1 != Returned
  {
    hide Calls;
    assert !Waiting(Calls(s, u));
    var r :| RunningOne(s, initial, r);
    assert Waiting(Calls(s, t));
  }

  /** The number of steps a call needs at most once the flag is 2. */
  function Distance(pc: PC): nat {
    match pc
    case Cas => 3
    case CheckTid => 2
    case _ => 1
  }

  /** Once the flag is 2 it stays 2, and each step of a thread brings its call closer to its return. */
  lemma WaitersLeave(initial: Tid, moves: seq<Move>, t: Tid, enter: bool)
    requires t != initial && (forall m :: m in moves ==> m.t != initial) && After(Init(initial), moves).flag == 2
    ensures var s := After(Init(initial), moves); var (s', e) := Step(s, t, enter);
      s'.flag == 2 && |Calls(s, t)| <= 1
        && (Calls(s, t) != [] && e != Returned ==>
          |Calls(s', t)| == 1 && Distance(Calls(s', t)[0]) < Distance(Calls(s, t)[0]))
  {
    hide Inv, Calls, Step, Waiting;
    InitInv(initial);
    AfterInv(Init(initial), initial, moves);
    WaiterMoves(After(Init(initial), moves), initial, t, enter);
  }

  lemma WaiterMoves(s: State, initial: Tid, t: Tid, enter: bool)
    requires Inv(s, initial) && t != initial && s.flag == 2
    ensures var (s', e) := Step(s, t, enter);
      s'.flag == 2 && |Calls(s, t)| <= 1
        && (Calls(s, t) != [] && e != Returned ==>
          |Calls(s', t)| == 1 && Distance(Calls(s', t)[0]) < Distance(Calls(s, t)[0]))
  {
    hide Calls;
    CallsMove(s, t, enter);
    assert Waiting(Calls(s, t));
  }

  // ----- progress -----

  /** n steps of thread t alone, without a nested call. */
  function Alone(t: Tid, n: nat): seq<Move> {
    if n == 0 then [] else [Move(t, false)] + Alone(t, n - 1)
  }

  lemma {:induction false} AfterBoth(s: State, xs: seq<Move>, ys: seq<Move>)
    ensures After(s, xs + ys) == After(After(s, xs), ys)
    decreases |xs|
  {
    if xs == [] {
      assert xs + ys == ys;
    } else {
      assert (xs + ys)[1..] == xs[1..] + ys;
      AfterBoth(Step(s, xs[0].t, xs[0].enter).0, xs[1..], ys);
    }
  }

  /** The number of steps a thread needs alone to return from all its calls: of one that goes first, of one that
      runs the function, and of one that comes when it has returned. */
  function Left(s: State, t: Tid): nat {
    var c := Calls(s, t);
    if c == [] then 0 else
    match c[|c| - 1]
    case Start => if s.flag == 2 then 1 else 6
    case Cas => if s.flag == 2 then 3 else 5
    case SetTid => 4
    case Invoke => 3
    case Invoking => 2
    case Finish => 1
    case CheckTid => if s.flag == 2 then 2 else 4
    case CheckFlag => if s.flag == 2 then 1 else 3
    case Spin => 1
  }

  /** A thread that need not wait for another. */
  predicate Unhindered(s: State, t: Tid) {
    s.flag == 1 ==> Runs(Calls(s, t))
  }

  lemma StepNearer(s: State, initial: Tid, t: Tid)
    requires Inv(s, initial) && t != initial && Calls(s, t) != [] && Unhindered(s, t)
    ensures var s' := Step(s, t, false).0;
      Inv(s', initial) && Left(s', t) == Left(s, t) - 1 && (Calls(s', t) == [] <==> Left(s', t) == 0)
      && (if Calls(s', t) == [] then s'.flag == 2 else Unhindered(s', t))
  {
    hide Inv, Calls;
    StepInv(s, initial, t, false);
    CallsMove(s, t, false);
    UnhinderedAt(s, initial, t);
  }

  lemma UnhinderedAt(s: State, initial: Tid, t: Tid)
    requires Inv(s, initial) && Unhindered(s, t)
    ensures s.flag <= 2
    ensures
      match s.flag
      case 0 => Arriving(Calls(s, t))
      case 1 => Runs(Calls(s, t)) && (|Calls(s, t)| == 2 ==> s.lockTid == t)
      case _ => Waiting(Calls(s, t)) && (s.lockTid == t ==> Calls(s, t) in {[], [Start]})
  {
    hide Calls;
    if s.flag == 1 {
      var r :| RunningOne(s, initial, r);
      assert t != r ==> Waiting(Calls(s, t));
    }
  }

  /** So it returns after that many steps, and the function has been called once and has returned. */
  lemma {:induction false} RunsOut(s: State, initial: Tid, t: Tid)
    requires Inv(s, initial) && t != initial && Calls(s, t) != [] && Unhindered(s, t)
    ensures var s' := After(s, Alone(t, Left(s, t)));
      Inv(s', initial) && s'.flag == 2 && Calls(s', t) == [] && forall u :: u != t ==> Calls(s', u) == Calls(s, u)
    decreases Left(s, t)
  {
    hide Inv, Calls, Step, Left, Unhindered;
    StepNearer(s, initial, t);
    CallsMove(s, t, false);
    AloneNext(s, t, Left(s, t));
    var s1 := Step(s, t, false).0;
    if Calls(s1, t) != [] {
      RunsOut(s1, initial, t);
    }
  }

  lemma AloneNext(s: State, t: Tid, n: nat)
    requires 1 <= n
    ensures After(s, Alone(t, n)) == After(Step(s, t, false).0, Alone(t, n - 1))
    ensures After(s, Alone(t, 0)) == s
  {
    hide Step;
    assert Alone(t, n)[1..] == Alone(t, n - 1);
  }

  /** As long as nobody has begun, any thread that has called can run the function: alone it returns after at most 6
      steps, and the function has been called exactly once. */
  lemma FirstRuns(initial: Tid, moves: seq<Move>, t: Tid)
    requires forall m :: m in moves ==> m.t != initial
    requires After(Init(initial), moves).flag == 0 && Calls(After(Init(initial), moves), t) != []
    ensures var c := Calls(After(Init(initial), moves), t);
      (c == [Start] || c == [Cas])
      && var s' := After(Init(initial), moves + Alone(t, if c == [Start] then 6 else 5));
      s'.flag == 2 && s'.begun == 1 == s'.ended && Calls(s', t) == []
  {
    hide Inv, Calls, Step, After, Alone;
    var s := After(Init(initial), moves);
    InitInv(initial);
    AfterInv(Init(initial), initial, moves);
    AfterBoth(Init(initial), moves, Alone(t, Left(s, t)));
    OpenIsNot(s, initial, t);
    UnhinderedAt(s, initial, t);
    RunsOut(s, initial, t);
    Done(After(s, Alone(t, Left(s, t))), initial);
  }

  lemma OpenIsNot(s: State, initial: Tid, t: Tid)
    requires Inv(s, initial) && Calls(s, t) != []
    ensures t != initial
  {
  }

  lemma Done(s: State, initial: Tid)
    requires Inv(s, initial)
    ensures s.flag == 2 ==> s.begun == 1 == s.ended && forall t :: Waiting(Calls(s, t))
    ensures s.flag == 1 ==> exists r :: Calls(s, r) != [] && Runs(Calls(s, r))
  {
    hide Calls;
  }

  /** When some thread has begun, there is one that alone brings the flag to 2 within 6 steps. */
  lemma RunnerEnds(initial: Tid, moves: seq<Move>) returns (r: Tid, n: nat)
    requires (forall m :: m in moves ==> m.t != initial) && After(Init(initial), moves).flag == 1
    ensures r != initial && n <= 6 && Runs(Calls(After(Init(initial), moves), r))
    ensures var s, s' := After(Init(initial), moves), After(Init(initial), moves + Alone(r, n));
      s'.flag == 2 && s'.begun == 1 == s'.ended && Calls(s', r) == []
      && forall u :: u != r ==> Calls(s', u) == Calls(s, u)
  {
    hide Inv, Calls, Step, After, Alone, Runs;
    var s := After(Init(initial), moves);
    InitInv(initial);
    AfterInv(Init(initial), initial, moves);
    Done(s, initial);
    r :| Calls(s, r) != [] && Runs(Calls(s, r));
    n := Left(s, r);
    OpenIsNot(s, initial, r);
    AfterBoth(Init(initial), moves, Alone(r, n));
    RunsOut(s, initial, r);
    Done(After(s, Alone(r, n)), initial);
  }

  lemma {:induction false} AloneMoves(t: Tid, n: nat)
    ensures |Alone(t, n)| == n && forall m :: m in Alone(t, n) ==> m == Move(t, false)
  {
    if n != 0 {
      AloneMoves(t, n - 1);
    }
  }

  /** Nobody waits for ever: from every state that can be reached, any open call can be brought to its return by at
      most 12 more steps, after which the function has been called exactly once. */
  lemma CallsReturn(initial: Tid, moves: seq<Move>, t: Tid) returns (more: seq<Move>)
    requires forall m :: m in moves ==> m.t != initial
    requires Calls(After(Init(initial), moves), t) != []
    ensures |more| <= 12 && forall m :: m in more ==> m.t != initial && !m.enter
    ensures var s' := After(Init(initial), moves + more);
      s'.flag == 2 && s'.begun == 1 == s'.ended && Calls(s', t) == []
  {
    hide Inv, Calls, Step, After, Alone, Runs;
    var s := After(Init(initial), moves);
    InitInv(initial);
    AfterInv(Init(initial), initial, moves);
    OpenIsNot(s, initial, t);
    if Unhindered(s, t) {
      more := ReturnsAlone(initial, moves, t);
    } else {
      var r, n := RunnerEnds(initial, moves);
      AloneMoves(r, n);
      var ys := ReturnsAlone(initial, moves + Alone(r, n), t);
      more := Alone(r, n) + ys;
      assert moves + more == moves + Alone(r, n) + ys;
    }
  }

  lemma ReturnsAlone(initial: Tid, moves: seq<Move>, t: Tid) returns (more: seq<Move>)
    requires forall m :: m in moves ==> m.t != initial
    requires var s := After(Init(initial), moves); Calls(s, t) != [] && Unhindered(s, t)
    ensures |more| <= 6 && t != initial && forall m :: m in more ==> m == Move(t, false)
    ensures var s' := After(Init(initial), moves + more);
      s'.flag == 2 && s'.begun == 1 == s'.ended && Calls(s', t) == []
  {
    hide Inv, Calls, Step, After, Alone, Runs, Unhindered;
    var s := After(Init(initial), moves);
    InitInv(initial);
    AfterInv(Init(initial), initial, moves);
    OpenIsNot(s, initial, t);
    AfterBoth(Init(initial), moves, Alone(t, Left(s, t)));
    RunsOut(s, initial, t);
    AloneMoves(t, Left(s, t));
    Done(After(s, Alone(t, Left(s, t))), initial);
    more := Alone(t, Left(s, t));
  }
}
