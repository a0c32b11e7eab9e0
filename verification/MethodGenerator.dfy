/** The code generator of a method: a worklist of branches, each with the types on the stack at its target. */
module MethodGenerators {
  import opened Options
  import opened Cil
  import opened SlotCode
  import opened Translation
  import opened Simulation
  import opened CompiledRuns

  type Slots = map<nat, set<StackType>>

  /** The temporary s is declared (SlotMap). */
  predicate Declared(m: Slots, s: Slot) {
    s.index in m && s.t in m[s.index]
  }

  function Declare(m: Slots, s: Slot): (r: Slots)
    ensures forall x :: Declared(r, x) <==> Declared(m, x) || x == s
  {
    if s.index in m then m[s.index := m[s.index] + {s.t}] else m[s.index := {s.t}]
  }

  /** The temporaries that hold the entries of a stack. */
  ghost predicate InStack(st: Stack, s: Slot) {
    s.index < |st| && st[s.index] == s.t
  }

  ghost predicate AllDeclared(m: Slots, st: Stack) {
    forall s :: InStack(st, s) ==> Declared(m, s)
  }

  datatype Branch = Branch(st: Stack, target: nat)

  /** What the generator knows: the branches to do, and what it has declared and generated. */
  datatype Work = Work(branches: seq<Branch>, slots: Slots, generated: seq<bool>, code: seq<Option<Stmt>>)

  // ----- what the worklist keeps -----

  ghost predicate BranchFits(T: map<nat, Stack>, b: Branch) {
    b.target in T && T[b.target] == b.st
  }

  /** Branches go to reachable instructions, with the right stack; what has been generated is reachable, and its
      code is the translation; the declared temporaries are those of stacks at reachable instructions. */
  ghost predicate OnTrack(insts: seq<Inst>, sig: Signature, handlers: seq<nat>, T: map<nat, Stack>, w: Work) {
    && |w.generated| == |w.code| == |insts|
    && (forall b :: b in w.branches ==>
      BranchFits(T, b) && Reachable(insts, handlers, b.target) && AllDeclared(w.slots, b.st))
    && (forall i :: 0 <= i < |insts| ==>
      if w.generated[i] then GeneratedAt(insts, sig, handlers, T, w, i) else w.code[i] == None)
    && (forall s :: Declared(w.slots, s) ==> Needed(insts, handlers, T, s))
  }

  ghost predicate GeneratedAt(insts: seq<Inst>, sig: Signature, handlers: seq<nat>, T: map<nat, Stack>, w: Work, i: nat)
    requires i < |insts| == |w.code|
  {
    && i in T && Reachable(insts, handlers, i) && AllDeclared(w.slots, T[i])
    && Translate(insts[i], T[i], sig).Some? && w.code[i] == Translate(insts[i], T[i], sig).value.1
  }

  /** The temporary holds an entry of the stack at some reachable instruction. */
  ghost predicate Needed(insts: seq<Inst>, handlers: seq<nat>, T: map<nat, Stack>, s: Slot) {
    exists i: nat :: i in T && Reachable(insts, handlers, i) && InStack(T[i], s)
  }

  /** Instruction i has been generated, or is still to be done: in a branch, or in cur. */
  ghost predicate Seen(w: Work, cur: set<nat>, i: nat) {
    (i < |w.generated| && w.generated[i]) || i in cur || exists b :: b in w.branches && b.target == i
  }

  /** Nothing is forgotten: the starts and the successors of what has been generated have been seen. */
  ghost predicate Frontier(insts: seq<Inst>, handlers: seq<nat>, w: Work, cur: set<nat>) {
    && |w.generated| == |insts|
    && Seen(w, cur, 0) && (forall h :: h in handlers ==> Seen(w, cur, h))
    && (forall i: nat, s :: i < |insts| && w.generated[i] && s in Succ(insts[i], i) ==> Seen(w, cur, s))
  }

  // ----- the end -----

  /** When the worklist is empty, exactly the reachable instructions have been generated. */
  lemma GeneratedReachable(insts: seq<Inst>, sig: Signature, handlers: seq<nat>, T: map<nat, Stack>, w: Work, i: nat)
    requires Typed(insts, sig, handlers, T) && OnTrack(insts, sig, handlers, T, w) && Frontier(insts, handlers, w, {})
    requires w.branches == []
    ensures Reachable(insts, handlers, i) <==> i < |insts| && w.generated[i]
  {
    hide Typed, Translate, Succ, AllDeclared, Needed, Frontier;
    if i < |insts| && w.generated[i] {
      assert GeneratedAt(insts, sig, handlers, T, w, i);
    }
    if Reachable(insts, handlers, i) {
      var p :| Path(insts, handlers, p) && p[|p| - 1] == i;
      GeneratedClosed(insts, handlers, w);
      ReachableInside(insts, handlers, Done(w), p);
    }
  }

  ghost function Done(w: Work): set<nat> {
    set x: nat | x < |w.generated| && w.generated[x]
  }

  lemma GeneratedClosed(insts: seq<Inst>, handlers: seq<nat>, w: Work)
    requires Frontier(insts, handlers, w, {}) && w.branches == []
    ensures 0 in Done(w) && forall h :: h in handlers ==> h in Done(w)
    ensures forall ip, s :: ip in Done(w) && ip < |insts| && s in Succ(insts[ip], ip) ==> s in Done(w)
  {
    hide Succ;
    forall x: nat | Seen(w, {}, x) ensures x in Done(w) {
    }
  }

  // ----- the number of instructions not yet generated -----

  ghost function Ungenerated(g: seq<bool>): nat {
    if g == [] then 0 else (if g[0] then 0 else 1) + Ungenerated(g[1..])
  }

  lemma {:induction false} OneGenerated(g: seq<bool>, i: nat)
    requires i < |g| && !g[i]
    ensures Ungenerated(g[i := true]) == Ungenerated(g) - 1
  {
    if i > 0 {
      OneGenerated(g[1..], i - 1);
      assert g[i := true][1..] == g[1..][i - 1 := true];
    } else {
      assert g[i := true][1..] == g[1..];
    }
  }

  // ----- one instruction -----

  /** The temporaries of the new stack are declared, and nothing besides them and what was declared before. */
  ghost predicate Extends(m: Slots, st: Stack, m': Slots, st': Stack) {
    && (forall s :: Declared(m, s) ==> Declared(m', s))
    && (forall s :: Declared(m', s) ==> Declared(m, s) || InStack(st', s))
    && (AllDeclared(m, st) ==> AllDeclared(m', st'))
  }

  /** The instruction has been translated: its code is stored, the stack and the declarations are those after it. */
  ghost predicate Emits(inst: Inst, sig: Signature, ip: nat, ok: bool, st: Stack, m: Slots, code: seq<Option<Stmt>>,
                        st': Stack, m': Slots, code': seq<Option<Stmt>>)
    requires ip < |code|
  {
    && ok == Translate(inst, st, sig).Some?
    && (ok ==>
      st' == Translate(inst, st, sig).value.0 && code' == code[ip := Translate(inst, st, sig).value.1]
      && Extends(m, st, m', st'))
  }

  lemma PopExtends(m: Slots, st: Stack, k: nat)
    requires k <= |st|
    ensures Extends(m, st, m, st[..|st| - k])
  {
    forall s | InStack(st[..|st| - k], s) ensures InStack(st, s) {
    }
  }

  lemma PushExtends(m: Slots, st: Stack, k: nat, t: StackType)
    requires k <= |st|
    ensures Extends(m, st, Declare(m, Slot(|st| - k, t)), st[..|st| - k] + [t])
  {
    var base := st[..|st| - k];
    assert InStack(base + [t], Slot(|base|, t));
    forall s | InStack(base + [t], s) ensures s == Slot(|base|, t) || InStack(st, s) {
    }
  }

  /** Where control falls through or jumps to at once; conditional targets are queued. */
  function Follow(inst: Inst, ip: nat): Option<nat> {
    match inst
    case Ret => None
    case Br(target) => Some(target)
    case _ => Some(ip + 1)
  }

  function Queued(inst: Inst): seq<nat> {
    match inst
    case BrBool(_, target) => [target]
    case BrCompare(_, target) => [target]
    case Switch(targets) => targets
    case _ => []
  }

  lemma SuccParts(inst: Inst, ip: nat, s: nat)
    ensures s in Succ(inst, ip) <==> Follow(inst, ip) == Some(s) || s in Queued(inst)
  {
  }

  function BranchesTo(st: Stack, targets: seq<nat>): (bs: seq<Branch>)
    ensures |bs| == |targets| && forall i :: 0 <= i < |bs| ==> bs[i] == Branch(st, targets[i])
  {
    seq(|targets|, i requires 0 <= i < |targets| => Branch(st, targets[i]))
  }

  /** The work after instruction ip has been generated and its conditional targets have been queued. */
  ghost predicate Generates(insts: seq<Inst>, sig: Signature, T: map<nat, Stack>, w: Work, ip: nat, w': Work)
    requires ip < |insts| == |w.generated| == |w.code| && ip in T && Translate(insts[ip], T[ip], sig).Some?
  {
    var (st', c) := Translate(insts[ip], T[ip], sig).value;
    && w'.branches == w.branches + BranchesTo(st', Queued(insts[ip]))
    && w'.generated == w.generated[ip := true] && w'.code == w.code[ip := c]
    && Extends(w.slots, T[ip], w'.slots, st')
  }

  ghost function Cur(o: Option<nat>): set<nat> {
    if o.Some? then {o.value} else {}
  }

  lemma GenerateKeeps(insts: seq<Inst>, sig: Signature, handlers: seq<nat>, T: map<nat, Stack>, w: Work, ip: nat,
                      w': Work)
    requires Typed(insts, sig, handlers, T) && OnTrack(insts, sig, handlers, T, w) && Frontier(insts, handlers, w, {ip})
    requires ip in T && Reachable(insts, handlers, ip) && AllDeclared(w.slots, T[ip]) && ip < |insts|
    requires !w.generated[ip]
    requires Translate(insts[ip], T[ip], sig).Some? && Generates(insts, sig, T, w, ip, w')
    ensures OnTrack(insts, sig, handlers, T, w') && Frontier(insts, handlers, w', Cur(Follow(insts[ip], ip)))
    ensures forall x :: x in Cur(Follow(insts[ip], ip)) ==>
      x in T && T[x] == Translate(insts[ip], T[ip], sig).value.0 && Reachable(insts, handlers, x)
        && AllDeclared(w'.slots, T[x])
  {
    hide Translate, Succ, Declared, InStack, Reachable, Follow, Queued;
    SuccessorsReady(insts, sig, handlers, T, ip);
    TrackKept(insts, sig, handlers, T, w, ip, w');
    FrontierKept(insts, sig, handlers, T, w, ip, w');
    var st' := Translate(insts[ip], T[ip], sig).value.0;
    assert AllDeclared(w'.slots, st');
    FollowIs(insts[ip], ip);
  }

  lemma FollowIs(inst: Inst, ip: nat)
    ensures forall x :: x in Cur(Follow(inst, ip)) ==> x in Succ(inst, ip)
  {
  }

  lemma SuccessorsReady(insts: seq<Inst>, sig: Signature, handlers: seq<nat>, T: map<nat, Stack>, ip: nat)
    requires Typed(insts, sig, handlers, T) && ip in T && Reachable(insts, handlers, ip)
    ensures ip < |insts| && Translate(insts[ip], T[ip], sig).Some?
    ensures forall s :: s in Succ(insts[ip], ip) ==>
      s in T && T[s] == Translate(insts[ip], T[ip], sig).value.0 && Reachable(insts, handlers, s)
  {
    hide Translate, Succ, Reachable;
    assert TypedAt(insts, sig, T, ip);
    forall s | s in Succ(insts[ip], ip) ensures Reachable(insts, handlers, s) {
      ReachableNext(insts, handlers, ip, s);
    }
  }

  lemma TrackKept(insts: seq<Inst>, sig: Signature, handlers: seq<nat>, T: map<nat, Stack>, w: Work, ip: nat, w': Work)
    requires OnTrack(insts, sig, handlers, T, w) && ip < |insts| && ip in T && Reachable(insts, handlers, ip)
    requires Translate(insts[ip], T[ip], sig).Some? && Generates(insts, sig, T, w, ip, w')
    requires AllDeclared(w.slots, T[ip])
    requires forall s :: s in Succ(insts[ip], ip) ==>
      s in T && T[s] == Translate(insts[ip], T[ip], sig).value.0 && Reachable(insts, handlers, s)
    ensures OnTrack(insts, sig, handlers, T, w')
  {
    hide Translate, Succ, Reachable, Declared, InStack, Queued, Needed;
    BranchesKept(insts, sig, handlers, T, w, ip, w');
    CodeKept(insts, sig, handlers, T, w, ip, w');
    SlotsKept(insts, sig, handlers, T, w, ip, w');
  }

  lemma BranchesKept(insts: seq<Inst>, sig: Signature, handlers: seq<nat>, T: map<nat, Stack>, w: Work, ip: nat,
                     w': Work)
    requires OnTrack(insts, sig, handlers, T, w) && ip < |insts| && ip in T
    requires Translate(insts[ip], T[ip], sig).Some? && Generates(insts, sig, T, w, ip, w')
    requires AllDeclared(w.slots, T[ip])
    requires forall s :: s in Succ(insts[ip], ip) ==>
      s in T && T[s] == Translate(insts[ip], T[ip], sig).value.0 && Reachable(insts, handlers, s)
    ensures forall b :: b in w'.branches ==>
      BranchFits(T, b) && Reachable(insts, handlers, b.target) && AllDeclared(w'.slots, b.st)
  {
    hide Translate, Reachable, Declared, InStack, Needed, Succ, Queued;
    var st' := Translate(insts[ip], T[ip], sig).value.0;
    forall b | b in w'.branches
      ensures BranchFits(T, b) && Reachable(insts, handlers, b.target) && AllDeclared(w'.slots, b.st)
    {
      if b !in w.branches {
        assert b in BranchesTo(st', Queued(insts[ip]));
        SuccParts(insts[ip], ip, b.target);
      }
    }
  }

  lemma CodeKept(insts: seq<Inst>, sig: Signature, handlers: seq<nat>, T: map<nat, Stack>, w: Work, ip: nat, w': Work)
    requires OnTrack(insts, sig, handlers, T, w) && ip < |insts| && ip in T && Reachable(insts, handlers, ip)
    requires Translate(insts[ip], T[ip], sig).Some? && Generates(insts, sig, T, w, ip, w')
    requires AllDeclared(w.slots, T[ip])
    ensures forall i :: 0 <= i < |insts| ==>
      if w'.generated[i] then GeneratedAt(insts, sig, handlers, T, w', i) else w'.code[i] == None
  {
    hide Translate, Reachable, Declared, InStack, Needed;
    forall i | 0 <= i < |insts|
      ensures if w'.generated[i] then GeneratedAt(insts, sig, handlers, T, w', i) else w'.code[i] == None
    {
      if i != ip && w.generated[i] {
        assert GeneratedAt(insts, sig, handlers, T, w, i);
      }
    }
  }

  lemma SlotsKept(insts: seq<Inst>, sig: Signature, handlers: seq<nat>, T: map<nat, Stack>, w: Work, ip: nat, w': Work)
    requires OnTrack(insts, sig, handlers, T, w) && ip < |insts| && ip in T && Reachable(insts, handlers, ip)
    requires Translate(insts[ip], T[ip], sig).Some? && Generates(insts, sig, T, w, ip, w')
    requires forall s :: s in Succ(insts[ip], ip) ==>
      s in T && T[s] == Translate(insts[ip], T[ip], sig).value.0 && Reachable(insts, handlers, s)
    ensures forall s :: Declared(w'.slots, s) ==> Needed(insts, handlers, T, s)
  {
    hide Reachable, Declared, Translate, Succ;
    var st' := Translate(insts[ip], T[ip], sig).value.0;
    forall s | Declared(w'.slots, s) && !Declared(w.slots, s) ensures Needed(insts, handlers, T, s) {
      assert InStack(st', s);
      LastOrNext(insts[ip], T[ip], sig, ip);
    }
  }

  /** Only a return has no successor, and it only shortens the stack. */
  lemma LastOrNext(inst: Inst, st: Stack, sig: Signature, ip: nat)
    requires Translate(inst, st, sig).Some?
    ensures (exists s :: s in Succ(inst, ip)) || forall s :: InStack(Translate(inst, st, sig).value.0, s) ==>
      InStack(st, s)
  {
    var n := if Follow(inst, ip).Some? then Follow(inst, ip).value else ip;
    SuccParts(inst, ip, n);
    if inst != Ret {
      assert n in Succ(inst, ip);
    }
  }

  lemma FrontierKept(insts: seq<Inst>, sig: Signature, handlers: seq<nat>, T: map<nat, Stack>, w: Work, ip: nat,
                     w': Work)
    requires Frontier(insts, handlers, w, {ip}) && |w.generated| == |w.code| && ip < |insts| && ip in T
    requires Translate(insts[ip], T[ip], sig).Some? && Generates(insts, sig, T, w, ip, w')
    ensures Frontier(insts, handlers, w', Cur(Follow(insts[ip], ip)))
  {
    hide Translate, Succ, Follow, Queued, Extends;
    var cur := Cur(Follow(insts[ip], ip));
    forall x: nat | Seen(w, {ip}, x) ensures Seen(w', cur, x) {
      StillSeen(insts, sig, T, w, ip, w', x);
    }
    forall s | s in Succ(insts[ip], ip) ensures Seen(w', cur, s) {
      SuccParts(insts[ip], ip, s);
      if s in Queued(insts[ip]) {
        var bs := BranchesTo(Translate(insts[ip], T[ip], sig).value.0, Queued(insts[ip]));
        var i :| 0 <= i < |bs| && Queued(insts[ip])[i] == s;
        assert bs[i] in w'.branches;
      }
    }
  }

  lemma StillSeen(insts: seq<Inst>, sig: Signature, T: map<nat, Stack>, w: Work, ip: nat, w': Work, x: nat)
    requires ip < |insts| == |w.generated| == |w.code| && ip in T
    requires Translate(insts[ip], T[ip], sig).Some? && Generates(insts, sig, T, w, ip, w') && Seen(w, {ip}, x)
    ensures Seen(w', Cur(Follow(insts[ip], ip)), x)
  {
    hide Translate, Follow, Queued, Extends;
  }

  // ----- the start and the steps of the worklist -----

  /** The worklist stands at ip, or has nothing at hand. */
  ghost predicate Standing(insts: seq<Inst>, handlers: seq<nat>, T: map<nat, Stack>, w: Work, st: Stack,
                           at: Option<nat>) {
    && Frontier(insts, handlers, w, Cur(at))
    && (at.Some? ==>
      at.value in T && T[at.value] == st && Reachable(insts, handlers, at.value) && AllDeclared(w.slots, st))
  }

  lemma AlreadyGenerated(insts: seq<Inst>, handlers: seq<nat>, T: map<nat, Stack>, w: Work, st: Stack, ip: nat)
    requires Standing(insts, handlers, T, w, st, Some(ip)) && ip < |w.generated| && w.generated[ip]
    ensures Standing(insts, handlers, T, w, st, None)
  {
    hide Succ, Reachable, AllDeclared;
    forall x: nat | Seen(w, {ip}, x) ensures Seen(w, {}, x) {
    }
  }

  lemma StartStanding(insts: seq<Inst>, sig: Signature, handlers: seq<nat>, T: map<nat, Stack>, w: Work)
    requires Typed(insts, sig, handlers, T) && w.branches == BranchesTo([Basic(Obj)], handlers)
    requires w.generated == seq(|insts|, _ => false) && w.code == seq(|insts|, _ => None)
    requires w.slots == if handlers == [] then map[] else map[0 := {Basic(Obj)}]
    ensures OnTrack(insts, sig, handlers, T, w) && Standing(insts, handlers, T, w, [], Some(0)) && T[0] == []
  {
    hide Succ, Reachable, TypedAt;
    ReachableStart(insts, handlers, 0);
    forall h | h in handlers ensures Reachable(insts, handlers, h) && Seen(w, {0}, h) {
      ReachableStart(insts, handlers, h);
      var i :| 0 <= i < |handlers| && handlers[i] == h;
      assert w.branches[i].target == h;
    }
    if handlers != [] {
      assert handlers[0] in handlers && InStack(T[handlers[0]], Slot(0, Basic(Obj)));
    }
  }

  /** The next branch is taken from the queue. */
  lemma TakeBranch(insts: seq<Inst>, sig: Signature, handlers: seq<nat>, T: map<nat, Stack>, w: Work, st: Stack)
    requires OnTrack(insts, sig, handlers, T, w) && Standing(insts, handlers, T, w, st, None) && w.branches != []
    ensures var b, w' := w.branches[0], w.(branches := w.branches[1..]);
      OnTrack(insts, sig, handlers, T, w') && Standing(insts, handlers, T, w', b.st, Some(b.target))
  {
    hide Succ, Reachable, AllDeclared, Needed, Translate, Declared;
    var b, w' := w.branches[0], w.(branches := w.branches[1..]);
    assert b in w.branches && w.branches == [b] + w'.branches;
    forall x: nat | Seen(w, {}, x) ensures Seen(w', {b.target}, x) {
    }
    forall i | 0 <= i < |insts| && w.generated[i] ensures GeneratedAt(insts, sig, handlers, T, w', i) {
      assert GeneratedAt(insts, sig, handlers, T, w, i);
    }
  }

  /** What the generator has made of a method: the code of exactly the reachable instructions, and
      declarations of exactly the temporaries that their stacks need. */
  ghost predicate Finished(insts: seq<Inst>, sig: Signature, handlers: seq<nat>, T: map<nat, Stack>, w: Work) {
    && |w.generated| == |w.code| == |insts|
    && (forall i: nat :: Reachable(insts, handlers, i) <==> i < |insts| && w.generated[i])
    && (forall i: nat :: i < |insts| ==>
      if w.generated[i]
      then i in T && Translate(insts[i], T[i], sig).Some? && w.code[i] == Translate(insts[i], T[i], sig).value.1
      else w.code[i] == None)
    && (forall s :: Declared(w.slots, s) <==> Needed(insts, handlers, T, s))
  }

  lemma WorkFinished(insts: seq<Inst>, sig: Signature, handlers: seq<nat>, T: map<nat, Stack>, w: Work, st: Stack)
    requires Typed(insts, sig, handlers, T) && OnTrack(insts, sig, handlers, T, w)
    requires Standing(insts, handlers, T, w, st, None) && w.branches == []
    ensures Finished(insts, sig, handlers, T, w)
  {
    hide Typed, Reachable, Translate, Succ, Declared, InStack, Frontier;
    forall i: nat ensures Reachable(insts, handlers, i) <==> i < |insts| && w.generated[i] {
      GeneratedReachable(insts, sig, handlers, T, w, i);
    }
    forall i: nat | i < |insts| && w.generated[i] ensures GeneratedAt(insts, sig, handlers, T, w, i) {
    }
    forall s | Needed(insts, handlers, T, s) ensures Declared(w.slots, s) {
      var i: nat :| i in T && Reachable(insts, handlers, i) && InStack(T[i], s);
      assert GeneratedAt(insts, sig, handlers, T, w, i);
    }
  }

  /** The generated code is a compilation in the sense of the simulation. */
  lemma FinishedCompiled(insts: seq<Inst>, sig: Signature, handlers: seq<nat>, T: map<nat, Stack>, w: Work)
    requires Finished(insts, sig, handlers, T, w)
    requires forall ip :: ip in T && ip < |insts| && Reachable(insts, handlers, ip) ==> Accepted(insts[ip], T[ip], sig)
    ensures Compiled(insts, sig, handlers, T, w.code)
  {
    hide Reachable, Translate, Accepted, Needed, Declared;
  }

  // ----- the generator -----

  datatype Handler = Handler(start: nat, filter: Option<nat>)

  /** The instructions where the handlers and their filters start. */
  function Starts(hs: seq<Handler>): seq<nat> {
    if hs == [] then []
    else Starts(hs[..|hs| - 1]) + StartsOf(hs[|hs| - 1])
  }

  function StartsOf(h: Handler): seq<nat> {
    [h.start] + if h.filter.Some? then [h.filter.value] else []
  }

  lemma {:induction false} StartsAre(hs: seq<Handler>, x: nat)
    ensures x in Starts(hs) <==> exists h :: h in hs && (x == h.start || h.filter == Some(x))
  {
    if hs != [] {
      var n := |hs| - 1;
      StartsAre(hs[..n], x);
      assert hs == hs[..n] + [hs[n]];
      assert x in Starts(hs) <==> x in Starts(hs[..n]) || x in StartsOf(hs[n]);
      assert x in StartsOf(hs[n]) <==> x == hs[n].start || hs[n].filter == Some(x);
    }
  }

  /** Control enters at the first instruction, at the start of a handler, and at the start of a filter. */
  ghost predicate IsEntry(hs: seq<Handler>, x: nat) {
    x == 0 || exists h :: h in hs && (x == h.start || h.filter == Some(x))
  }

  /** A path of control from an entry to instruction i. */
  ghost predicate LeadsTo(insts: seq<Inst>, hs: seq<Handler>, p: seq<nat>, i: nat) {
    && p != [] && IsEntry(hs, p[0]) && p[|p| - 1] == i
    && forall k :: 0 <= k < |p| - 1 ==> p[k] < |insts| && p[k + 1] in Succ(insts[p[k]], p[k])
  }

  ghost predicate LedTo(insts: seq<Inst>, hs: seq<Handler>, i: nat) {
    exists p :: LeadsTo(insts, hs, p, i)
  }

  /** Instruction i has been generated on a stack of the given types. */
  ghost predicate GeneratedOn(insts: seq<Inst>, sig: Signature, w: Work, st: Stack, i: nat) {
    && i < |insts| == |w.generated| == |w.code| && w.generated[i]
    && Translate(insts[i], st, sig).Some? && w.code[i] == Translate(insts[i], st, sig).value.1
  }

  /** All entries have been generated: the first instruction on an empty stack, handlers and filters on one that holds
      the exception object; and besides them just what paths lead to. */
  lemma EntriesGenerated(insts: seq<Inst>, sig: Signature, hs: seq<Handler>, T: map<nat, Stack>, w: Work)
    requires Typed(insts, sig, Starts(hs), T) && Finished(insts, sig, Starts(hs), T, w)
    ensures GeneratedOn(insts, sig, w, [], 0)
    ensures forall h :: h in hs ==>
      && GeneratedOn(insts, sig, w, [Basic(Obj)], h.start)
      && (h.filter.Some? ==> GeneratedOn(insts, sig, w, [Basic(Obj)], h.filter.value))
    ensures forall i: nat :: LedTo(insts, hs, i) <==> i < |w.generated| && w.generated[i]
  {
    hide Translate, Succ, TypedAt, Reachable, Starts, Needed, LedTo;
    forall x: nat ensures x in Starts(hs) <==> exists h :: h in hs && (x == h.start || h.filter == Some(x)) {
      StartsAre(hs, x);
    }
    ReachableStart(insts, Starts(hs), 0);
    forall x | x in Starts(hs) ensures GeneratedOn(insts, sig, w, [Basic(Obj)], x) {
      ReachableStart(insts, Starts(hs), x);
    }
    forall i: nat ensures LedTo(insts, hs, i) <==> i < |w.generated| && w.generated[i] {
      PathsLead(insts, hs, i);
    }
  }

  lemma PathsLead(insts: seq<Inst>, hs: seq<Handler>, i: nat)
    requires forall x: nat :: x in Starts(hs) <==> exists h :: h in hs && (x == h.start || h.filter == Some(x))
    ensures Reachable(insts, Starts(hs), i) <==> LedTo(insts, hs, i)
  {
    hide Succ, Starts;
    forall p: seq<nat> | p != [] && p[|p| - 1] == i ensures Path(insts, Starts(hs), p) <==> LeadsTo(insts, hs, p, i) {
    }
    if Reachable(insts, Starts(hs), i) {
      var p :| Path(insts, Starts(hs), p) && p[|p| - 1] == i;
      assert LeadsTo(insts, hs, p, i);
    }
  }

  class MethodGenerator {
    const insts: seq<Inst>
    const sig: Signature
    const handlers: seq<Handler>
    var typeStack: Stack
    var branches: seq<Branch>
    var slotMap: Slots
    // InstInfo.IsGenerated and InstInfo.InstCode of each instruction.
    var generated: seq<bool>
    var instCode: seq<Option<Stmt>>

    constructor (insts: seq<Inst>, sig: Signature, handlers: seq<Handler>)
      ensures this.insts == insts && this.sig == sig && this.handlers == handlers
      ensures typeStack == [] && branches == [] && slotMap == map[]
      ensures generated == seq(|insts|, _ => false) && instCode == seq(|insts|, _ => None)
    {
      this.insts, this.sig, this.handlers := insts, sig, handlers;
      typeStack, branches, slotMap := [], [], map[];
      generated, instCode := seq(|insts|, _ => false), seq(|insts|, _ => None);
    }

    ghost function Now(): Work
      reads this
    {
      Work(branches, slotMap, generated, instCode)
    }

    method AddSlotMap(s: Slot)
      modifies this`slotMap
      ensures slotMap == Declare(old(slotMap), s)
    {
      if s.index !in slotMap {
        slotMap := slotMap[s.index := {}];
      }
      assert slotMap[s.index] == {} ==> slotMap[s.index] + {s.t} == {s.t};
      slotMap := slotMap[s.index := slotMap[s.index] + {s.t}];
    }

    method Push(t: StackType) returns (s: Slot)
      modifies this`typeStack, this`slotMap
      ensures s == Slot(|old(typeStack)|, t) && typeStack == old(typeStack) + [t] && slotMap == Declare(old(slotMap), s)
    {
      s := Slot(|typeStack|, t);
      typeStack := typeStack + [t];
      AddSlotMap(s);
    }

    method Pop() returns (s: Slot)
      requires typeStack != []
      modifies this`typeStack
      ensures s == TopSlot(old(typeStack), 1) && typeStack == old(typeStack)[..|old(typeStack)| - 1]
    {
      s := TopSlot(typeStack, 1);
      typeStack := typeStack[..|typeStack| - 1];
    }

    /** The two topmost slots, the lower one first. */
    method PopTwo() returns (lhs: Slot, rhs: Slot)
      requires 2 <= |typeStack|
      modifies this`typeStack
      ensures lhs == TopSlot(old(typeStack), 2) && rhs == TopSlot(old(typeStack), 1)
      ensures typeStack == old(typeStack)[..|old(typeStack)| - 2]
    {
      rhs := Pop();
      lhs := Pop();
    }

    method AddBranch(target: nat)
      modifies this`branches
      ensures branches == old(branches) + [Branch(typeStack, target)]
    {
      branches := branches + [Branch(typeStack, target)];
    }

    // ----- the code of one instruction; false when it is refused -----

    method GenDup(ip: nat) returns (ok: bool)
      requires ip < |insts| == |instCode| && insts[ip] == Dup
      modifies this`typeStack, this`slotMap, this`instCode
      ensures Emits(insts[ip], sig, ip, ok, old(typeStack), old(slotMap), old(instCode), typeStack, slotMap, instCode)
    {
      hide Extends;
      if typeStack == [] { return false; }
      PushExtends(slotMap, typeStack, 0, typeStack[|typeStack| - 1]);
      assert typeStack[..|typeStack|] == typeStack;
      var top := TopSlot(typeStack, 1);
      var push := Push(top.t);
      instCode := instCode[ip := Some(Assign(Temp(push), Read(Temp(top))))];
      return true;
    }

    /** Push the value of an expression (GenLdc, GenLdarg and GenLdloc). */
    method GenLoad(ip: nat, t: StackType, e: Expr)
      requires ip < |insts| == |instCode|
      requires Translate(insts[ip], typeStack, sig) ==
        Some((typeStack + [t], Some(Assign(Temp(Slot(|typeStack|, t)), e))))
      modifies this`typeStack, this`slotMap, this`instCode
      ensures Emits(insts[ip], sig, ip, true, old(typeStack), old(slotMap), old(instCode), typeStack, slotMap, instCode)
    {
      hide Extends, Translate;
      PushExtends(slotMap, typeStack, 0, t);
      assert typeStack[..|typeStack|] == typeStack;
      var push := Push(t);
      instCode := instCode[ip := Some(Assign(Temp(push), e))];
    }

    /** Pop a value into a variable (GenStarg and GenStloc). */
    method GenStore(ip: nat, x: CVar) returns (ok: bool)
      requires ip < |insts| == |instCode| && Translate(insts[ip], typeStack, sig) ==
        if typeStack == [] then None else StoreVar(typeStack, x)
      modifies this`typeStack, this`instCode
      ensures Emits(insts[ip], sig, ip, ok, old(typeStack), old(slotMap), old(instCode), typeStack, slotMap, instCode)
    {
      hide Extends, Translate;
      if typeStack == [] { return false; }
      PopExtends(slotMap, typeStack, 1);
      var pop := Pop();
      instCode := instCode[ip := Some(Assign(x, Read(Temp(pop))))];
      return true;
    }

    /** The condition of a comparison of the two topmost slots (GenCompareCond). */
    method GenCompareCond(c: Code) returns (cond: Option<Condition>)
      modifies this`typeStack
      ensures var st := old(typeStack);
        if 2 <= |st| && BinaryCompareValid(st[|st| - 2].kind, st[|st| - 1].kind, c)
        then cond == Some(CompareCond(c, TopSlot(st, 2), TopSlot(st, 1))) && typeStack == st[..|st| - 2]
        else cond == None
    {
      if |typeStack| < 2 { return None; }
      var lhs, rhs := PopTwo();
      if !BinaryCompareValid(lhs.t.kind, rhs.t.kind, c) { return None; }
      return Some(CompareCond(c, lhs, rhs));
    }

    method GenCompare(ip: nat) returns (ok: bool)
      requires ip < |insts| == |instCode| && insts[ip].Compare?
      modifies this`typeStack, this`slotMap, this`instCode
      ensures Emits(insts[ip], sig, ip, ok, old(typeStack), old(slotMap), old(instCode), typeStack, slotMap, instCode)
    {
      hide Extends, BinaryCompareValid, CompareCond;
      ghost var st, m := typeStack, slotMap;
      var cond := GenCompareCond(insts[ip].c);
      if cond == None { return false; }
      PushExtends(m, st, 2, Basic(I4));
      var push := Push(Basic(I4));
      instCode := instCode[ip := Some(Assign(Temp(push), Chosen(cond.value)))];
      return true;
    }

    method GenBrCompare(ip: nat) returns (ok: bool)
      requires ip < |insts| == |instCode| && insts[ip].BrCompare?
      modifies this`typeStack, this`instCode
      ensures Emits(insts[ip], sig, ip, ok, old(typeStack), old(slotMap), old(instCode), typeStack, slotMap, instCode)
    {
      hide Extends, BinaryCompareValid, CompareCond;
      ghost var st := typeStack;
      var cond := GenCompareCond(insts[ip].c);
      if cond == None { return false; }
      PopExtends(slotMap, st, 2);
      instCode := instCode[ip := Some(If(cond.value, insts[ip].target))];
      return true;
    }

    /** Arithmetic on the two topmost slots: the operands and the result, if the generator takes the operands. */
    method GenOperands(op: BinCode) returns (r: Option<(Slot, Slot, Slot)>)
      modifies this`typeStack, this`slotMap
      ensures
        var st := old(typeStack);
        if |st| < 2 || ResultType(st[|st| - 2].kind, st[|st| - 1].kind, op).None? then r == None
        else
          var t := Basic(ResultType(st[|st| - 2].kind, st[|st| - 1].kind, op).value);
          && r == Some((TopSlot(st, 2), TopSlot(st, 1), Slot(|st| - 2, t)))
          && typeStack == st[..|st| - 2] + [t] && slotMap == Declare(old(slotMap), Slot(|st| - 2, t))
    {
      hide ResultType;
      if |typeStack| < 2 { return None; }
      var lhs, rhs := PopTwo();
      var k := ResultType(lhs.t.kind, rhs.t.kind, op);
      if k == None { return None; }
      var push := Push(Basic(k.value));
      return Some((lhs, rhs, push));
    }

    /** Sums and differences (GenBinOpFunc), products and quotients (GenBinOp), remainders (GenRem and GenRemUn)
        and bitwise operations (GenIntBinOp). */
    method GenBinary(ip: nat) returns (ok: bool)
      requires ip < |insts| == |instCode| && insts[ip].Binary?
      modifies this`typeStack, this`slotMap, this`instCode
      ensures Emits(insts[ip], sig, ip, ok, old(typeStack), old(slotMap), old(instCode), typeStack, slotMap, instCode)
    {
      hide Extends, ResultType;
      ghost var st, m := typeStack, slotMap;
      var op := insts[ip].op;
      var slots := GenOperands(op);
      if slots == None { return false; }
      var (lhs, rhs, push) := slots.value;
      PushExtends(m, st, 2, push.t);
      var l, r := Var(lhs), Var(rhs);
      var code;
      match op {
        case Add => code := SafeAdd(l, r);
        case Sub => code := SafeSub(l, r);
        case Mul => code := Infix(Times, l, r);
        case Div => code := Infix(Over, l, r);
        case DivUn => code := Infix(Over, AsUnsigned(lhs), AsUnsigned(rhs));
        case Rem => if IsFloat(push.t.kind) { code := FloatRem(l, r); } else { code := Infix(Modulo, l, r); }
        case RemUn =>
          var quotient := Infix(Over, AsUnsigned(lhs), AsUnsigned(rhs));
          code := Infix(Minus, l, Infix(Times, r, quotient));
        case And => code := Infix(BitAnd, l, r);
        case Or => code := Infix(BitOr, l, r);
        case Xor => code := Infix(BitXor, l, r);
      }
      instCode := instCode[ip := Some(Assign(Temp(push), Computed(code)))];
      return true;
    }

    /** Pop, branch on the popped slot, switch on it, or return it. */
    method GenPop(ip: nat) returns (ok: bool)
      requires ip < |insts| == |instCode| && instCode[ip] == None
      requires insts[ip] == Inst.Pop || insts[ip].BrBool? || insts[ip].Switch? || insts[ip] == Ret
      modifies this`typeStack, this`instCode
      ensures Emits(insts[ip], sig, ip, ok, old(typeStack), old(slotMap), old(instCode), typeStack, slotMap, instCode)
    {
      hide Extends;
      if typeStack == [] {
        if insts[ip] != Ret { return false; }
        PopExtends(slotMap, typeStack, 0);
        instCode := instCode[ip := Some(Return(None))];
        return true;
      }
      PopExtends(slotMap, typeStack, 1);
      var pop := Pop();
      match insts[ip] {
        case BrBool(b, target) => instCode := instCode[ip := Some(If(NonZero(pop, b), target))];
        case Switch(targets) => instCode := instCode[ip := Some(Select(pop, targets))];
        case Ret => instCode := instCode[ip := Some(Return(Some(pop)))];
        case Pop =>
      }
      return true;
    }

    /** The code of the instruction at ip (GenerateInstCode). */
    method GenerateInstCode(ip: nat) returns (ok: bool)
      requires ip < |insts| == |instCode| && instCode[ip] == None
      modifies this`typeStack, this`slotMap, this`instCode
      ensures Emits(insts[ip], sig, ip, ok, old(typeStack), old(slotMap), old(instCode), typeStack, slotMap, instCode)
    {
      match insts[ip] {
        case Nop => PopExtends(slotMap, typeStack, 0); assert typeStack[..|typeStack|] == typeStack; ok := true;
        case Dup => ok := GenDup(ip);
        case Ldc(t, v) => GenLoad(ip, t, Literal(v)); ok := true;
        case Ldarg(i) =>
          if i >= |sig.args| { return false; }
          GenLoad(ip, ToStackType(sig.args[i]), Read(Arg(i)));
          ok := true;
        case Ldloc(i) =>
          if i >= |sig.locals| { return false; }
          GenLoad(ip, ToStackType(sig.locals[i]), Read(Local(i)));
          ok := true;
        case Starg(i) =>
          if i >= |sig.args| { return false; }
          ok := GenStore(ip, Arg(i));
        case Stloc(i) =>
          if i >= |sig.locals| { return false; }
          ok := GenStore(ip, Local(i));
        case Br(target) =>
          PopExtends(slotMap, typeStack, 0);
          assert typeStack[..|typeStack|] == typeStack;
          instCode := instCode[ip := Some(Goto(target))];
          ok := true;
        case Compare(_) => ok := GenCompare(ip);
        case BrCompare(_, _) => ok := GenBrCompare(ip);
        case Binary(_) => ok := GenBinary(ip);
        case _ => ok := GenPop(ip);
      }
    }

    /** Generate the instruction at ip, unless that has been done, and queue its conditional targets; next is
        where to go on, if anywhere. */
    method GenerateInst(ip: nat, ghost T: map<nat, Stack>) returns (ok: bool, next: Option<nat>)
      requires Typed(insts, sig, Starts(handlers), T) && OnTrack(insts, sig, Starts(handlers), T, Now())
      requires Standing(insts, Starts(handlers), T, Now(), typeStack, Some(ip))
      modifies this`typeStack, this`branches, this`slotMap, this`generated, this`instCode
      ensures ok && OnTrack(insts, sig, Starts(handlers), T, Now())
      ensures Standing(insts, Starts(handlers), T, Now(), typeStack, next)
      ensures if ip < |old(generated)| && old(generated)[ip]
        then next == None && Now() == old(Now())
        else Ungenerated(generated) < Ungenerated(old(generated))
    {
      hide Typed, OnTrack, Frontier, Starts, Translate, Reachable, AllDeclared, Ungenerated, Queued, Follow, Extends;
      ghost var w, hs := Now(), Starts(handlers);
      TypedHere(insts, sig, hs, T, w, ip);
      if generated[ip] {
        AlreadyGenerated(insts, hs, T, w, typeStack, ip);
        return true, None;
      }
      OneGenerated(generated, ip);
      generated := generated[ip := true];
      ok := GenerateInstCode(ip);
      QueueBranches(Queued(insts[ip]));
      next := Follow(insts[ip], ip);
      GenerateKeeps(insts, sig, hs, T, w, ip, Now());
    }

    lemma TypedHere(insts: seq<Inst>, sig: Signature, hs: seq<nat>, T: map<nat, Stack>, w: Work, ip: nat)
      requires Typed(insts, sig, hs, T) && OnTrack(insts, sig, hs, T, w) && ip in T
      ensures ip < |insts| == |w.generated| == |w.code| && Translate(insts[ip], T[ip], sig).Some?
      ensures !w.generated[ip] ==> w.code[ip] == None
    {
      hide Translate, Succ;
      assert TypedAt(insts, sig, T, ip);
    }

    /** Queue a branch to each target with the stack as it is. */
    method QueueBranches(targets: seq<nat>)
      modifies this`branches
      ensures branches == old(branches) + BranchesTo(typeStack, targets)
    {
      var i := 0;
      while i < |targets|
        invariant i <= |targets| && branches == old(branches) + BranchesTo(typeStack, targets[..i])
      {
        AddBranch(targets[i]);
        i := i + 1;
      }
      assert targets[..i] == targets;
    }

    /** Generate the code of the method (GenMethodImpl). */
    method GenMethodImpl(ghost T: map<nat, Stack>) returns (ok: bool)
      requires Typed(insts, sig, Starts(handlers), T)
      requires typeStack == [] && branches == [] && slotMap == map[]
      requires generated == seq(|insts|, _ => false) && instCode == seq(|insts|, _ => None)
      modifies this`typeStack, this`branches, this`slotMap, this`generated, this`instCode
      ensures ok && Finished(insts, sig, Starts(handlers), T, Now())
      ensures GeneratedOn(insts, sig, Now(), [], 0)
      ensures forall h :: h in handlers ==>
        && GeneratedOn(insts, sig, Now(), [Basic(Obj)], h.start)
        && (h.filter.Some? ==> GeneratedOn(insts, sig, Now(), [Basic(Obj)], h.filter.value))
      ensures forall i: nat :: LedTo(insts, handlers, i) <==> i < |generated| && generated[i]
    {
      hide Typed, OnTrack, Frontier, Reachable, AllDeclared, Finished, Ungenerated, GeneratedOn, LedTo;
      ghost var hs := Starts(handlers);
      AddHandlers();
      StartStanding(insts, sig, hs, T, Now());
      hide Standing;
      var at: Option<nat> := Some(0);
      while true
        invariant OnTrack(insts, sig, hs, T, Now()) && Standing(insts, hs, T, Now(), typeStack, at) && at.Some?
        decreases Ungenerated(generated), |branches|
      {
        ok, at := GenerateInst(at.value, T);
        if !ok { return; }
        if at == None {
          if branches == [] { break; }
          TakeBranch(insts, sig, hs, T, Now(), typeStack);
          var branch := branches[0];
          branches := branches[1..];
          typeStack, at := branch.st, Some(branch.target);
        }
      }
      WorkFinished(insts, sig, hs, T, Now(), typeStack);
      EntriesGenerated(insts, sig, handlers, T, Now());
      return true;
    }

    /** Queue the handlers and the filters, which start with the exception object. */
    method AddHandlers()
      requires typeStack == [] && branches == [] && slotMap == map[]
      modifies this`typeStack, this`branches, this`slotMap
      ensures typeStack == [] && branches == BranchesTo([Basic(Obj)], Starts(handlers))
      ensures slotMap == if Starts(handlers) == [] then map[] else map[0 := {Basic(Obj)}]
    {
      if handlers == [] { return; }
      var s := Push(Basic(Obj));
      assert slotMap == map[0 := {Basic(Obj)}];
      var i := 0;
      while i < |handlers|
        invariant i <= |handlers| && typeStack == [Basic(Obj)] && slotMap == map[0 := {Basic(Obj)}]
        invariant branches == BranchesTo(typeStack, Starts(handlers[..i]))
      {
        var h := handlers[i];
        AddBranch(h.start);
        if h.filter != None {
          AddBranch(h.filter.value);
        }
        StartsNext(handlers, i);
        i := i + 1;
      }
      assert handlers[..i] == handlers;
      assert |Starts(handlers)| >= |StartsOf(handlers[i - 1])|;
      typeStack := [];
    }

    lemma StartsNext(hs: seq<Handler>, i: nat)
      requires i < |hs|
      ensures Starts(hs[..i + 1]) == Starts(hs[..i]) + StartsOf(hs[i])
    {
      assert hs[..i + 1][..i] == hs[..i];
    }
  }
}
