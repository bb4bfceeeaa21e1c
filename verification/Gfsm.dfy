/** Dispatch between finite state machines that hook each other's states.

    A machine that moves to a state runs the machines hooked there, which may move on in turn.
    The states of all machines working on one object are kept in eight slots. */
module Gfsm {
  import opened Common

  const SLOTS := 8
  const IDS := 8           // TFW_FSM_NUM
  const STATES := 32
  const LAST := 31         // the accepting state
  const PRIORITIES := 16

  /** A state word: on-stack flag, machine, priority and state; or the bad state of a free slot. */
  datatype Slot = Bad | Used(onStack: bool, fsm: nat, prio: nat, state: nat)

  datatype Verdict = Ok | Block | Postpone | Other

  /** A registered hook: the machine to run, and where it begins if it has no state yet. */
  datatype Hook = NoHook | Hook(fsm: nat, prio: nat, state: nat)

  /** What a handler does in one call: it moves finitely often, the results may decide how it goes on. */
  datatype Script = Done(r: Verdict) | Move(state: nat, onOk: Script, onBlock: Script, onPostpone: Script)

  predicate OnStack(s: Slot) {
    s.Used? && s.onStack
  }

  /** Machines own at most one slot each. */
  ghost predicate SlotsOk(s: seq<Slot>) {
    && |s| == SLOTS
    && (forall i :: 0 <= i < SLOTS && s[i].Used? ==> s[i].fsm < IDS)
    && (forall i, j :: 0 <= i < j < SLOTS && s[i].Used? && s[j].Used? ==> s[i].fsm != s[j].fsm)
  }

  // ---------------------------------------------------------------- counting

  function Count(s: seq<Slot>): nat {
    if s == [] then 0 else Count(s[..|s| - 1]) + if OnStack(s[|s| - 1]) then 1 else 0
  }

  lemma {:induction false} CountBound(s: seq<Slot>)
    ensures Count(s) <= |s|
  {
    if s != [] { CountBound(s[..|s| - 1]); }
  }

  lemma {:induction false} CountSame(a: seq<Slot>, b: seq<Slot>)
    requires |a| == |b| && forall i :: 0 <= i < |a| ==> OnStack(a[i]) == OnStack(b[i])
    ensures Count(a) == Count(b)
    decreases a
  {
    if a != [] { CountSame(a[..|a| - 1], b[..|b| - 1]); }
  }

  lemma {:induction false} CountMark(s: seq<Slot>, i: nat, x: Slot)
    requires i < |s| && !OnStack(s[i]) && OnStack(x)
    ensures Count(s[i := x]) == Count(s) + 1
    decreases s
  {
    var n := |s| - 1;
    if i < n {
      CountMark(s[..n], i, x);
      assert s[i := x][..n] == s[..n][i := x];
    } else {
      assert s[i := x][..n] == s[..n];
    }
  }

  /** The machines that own one of the first `n` slots. */
  ghost function Owners(s: seq<Slot>, n: nat): set<nat>
    requires n <= |s|
  {
    if n == 0 then {} else Owners(s, n - 1) + if s[n - 1].Used? then {s[n - 1].fsm} else {}
  }

  lemma {:induction false} OwnersHold(s: seq<Slot>, n: nat, f: nat)
    requires n <= |s| && forall i :: 0 <= i < n ==> s[i].Used?
    ensures f in Owners(s, n) <==> exists i :: 0 <= i < n && s[i].fsm == f
  {
    if n > 0 { OwnersHold(s, n - 1, f); }
  }

  lemma {:induction false} OwnersSize(s: seq<Slot>, n: nat)
    requires SlotsOk(s) && n <= SLOTS && forall i :: 0 <= i < n ==> s[i].Used?
    ensures |Owners(s, n)| == n
  {
    if n > 0 {
      OwnersSize(s, n - 1);
      OwnersHold(s, n - 1, s[n - 1].fsm);
    }
  }

  /** A machine without a slot always finds a free one: there are as many slots as machines. */
  lemma FreeSlot(s: seq<Slot>, fsm: nat)
    requires SlotsOk(s) && fsm < IDS && forall i :: 0 <= i < SLOTS && s[i].Used? ==> s[i].fsm != fsm
    ensures exists i :: 0 <= i < SLOTS && s[i] == Bad
  {
    if forall i :: 0 <= i < SLOTS ==> s[i].Used? { Crowded(s, fsm); }
  }

  /** If no slot is free, every machine has one. */
  lemma Crowded(s: seq<Slot>, fsm: nat)
    requires SlotsOk(s) && fsm < IDS && forall i :: 0 <= i < SLOTS ==> s[i].Used?
    ensures exists i :: 0 <= i < SLOTS && s[i].fsm == fsm
  {
    hide Owners, Ids;
    IdsSize(IDS);
    OwnersSize(s, SLOTS);
    OwnersIn(s, SLOTS, Ids(IDS));
    OwnersHold(s, SLOTS, fsm);
    SameSet(Owners(s, SLOTS), Ids(IDS));
    assert fsm in Ids(IDS);
  }

  lemma {:induction false} OwnersIn(s: seq<Slot>, n: nat, ids: set<nat>)
    requires n <= |s| && forall i :: 0 <= i < n && s[i].Used? ==> s[i].fsm in ids
    ensures Owners(s, n) <= ids
  {
    if n > 0 { OwnersIn(s, n - 1, ids); }
  }

  ghost function Ids(n: nat): (r: set<nat>)
    ensures forall i: nat :: i in r <==> i < n
  {
    if n == 0 then {} else Ids(n - 1) + {n - 1}
  }

  lemma {:induction false} IdsSize(n: nat)
    ensures |Ids(n)| == n
  {
    if n > 0 { IdsSize(n - 1); }
  }

  // ---------------------------------------------------------------- what a call leaves alone

  /** Slots on the call stack, except `but`, are as before, and no other slot is on the stack. */
  ghost predicate Kept(a: seq<Slot>, b: seq<Slot>, but: int) {
    && |a| == |b|
    && forall i :: 0 <= i < |a| && i != but ==> OnStack(a[i]) == OnStack(b[i]) && (OnStack(a[i]) ==> a[i] == b[i])
  }

  lemma KeptTrans(a: seq<Slot>, b: seq<Slot>, c: seq<Slot>, but: int)
    requires Kept(a, b, but) && Kept(b, c, but)
    ensures Kept(a, c, but)
  {
  }

  // ---------------------------------------------------------------- what becomes of one machine

  /** What is stored for a machine between its calls. */
  datatype Mark = Mark(prio: nat, state: nat)

  /** A machine is called through a hook, moves to a state, or comes back from its handler. */
  datatype Act = Began(fsm: nat, mark: Mark) | Moved(fsm: nat, state: nat) | Ended(fsm: nat)

  /** One act of machine `f`: it gets the mark of the hook if it has none, moves, and is forgotten when it comes
      back in the last state. */
  function Next(f: nat, m: Option<Mark>, act: Act): Option<Mark> {
    if act.fsm != f then m
    else match act
         case Began(_, mark) => if m == None then Some(mark) else m
         case Moved(_, state) => if m == None then None else Some(m.value.(state := state))
         case Ended(_) => if m != None && m.value.state == LAST then None else m
  }

  /** What is stored for machine `f` after some acts of all machines. */
  function After(f: nat, m: Option<Mark>, log: seq<Act>): Option<Mark>
    decreases log
  {
    if log == [] then m else After(f, Next(f, m, log[0]), log[1..])
  }

  lemma {:induction false} AfterConcat(f: nat, m: Option<Mark>, a: seq<Act>, b: seq<Act>)
    ensures After(f, m, a + b) == After(f, After(f, m, a), b)
    decreases a
  {
    if a == [] {
      assert a + b == b;
    } else {
      assert (a + b)[1..] == a[1..] + b;
      AfterConcat(f, Next(f, m, a[0]), a[1..], b);
    }
  }

  lemma {:induction false} AfterOne(f: nat, m: Option<Mark>, act: Act)
    ensures After(f, m, [act]) == Next(f, m, act)
  {
    assert [act][1..] == [];
  }

  /** What the slots store for machine `f`. */
  ghost function Held(s: seq<Slot>, f: nat): Option<Mark> {
    if i :| 0 <= i < |s| && s[i].Used? && s[i].fsm == f then Some(Mark(s[i].prio, s[i].state)) else None
  }

  lemma HeldAt(s: seq<Slot>, i: nat)
    requires SlotsOk(s) && i < SLOTS && s[i].Used?
    ensures Held(s, s[i].fsm) == Some(Mark(s[i].prio, s[i].state))
  {
  }

  /** Slots `b` store for every machine what the acts have made of what slots `a` stored. */
  ghost predicate Tracked(a: seq<Slot>, b: seq<Slot>, log: seq<Act>) {
    forall f :: Held(b, f) == After(f, Held(a, f), log)
  }

  lemma TrackedNone(a: seq<Slot>)
    ensures Tracked(a, a, [])
  {
  }

  lemma TrackedTrans(a: seq<Slot>, b: seq<Slot>, c: seq<Slot>, x: seq<Act>, y: seq<Act>)
    requires Tracked(a, b, x) && Tracked(b, c, y)
    ensures Tracked(a, c, x + y)
  {
    hide Held, After;
    forall f ensures Held(c, f) == After(f, Held(a, f), x + y) { AfterConcat(f, Held(a, f), x, y); }
  }

  /** If only slot `i` has changed, only its machine is stored differently. */
  lemma HeldOther(a: seq<Slot>, b: seq<Slot>, i: nat, f: nat)
    requires SlotsOk(a) && SlotsOk(b) && i < SLOTS && (forall k :: 0 <= k < SLOTS && k != i ==> a[k] == b[k])
    requires (a[i].Used? ==> a[i].fsm != f) && (b[i].Used? ==> b[i].fsm != f)
    ensures Held(a, f) == Held(b, f)
  {
    if k :| 0 <= k < SLOTS && a[k].Used? && a[k].fsm == f {
      HeldAt(a, k);
      HeldAt(b, k);
    } else {
      assert Held(a, f) == None;
    }
  }

  /** A change of slot `i` that is the act of its machine. */
  lemma TrackedOne(a: seq<Slot>, b: seq<Slot>, i: nat, act: Act)
    requires SlotsOk(a) && SlotsOk(b) && i < SLOTS && b == a[i := b[i]]
    requires (a[i].Used? ==> a[i].fsm == act.fsm) && (b[i].Used? ==> b[i].fsm == act.fsm)
    requires Held(b, act.fsm) == Next(act.fsm, Held(a, act.fsm), act)
    ensures Tracked(a, b, [act])
  {
    hide Held;
    forall f ensures Held(b, f) == After(f, Held(a, f), [act]) {
      AfterOne(f, Held(a, f), act);
      if f != act.fsm { HeldOther(a, b, i, f); }
    }
  }

  lemma HeldNone(s: seq<Slot>, f: nat)
    requires forall i :: 0 <= i < |s| && s[i].Used? ==> s[i].fsm != f
    ensures Held(s, f) == None
  {
  }

  /** The on-stack flag is no part of what is stored. */
  lemma TrackedFlag(a: seq<Slot>, i: nat, on: bool)
    requires SlotsOk(a) && i < SLOTS && a[i].Used?
    ensures SlotsOk(a[i := a[i].(onStack := on)]) && Tracked(a, a[i := a[i].(onStack := on)], [])
  {
    var b := a[i := a[i].(onStack := on)];
    forall f ensures Held(b, f) == After(f, Held(a, f), []) {
      if f == a[i].fsm {
        HeldAt(a, i);
        HeldAt(b, i);
      } else {
        HeldOther(a, b, i, f);
      }
    }
  }

  // ---------------------------------------------------------------- the reference

  /** What became of one hook. */
  datatype Visit = Skipped | Ran(v: Verdict)

  /** Registered hooks, by machine, priority and state, and handlers, by machine and number of the call. */
  datatype Env = Env(hooks: (nat, nat, nat) -> Hook, behave: (nat, nat) -> Script)

  ghost predicate EnvOk(env: Env) {
    forall f, p, s :: env.hooks(f, p, s).Hook? ==> env.hooks(f, p, s).fsm < IDS
  }

  /** Blocked if a handler blocked or failed, else postponed if one postponed. */
  function Judgement(visits: seq<Visit>): Verdict {
    if Ran(Block) in visits || Ran(Other) in visits then Block
    else if Ran(Postpone) in visits then Postpone
    else Ok
  }

  ghost function Idle(stack: set<nat>): nat {
    |Ids(IDS) - stack|
  }

  lemma FewerIdle(stack: set<nat>, fsm: nat)
    requires fsm < IDS && fsm !in stack
    ensures Idle(stack + {fsm}) < Idle(stack)
  {
    hide Ids;
    var a, b := Ids(IDS) - (stack + {fsm}), Ids(IDS) - stack;
    assert fsm in b && a == b - {fsm};
  }

  /** What a handler of machine `fsm` returns, the number of calls after it and the acts on the way, when the
      machines in `stack` are at work.  There are no slots here: a machine is at work or it is not. */
  ghost function Handled(env: Env, stack: set<nat>, fsm: nat, script: Script, calls: nat): (Verdict, nat, seq<Act>)
    requires EnvOk(env)
    decreases Idle(stack), 1, script
  {
    match script
    case Done(r) => (r, calls, [])
    case Move(state, onOk, onBlock, onPostpone) =>
      var (visits, n, log) := Visits(env, stack, fsm, state % STATES, 0, calls);
      var m := Judgement(visits);
      var (r, k, more) := Handled(env, stack, fsm, if m == Ok then onOk else if m == Postpone then onPostpone else onBlock, n);
      (r, k, ([Moved(fsm, state % STATES)] + log) + more)
  }

  function MarkOf(h: Hook): Mark
    requires h.Hook?
  {
    Mark(h.prio, h.state % STATES)
  }

  /** What becomes of a hooked machine: passed over if it is at work, else run. */
  ghost function VisitOf(env: Env, stack: set<nat>, h: Hook, calls: nat): (Visit, nat, seq<Act>)
    requires EnvOk(env) && h.Hook? && h.fsm < IDS
    decreases Idle(stack), 0, 0
  {
    if h.fsm in stack then (Skipped, calls, [])
    else
      FewerIdle(stack, h.fsm);
      var (v, n, log) := Handled(env, stack + {h.fsm}, h.fsm, env.behave(h.fsm, calls + 1), calls + 1);
      (Ran(v), n, [Began(h.fsm, MarkOf(h))] + (log + [Ended(h.fsm)]))
  }

  /** What becomes of the hooks at a state from priority `p` on, and the number of calls after them: up to
      the first priority without a hook, or a handler that blocks or fails. */
  ghost function Visits(env: Env, stack: set<nat>, fsm: nat, state: nat, p: nat, calls: nat): (seq<Visit>, nat, seq<Act>)
    requires EnvOk(env) && p <= PRIORITIES
    decreases Idle(stack), 0, PRIORITIES - p
  {
    if p == PRIORITIES || env.hooks(fsm, p, state) == NoHook then ([], calls, [])
    else
      var (v, n, log) := VisitOf(env, stack, env.hooks(fsm, p, state), calls);
      if Stops(v) then ([v], n, log)
      else var (visits, k, more) := Visits(env, stack, fsm, state, p + 1, n); ([v] + visits, k, log + more)
  }

  predicate Stops(v: Visit) {
    v == Ran(Block) || v == Ran(Other)
  }

  /** With `visits` made by the acts in `log`, the rest makes up `all`. */
  ghost predicate Going(env: Env, stack: set<nat>, fsm: nat, state: nat, visits: seq<Visit>, calls: nat, log: seq<Act>,
                        all: (seq<Visit>, nat, seq<Act>)) {
    && EnvOk(env) && |visits| <= PRIORITIES
    && var (rest, n, more) := Visits(env, stack, fsm, state, |visits|, calls); all == (visits + rest, n, log + more)
  }

  lemma {:induction false} GoStart(env: Env, stack: set<nat>, fsm: nat, state: nat, calls: nat)
    requires EnvOk(env)
    ensures Going(env, stack, fsm, state, [], calls, [], Visits(env, stack, fsm, state, 0, calls))
  {
    var (rest, n, more) := Visits(env, stack, fsm, state, 0, calls);
    assert [] + rest == rest && [] + more == more;
  }

  lemma {:induction false} GoOn(env: Env, stack: set<nat>, fsm: nat, state: nat, visits: seq<Visit>, calls: nat, log: seq<Act>,
                                all: (seq<Visit>, nat, seq<Act>), v: Visit, n: nat, acts: seq<Act>)
    requires Going(env, stack, fsm, state, visits, calls, log, all) && |visits| < PRIORITIES && env.hooks(fsm, |visits|, state).Hook?
    requires (v, n, acts) == VisitOf(env, stack, env.hooks(fsm, |visits|, state), calls)
    ensures if Stops(v) then all == (visits + [v], n, log + acts) else Going(env, stack, fsm, state, visits + [v], n, log + acts, all)
  {
    hide VisitOf, Idle;
    if !Stops(v) {
      var (rest, k, more) := Visits(env, stack, fsm, state, |visits| + 1, n);
      assert visits + ([v] + rest) == (visits + [v]) + rest;
      assert log + (acts + more) == (log + acts) + more;
    }
  }

  lemma {:induction false} GoEnd(env: Env, stack: set<nat>, fsm: nat, state: nat, visits: seq<Visit>, calls: nat, log: seq<Act>,
                                 all: (seq<Visit>, nat, seq<Act>))
    requires Going(env, stack, fsm, state, visits, calls, log, all)
    requires |visits| == PRIORITIES || env.hooks(fsm, |visits|, state) == NoHook
    ensures all == (visits, calls, log)
  {
    assert visits + [] == visits && log + [] == log;
  }

  /** The machines at work according to the slots. */
  ghost function StackOf(s: seq<Slot>): set<nat> {
    set i | 0 <= i < |s| && OnStack(s[i]) :: s[i].fsm
  }

  lemma StackKept(a: seq<Slot>, b: seq<Slot>, but: int)
    requires Kept(a, b, but)
    requires 0 <= but < |a| ==> a[but].Used? && b[but].Used? && a[but].fsm == b[but].fsm && a[but].onStack == b[but].onStack
    ensures StackOf(a) == StackOf(b)
  {
    assert forall i :: 0 <= i < |a| ==> OnStack(a[i]) == OnStack(b[i]) && (OnStack(a[i]) ==> a[i].fsm == b[i].fsm);
  }

  lemma StackMark(s: seq<Slot>, i: nat)
    requires i < |s| && s[i].Used?
    ensures StackOf(s[i := s[i].(onStack := true)]) == StackOf(s) + {s[i].fsm}
  {
    var t := s[i := s[i].(onStack := true)];
    assert forall f :: f in StackOf(t) <==> f in StackOf(s) + {s[i].fsm} by {
      forall f ensures f in StackOf(t) <==> f in StackOf(s) + {s[i].fsm} {
        if f in StackOf(s) { var k :| 0 <= k < |s| && OnStack(s[k]) && s[k].fsm == f; assert OnStack(t[k]) && t[k].fsm == f; }
        if f in StackOf(t) { var k :| 0 <= k < |t| && OnStack(t[k]) && t[k].fsm == f; assert k == i || OnStack(s[k]); }
        assert OnStack(t[i]) && t[i].fsm == s[i].fsm;
      }
    }
  }

  class GState {
    const states: array<Slot>
    var curr: int
    var calls: nat
    const hooks: (nat, nat, nat) -> Hook      // by machine, priority and state
    const behave: (nat, nat) -> Script        // by machine and number of the call

    constructor (hooks: (nat, nat, nat) -> Hook, behave: (nat, nat) -> Script, fsm: nat, state: nat)
      requires fsm < IDS
      ensures SlotsOk(states[..]) && curr == 0 && fresh(states) && calls == 0
      ensures states[0] == Used(false, fsm, 0, state % STATES) && forall i :: 1 <= i < SLOTS ==> states[i] == Bad
      ensures this.hooks == hooks && this.behave == behave
    {
      this.hooks, this.behave := hooks, behave;
      states := new Slot[SLOTS](i => if i == 0 then Used(false, fsm, 0, state % STATES) else Bad);
      curr, calls := 0, 0;
    }

    ghost function World(): Env {
      Env(hooks, behave)
    }

    ghost predicate HooksOk() {
      EnvOk(World())
    }

    method Lookup(fsm: nat) returns (slot: int, free: int)
      requires SlotsOk(states[..]) && fsm < IDS
      ensures -1 <= slot < SLOTS && -1 <= free < SLOTS
      ensures slot >= 0 ==> states[slot].Used? && states[slot].fsm == fsm
      ensures slot < 0 ==> forall i :: 0 <= i < SLOTS && states[i].Used? ==> states[i].fsm != fsm
      ensures slot < 0 ==> free >= 0 && states[free] == Bad && forall i :: 0 <= i < free ==> states[i] != Bad
    {
      free := -1;
      for i := 0 to SLOTS
        invariant -1 <= free < i && (free >= 0 ==> states[free] == Bad)
        invariant forall k :: 0 <= k < (if free == -1 then i else free) ==> states[k] != Bad
        invariant forall k :: 0 <= k < i && states[k].Used? ==> states[k].fsm != fsm
      {
        if states[i].Used? && states[i].fsm == fsm {
          return i, free;
        }
        if free == -1 && states[i] == Bad {
          free := i;
        }
      }
      slot := -1;
      // there is room for every machine
      FreeSlot(states[..], fsm);
      assert free >= 0 by { var k :| 0 <= k < SLOTS && states[..][k] == Bad; assert states[k] == Bad; }
    }

    /** Make the machine hooked at `state` the current one; it gets a slot if it has none. */
    method Switch(h: Hook)
      requires SlotsOk(states[..]) && h.Hook? && h.fsm < IDS
      modifies `curr, states
      ensures SlotsOk(states[..]) && 0 <= curr < SLOTS && states[curr].Used? && states[curr].fsm == h.fsm
      ensures Kept(old(states[..]), states[..], -1)
      ensures forall i :: 0 <= i < SLOTS && (i != curr || old(states[..])[i].Used?) ==> states[i] == old(states[..])[i]
      ensures !old(states[..])[curr].Used? ==> states[curr] == Used(false, h.fsm, h.prio, h.state % STATES)
      ensures Tracked(old(states[..]), states[..], if OnStack(states[curr]) then [] else [Began(h.fsm, MarkOf(h))])
    {
      hide Tracked, Held;
      ghost var was := states[..];
      var free;
      curr, free := Lookup(h.fsm);
      if curr < 0 {
        curr := free;
        states[curr] := Used(false, h.fsm, h.prio, h.state % STATES);
        HeldNone(was, h.fsm);
      }
      HeldAt(states[..], curr);
      if OnStack(states[curr]) {
        TrackedNone(was);
      } else {
        TrackedOne(was, states[..], curr, Began(h.fsm, MarkOf(h)));
      }
    }

    /** Run the handler of a machine that is not on the stack. */
    method Exec(fsm: nat) returns (r: Verdict)
      requires SlotsOk(states[..]) && HooksOk() && fsm < IDS
      requires exists i :: 0 <= i < SLOTS && states[i].Used? && states[i].fsm == fsm && !states[i].onStack
      modifies this, states
      ensures SlotsOk(states[..]) && Kept(old(states[..]), states[..], -1)
      ensures var (v, n, log) := Handled(World(), StackOf(old(states[..])) + {fsm}, fsm, behave(fsm, old(calls) + 1), old(calls) + 1);
        r == v && calls == n && Tracked(old(states[..]), states[..], log + [Ended(fsm)])
      ensures if Held(states[..], fsm) == None then curr == -1 else 0 <= curr < SLOTS && states[curr].Used? && states[curr].fsm == fsm
      decreases SLOTS - Count(states[..]), 0
    {
      hide Handled, Visits, Idle, StackOf, Count, Kept, Tracked, Held;
      CountBound(states[..]);
      ghost var was := states[..];
      var slot, dummy := Lookup(fsm);
      curr := slot;
      assert !OnStack(states[slot]);
      states[slot] := states[slot].(onStack := true);
      ghost var marked := states[..];
      assert marked == was[slot := was[slot].(onStack := true)];
      CountMark(was, slot, marked[slot]);
      StackMark(was, slot);
      StackedAt(was, slot);
      CountBound(marked);
      calls := calls + 1;
      TrackedFlag(was, slot, true);
      ghost var log := Handled(World(), StackOf(marked), fsm, behave(fsm, calls), calls).2;
      r := Run(behave(fsm, calls));
      ghost var ran := states[..];
      TrackedTrans(was, marked, ran, [], log);
      assert [] + log == log;
      if states[slot].state == LAST {
        // the handler has come back to its own slot
        assert curr == slot;
        states[curr] := Bad;
        curr := -1;
      } else {
        states[slot] := states[slot].(onStack := false);
      }
      OffStack(was, marked, ran, states[..], slot);
      if ran[slot].state == LAST { HeldNone(states[..], fsm); } else { HeldAt(states[..], slot); }
      LeftTracked(ran, states[..], slot);
      TrackedTrans(was, ran, states[..], log, [Ended(fsm)]);
    }

    /** The handler at work in the current slot. */
    method Run(script: Script) returns (r: Verdict)
      requires SlotsOk(states[..]) && HooksOk() && 0 <= curr < SLOTS && OnStack(states[curr])
      modifies this, states
      ensures SlotsOk(states[..]) && curr == old(curr) && OnStack(states[curr]) && states[curr].fsm == old(states[curr].fsm)
      ensures Kept(old(states[..]), states[..], curr)
      ensures var (v, n, log) := Handled(World(), StackOf(old(states[..])), old(states[curr].fsm), script, old(calls));
        r == v && calls == n && Tracked(old(states[..]), states[..], log)
      decreases SLOTS - Count(states[..]), 2, script
    {
      hide Visits, Idle, Tracked;
      CountBound(states[..]);
      match script
      case Done(v) =>
        TrackedNone(states[..]);
        r := v;
      case Move(state, onOk, onBlock, onPostpone) =>
        ghost var was := states[..];
        var m, visits := Move(state);
        ghost var n := calls;
        CountSame(was, states[..]);
        CountBound(states[..]);
        StackKept(was, states[..], curr);
        ghost var mid := states[..];
        r := Run(if m == Ok then onOk else if m == Postpone then onPostpone else onBlock);
        KeptTrans(was, mid, states[..], curr);
        ghost var me, stack := was[curr].fsm, StackOf(was);
        TrackedTrans(was, mid, states[..], [Moved(me, state % STATES)] + Visits(World(), stack, me, state % STATES, 0, old(calls)).2,
                     Handled(World(), stack, me, if m == Ok then onOk else if m == Postpone then onPostpone else onBlock, n).2);
    }

    /** Switch to a hooked machine and run it, unless it is on the call stack already. */
    method Follow(h: Hook) returns (v: Visit)
      requires SlotsOk(states[..]) && HooksOk() && h.Hook? && h.fsm < IDS
      modifies this, states
      ensures SlotsOk(states[..]) && Kept(old(states[..]), states[..], -1)
      ensures var (x, n, log) := VisitOf(World(), StackOf(old(states[..])), h, old(calls));
        v == x && calls == n && Tracked(old(states[..]), states[..], log)
      decreases SLOTS - Count(states[..]), 1, 0
    {
      hide Handled, Visits, Idle, Tracked;
      ghost var was := states[..];
      Switch(h);
      ghost var mid := states[..];
      CountSame(was, mid);
      StackKept(was, mid, -1);
      StackedAt(mid, curr);
      if states[curr].onStack {
        return Skipped;
      }
      var r := Exec(h.fsm);
      ghost var log := Handled(World(), StackOf(was) + {h.fsm}, h.fsm, behave(h.fsm, old(calls) + 1), old(calls) + 1).2;
      TrackedTrans(was, mid, states[..], [Began(h.fsm, MarkOf(h))], log + [Ended(h.fsm)]);
      KeptTrans(was, mid, states[..], -1);
      v := Ran(r);
    }

    /** Move the current machine to `state` and run what is hooked there, highest priority first, up to
        the first priority without a hook.  Machines on the call stack are not run again. */
    method Move(state: nat) returns (r: Verdict, ghost visits: seq<Visit>)
      requires SlotsOk(states[..]) && HooksOk() && 0 <= curr < SLOTS && states[curr].Used?
      modifies this, states
      ensures SlotsOk(states[..]) && curr == old(curr)
      ensures var (all, n, log) := Visits(World(), StackOf(old(states[..])), old(states[curr].fsm), state % STATES, 0, old(calls));
        visits == all && calls == n && Tracked(old(states[..]), states[..], [Moved(old(states[curr].fsm), state % STATES)] + log)
      ensures r == Judgement(visits)
      ensures Kept(old(states[..]), states[..], curr) && OnStack(states[curr]) == old(OnStack(states[curr]))
      ensures OnStack(states[curr]) ==> states[curr] == old(states[curr]).(state := state % STATES)
      decreases SLOTS - Count(states[..]), 1, 1
    {
      hide Going, Judgement, StackOf, Kept, Count, OnStack, Visits, VisitOf, Handled, Idle, Tracked;
      var me, c := states[curr].fsm, curr;
      ghost var was := states[..];
      states[c] := states[c].(state := state % STATES);
      ghost var moved, stack := states[..], StackOf(was);
      MovedKept(was, moved, c, state % STATES);
      MovedTracked(was, moved, c, state % STATES);
      ghost var log: seq<Act> := [];
      TrackedNone(moved);
      StackKept(was, moved, c);
      ghost var all := Visits(World(), stack, me, state % STATES, 0, calls);
      GoStart(World(), stack, me, state % STATES, calls);
      NoVisits();
      r, visits := Ok, [];
      var p := 0;
      while p < PRIORITIES
        invariant SlotsOk(states[..]) && Kept(moved, states[..], -1) && r == Judgement(visits) && r != Block
        invariant p == |visits| <= PRIORITIES && Going(World(), stack, me, state % STATES, visits, calls, log, all)
        invariant Tracked(moved, states[..], log)
        decreases PRIORITIES - p
      {
        var h := hooks(me, p, state % STATES);
        if h == NoHook {
          break;
        }
        ghost var before, n := states[..], calls;
        KeptCount(moved, before);
        StackKept(moved, before, -1);
        var v := Follow(h);
        KeptTrans(moved, before, states[..], -1);
        ghost var acts := VisitOf(World(), stack, h, n).2;
        GoOn(World(), stack, me, state % STATES, visits, n, log, all, v, calls, acts);
        TrackedTrans(moved, before, states[..], log, acts);
        log := log + acts;
        NextVisit(visits, v);
        visits := visits + [v];
        p := p + 1;
        if v == Ran(Block) || v == Ran(Other) {
          r := Block;
          break;
        }
        if v == Ran(Postpone) {
          r := Postpone;
        }
      }
      if r != Block { GoEnd(World(), stack, me, state % STATES, visits, calls, log, all); }
      TrackedTrans(was, moved, states[..], [Moved(me, state % STATES)], log);
      curr := c;
      KeptMoved(was, moved, states[..], c);
    }
  }

  /** A machine that has come back from its handler is off the stack again. */
  lemma OffStack(was: seq<Slot>, marked: seq<Slot>, ran: seq<Slot>, now: seq<Slot>, i: nat)
    requires |was| == SLOTS && i < SLOTS && was[i].Used? && !was[i].onStack && marked == was[i := was[i].(onStack := true)]
    requires SlotsOk(ran) && Kept(marked, ran, i) && ran[i].Used?
    requires now == ran[i := Bad] || now == ran[i := ran[i].(onStack := false)]
    ensures SlotsOk(now) && Kept(was, now, -1)
  {
  }

  /** And what is stored for it is what it has come to, or nothing in the last state. */
  lemma LeftTracked(ran: seq<Slot>, now: seq<Slot>, i: nat)
    requires SlotsOk(ran) && SlotsOk(now) && i < SLOTS && ran[i].Used?
    requires now == if ran[i].state == LAST then ran[i := Bad] else ran[i := ran[i].(onStack := false)]
    ensures Tracked(ran, now, [Ended(ran[i].fsm)])
  {
    hide Tracked, Held;
    HeldAt(ran, i);
    if ran[i].state == LAST { HeldNone(now, ran[i].fsm); } else { HeldAt(now, i); }
    TrackedOne(ran, now, i, Ended(ran[i].fsm));
  }

  lemma MovedTracked(a: seq<Slot>, b: seq<Slot>, c: nat, state: nat)
    requires SlotsOk(a) && SlotsOk(b) && c < |a| && a[c].Used? && b == a[c := a[c].(state := state)]
    ensures Tracked(a, b, [Moved(a[c].fsm, state)])
  {
    hide Tracked, Held;
    HeldAt(a, c);
    HeldAt(b, c);
    TrackedOne(a, b, c, Moved(a[c].fsm, state));
  }

  lemma StackedAt(s: seq<Slot>, i: nat)
    requires SlotsOk(s) && i < |s| && s[i].Used?
    ensures s[i].fsm in StackOf(s) <==> s[i].onStack
  {
  }

  lemma {:induction false} MovedKept(a: seq<Slot>, b: seq<Slot>, c: nat, state: nat)
    requires c < |a| && a[c].Used? && b == a[c := a[c].(state := state)]
    ensures Kept(a, b, c) && Kept(b, b, -1) && Count(b) == Count(a) && OnStack(b[c]) == OnStack(a[c])
    ensures SlotsOk(a) && state < STATES ==> SlotsOk(b)
  {
    CountSame(a, b);
  }

  lemma {:induction false} KeptCount(a: seq<Slot>, b: seq<Slot>)
    requires Kept(a, b, -1)
    ensures Count(a) == Count(b)
  {
    CountSame(a, b);
  }

  lemma KeptMoved(a: seq<Slot>, b: seq<Slot>, now: seq<Slot>, c: nat)
    requires Kept(a, b, c) && Kept(b, now, -1) && c < |a| && OnStack(a[c]) == OnStack(b[c])
    ensures Kept(a, now, c) && OnStack(now[c]) == OnStack(a[c]) && (OnStack(now[c]) ==> now[c] == b[c])
  {
  }

  /** The hooks from priority `p` on are visited in turn; exactly the machines at work are passed over; and
      the visits end at the first priority without a hook, after the last one, or with a handler that blocks
      or fails. */
  ghost predicate InTurn(env: Env, stack: set<nat>, fsm: nat, state: nat, p: nat, visits: seq<Visit>) {
    && p + |visits| <= PRIORITIES
    && (forall i :: 0 <= i < |visits| ==> HookVisited(env.hooks(fsm, p + i, state), stack, visits[i]))
    && (forall i :: 0 <= i < |visits| - 1 ==> !Stops(visits[i]))
    && (Judgement(visits) == Block <==> visits != [] && Stops(visits[|visits| - 1]))
    && (Judgement(visits) != Block ==> p + |visits| == PRIORITIES || env.hooks(fsm, p + |visits|, state) == NoHook)
  }

  predicate HookVisited(h: Hook, stack: set<nat>, v: Visit) {
    h.Hook? && (v.Skipped? <==> h.fsm in stack)
  }

  lemma {:induction false} VisitsInTurn(env: Env, stack: set<nat>, fsm: nat, state: nat, p: nat, calls: nat)
    requires EnvOk(env) && p <= PRIORITIES
    ensures InTurn(env, stack, fsm, state, p, Visits(env, stack, fsm, state, p, calls).0)
    decreases PRIORITIES - p
  {
    hide Handled, Idle, InTurn;
    if p == PRIORITIES || env.hooks(fsm, p, state) == NoHook {
      TurnOver(env, stack, fsm, state, p);
    } else {
      var (v, n, log) := VisitOf(env, stack, env.hooks(fsm, p, state), calls);
      if !Stops(v) { VisitsInTurn(env, stack, fsm, state, p + 1, n); }
      TurnBefore(env, stack, fsm, state, p, v, Visits(env, stack, fsm, state, p + 1, n).0);
    }
  }

  lemma TurnOver(env: Env, stack: set<nat>, fsm: nat, state: nat, p: nat)
    requires p == PRIORITIES || (p < PRIORITIES && env.hooks(fsm, p, state) == NoHook)
    ensures InTurn(env, stack, fsm, state, p, [])
  {
  }

  lemma TurnBefore(env: Env, stack: set<nat>, fsm: nat, state: nat, p: nat, v: Visit, rest: seq<Visit>)
    requires p < PRIORITIES && HookVisited(env.hooks(fsm, p, state), stack, v)
    requires !Stops(v) ==> InTurn(env, stack, fsm, state, p + 1, rest)
    ensures InTurn(env, stack, fsm, state, p, if Stops(v) then [v] else [v] + rest)
  {
    hide HookVisited;
    if !Stops(v) {
      var visits := [v] + rest;
      FirstVisit(v, rest);
      forall i | 0 <= i < |visits| ensures HookVisited(env.hooks(fsm, p + i, state), stack, visits[i]) {
        if i > 0 { assert HookVisited(env.hooks(fsm, p + 1 + (i - 1), state), stack, rest[i - 1]); }
      }
    }
  }

  // ---------------------------------------------------------------- what a call leaves in a slot

  /** The state machine `f` has moved to last; `s` if it has not moved. */
  function LastMoved(f: nat, s: nat, log: seq<Act>): nat
    decreases log
  {
    if log == [] then s else LastMoved(f, if log[0].Moved? && log[0].fsm == f then log[0].state else s, log[1..])
  }

  predicate MovesOnly(f: nat, log: seq<Act>) {
    forall i :: 0 <= i < |log| && log[i].fsm == f ==> log[i].Moved?
  }

  predicate NoActs(f: nat, log: seq<Act>) {
    forall i :: 0 <= i < |log| ==> log[i].fsm != f
  }

  lemma {:induction false} AfterMoves(f: nat, m: Mark, log: seq<Act>)
    requires MovesOnly(f, log)
    ensures After(f, Some(m), log) == Some(m.(state := LastMoved(f, m.state, log)))
    decreases log
  {
    if log != [] {
      assert MovesOnly(f, log[1..]);
      AfterMoves(f, if log[0].fsm == f then m.(state := log[0].state) else m, log[1..]);
    }
  }

  /** A machine that does nothing is stored as before. */
  lemma {:induction false} AfterNone(f: nat, m: Option<Mark>, log: seq<Act>)
    requires NoActs(f, log)
    ensures After(f, m, log) == m
    decreases log
  {
    if log != [] { AfterNone(f, m, log[1..]); }
  }

  /** Machines at work do nothing in the meantime; the one whose handler is running moves and does nothing else. */
  lemma {:induction false} HandledActs(env: Env, stack: set<nat>, fsm: nat, script: Script, calls: nat, f: nat)
    requires EnvOk(env) && f in stack
    ensures var log := Handled(env, stack, fsm, script, calls).2; MovesOnly(f, log) && (f != fsm ==> NoActs(f, log))
    decreases Idle(stack), 1, script
  {
    match script
    case Done(_) =>
    case Move(state, onOk, onBlock, onPostpone) =>
      var (visits, n, log) := Visits(env, stack, fsm, state % STATES, 0, calls);
      var m := Judgement(visits);
      VisitsActs(env, stack, fsm, state % STATES, 0, calls, f);
      HandledActs(env, stack, fsm, if m == Ok then onOk else if m == Postpone then onPostpone else onBlock, n, f);
  }

  lemma {:induction false} VisitActs(env: Env, stack: set<nat>, h: Hook, calls: nat, f: nat)
    requires EnvOk(env) && h.Hook? && h.fsm < IDS && f in stack
    ensures NoActs(f, VisitOf(env, stack, h, calls).2)
    decreases Idle(stack), 0, 0
  {
    hide Handled, Idle;
    if h.fsm !in stack {
      FewerIdle(stack, h.fsm);
      HandledActs(env, stack + {h.fsm}, h.fsm, env.behave(h.fsm, calls + 1), calls + 1, f);
    }
  }

  lemma {:induction false} VisitsActs(env: Env, stack: set<nat>, fsm: nat, state: nat, p: nat, calls: nat, f: nat)
    requires EnvOk(env) && p <= PRIORITIES && f in stack
    ensures NoActs(f, Visits(env, stack, fsm, state, p, calls).2)
    decreases Idle(stack), 0, PRIORITIES - p
  {
    if p < PRIORITIES && env.hooks(fsm, p, state).Hook? {
      var (v, n, log) := VisitOf(env, stack, env.hooks(fsm, p, state), calls);
      VisitActs(env, stack, env.hooks(fsm, p, state), calls, f);
      if !Stops(v) { VisitsActs(env, stack, fsm, state, p + 1, n, f); }
    }
  }

  /** After a call a machine is forgotten exactly if it has come to the last state; else it is stored in the
      state it moved to last, or the one it had before, or the one the hook begins with. */
  lemma {:induction false} SlotLeft(env: Env, stack: set<nat>, h: Hook, calls: nat, m: Option<Mark>)
    requires EnvOk(env) && h.Hook? && h.fsm < IDS && h.fsm !in stack
    ensures var log := VisitOf(env, stack, h, calls).2;
      var first := if m == None then MarkOf(h) else m.value;
      var s := LastMoved(h.fsm, first.state, log);
      After(h.fsm, m, log) == if s == LAST then None else Some(first.(state := s))
  {
    hide Handled;
    var f, first := h.fsm, if m == None then MarkOf(h) else m.value;
    var log := Handled(env, stack + {f}, f, env.behave(f, calls + 1), calls + 1).2;
    HandledActs(env, stack + {f}, f, env.behave(f, calls + 1), calls + 1, f);
    var acts := [Began(f, MarkOf(h))] + (log + [Ended(f)]);
    assert acts[1..] == log + [Ended(f)];
    AfterMoves(f, first, log);
    AfterConcat(f, Some(first), log, [Ended(f)]);
    AfterOne(f, After(f, Some(first), log), Ended(f));
    LastMovedEnd(f, first.state, log);
  }

  lemma {:induction false} LastMovedEnd(f: nat, s: nat, log: seq<Act>)
    ensures LastMoved(f, s, log + [Ended(f)]) == LastMoved(f, s, log)
    decreases log
  {
    if log == [] {
      assert [Ended(f)][1..] == [];
    } else {
      assert (log + [Ended(f)])[1..] == log[1..] + [Ended(f)];
      LastMovedEnd(f, if log[0].Moved? && log[0].fsm == f then log[0].state else s, log[1..]);
    }
  }

  lemma FirstVisit(v: Visit, rest: seq<Visit>)
    requires !Stops(v)
    ensures Judgement([v] + rest) == Block <==> Judgement(rest) == Block
  {
    assert forall x :: x in [v] + rest <==> x == v || x in rest;
  }

  lemma NoVisits()
    ensures Judgement([]) == Ok
  {
  }

  lemma NextVisit(visits: seq<Visit>, v: Visit)
    requires Judgement(visits) != Block
    ensures Judgement(visits + [v]) == if Stops(v) then Block else if v == Ran(Postpone) then Postpone else Judgement(visits)
  {
  }
}
