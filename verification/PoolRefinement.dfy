/** The pool with its locks (PoolLocks) refines the atomic pool (BufferPool): every operation of a
    thread has one step at which it takes effect, and what the steps of all threads do together is
    the run of these effects. */
module PoolRefinement {
  import Atomic = BufferPool
  import opened PoolLocks

  /** The use count as the operations that took effect left it: a space just unlinked counts as used
      although its lock is not yet set, and one just listed as unused although the drop has not yet
      written the count. */
  ghost function Uses(s: State, b: nat): int
    requires b < |s.use|
  {
    if b in s.free then 0 else if BeingSet(s.pcs, b) then 1 else s.use[b].value
  }

  ghost function Abstract(s: State, limit: int): Atomic.Pool
    requires Inv(s, limit)
  {
    Atomic.Pool(s.have.value, s.free, s.limit, s.made, seq(s.made, b requires 0 <= b < s.made => Uses(s, b)))
  }

  /** What the step of a thread does to the atomic pool, if it is the one at which its operation takes
      effect: unlinking a space or making one, listing a space or only counting down, counting up. */
  function Effect(s: State, step: Step): seq<Atomic.Op> {
    if !step.Go? || step.t >= |s.pcs| then [] else
    match s.pcs[step.t]
    case GetHave => if s.free == [] then [Atomic.Take] else []
    case GetPop(_) => [Atomic.Take]
    case DropPush(b) => [Atomic.Return(b)]
    case DropDec(b) => if b in s.free then [] else [Atomic.Return(b)]
    case ShareInc(b) => [Atomic.Share(b)]
    case _ => []
  }

  /** The thread is in an operation that took effect. */
  predicate Effected(s: State, t: nat)
    requires t < |s.pcs|
  {
    match s.pcs[t]
    case GetSet(_) => true
    case DropDec(b) => b in s.free
    case _ => false
  }

  lemma SetAlone(s: State, t: nat, limit: int)
    requires Inv(s, limit) && t < |s.pcs| && HasSpace(s.pcs[t]) && HoldsUse(s.pcs[t], s.pcs[t].b)
    ensures forall u :: 0 <= u < |s.pcs| && u != t ==> !HoldsUse(s.pcs[u], s.pcs[t].b)
    ensures BeingSet(s.pcs, s.pcs[t].b) <==> s.pcs[t].GetSet?
  {
    var b := s.pcs[t].b;
    assert s.use[b].holder == t;
    if BeingSet(s.pcs, b) {
      var u :| 0 <= u < |s.pcs| && s.pcs[u] == GetSet(b);
      assert HoldsUse(s.pcs[u], b);
    }
  }

  /** Only a thread at GetSet has its space being set. */
  lemma BeingSetAfter(s: State, step: Step, limit: int, b: nat)
    requires Inv(s, limit) && Enabled(s, step) && !Next(s, step).failed
    requires s.pcs[step.t] != GetSet(b) && Next(s, step).pcs[step.t] != GetSet(b)
    ensures BeingSet(Next(s, step).pcs, b) <==> BeingSet(s.pcs, b)
  {
    var n := Next(s, step);
    assert forall u :: 0 <= u < |s.pcs| && u != step.t ==> n.pcs[u] == s.pcs[u];
    if BeingSet(s.pcs, b) {
      var u :| 0 <= u < |s.pcs| && s.pcs[u] == GetSet(b);
      assert n.pcs[u] == GetSet(b);
    }
  }

  /** Nothing that the abstract pool shows is different. */
  ghost predicate Quiet(s: State, n: State, t: nat) {
    && t < |s.pcs| == |n.pcs| && n.pcs == s.pcs[t := n.pcs[t]] && !s.pcs[t].GetSet? && !n.pcs[t].GetSet?
    && n.free == s.free && n.made == s.made && n.limit == s.limit && n.have.value == s.have.value
    && |n.use| == |s.use| == s.made && forall b: nat :: b < |s.use| ==> n.use[b].value == s.use[b].value
  }

  lemma QuietSame(s: State, n: State, t: nat, limit: int)
    requires Inv(s, limit) && Inv(n, limit) && Quiet(s, n, t)
    ensures Abstract(n, limit) == Abstract(s, limit)
  {
    forall c: nat | c < s.made ensures Uses(n, c) == Uses(s, c) {
      assert forall u :: 0 <= u < |s.pcs| && u != t ==> n.pcs[u] == s.pcs[u];
      assert BeingSet(n.pcs, c) <==> BeingSet(s.pcs, c) by {
        if BeingSet(s.pcs, c) {
          var u :| 0 <= u < |s.pcs| && s.pcs[u] == GetSet(c);
          assert n.pcs[u] == GetSet(c);
        }
      }
    }
  }

  /** A step that leaves the list, the counts and GetSet alone. */
  lemma QuietRefines(s: State, step: Step, limit: int)
    requires Inv(s, limit) && Enabled(s, step) && Inv(Next(s, step), limit) && Effect(s, step) == []
    requires step.Go? ==> !s.pcs[step.t].GetSet? && !s.pcs[step.t].DropDec?
    ensures Abstract(Next(s, step), limit) == Abstract(s, limit)
  {
    assert Quiet(s, Next(s, step), step.t);
    QuietSame(s, Next(s, step), step.t, limit);
  }

  lemma SetRefines(s: State, t: nat, limit: int)
    requires Inv(s, limit) && t < |s.pcs| && s.pcs[t].GetSet? && Inv(Next(s, Go(t)), limit)
    ensures Abstract(Next(s, Go(t)), limit) == Abstract(s, limit)
  {
    var n, b := Next(s, Go(t)), s.pcs[t].b;
    SetAlone(s, t, limit);
    assert Names(s.pcs[t], b);
    forall u | 0 <= u < |n.pcs| ensures n.pcs[u] != GetSet(b) {
      assert u != t ==> !HoldsUse(s.pcs[u], b);
    }
    forall c: nat | c < s.made && c != b ensures Uses(n, c) == Uses(s, c) { BeingSetAfter(s, Go(t), limit, c); }
  }

  lemma PopRefines(s: State, t: nat, limit: int)
    requires Inv(s, limit) && t < |s.pcs| && s.pcs[t].GetPop? && Inv(Next(s, Go(t)), limit)
    ensures var p := Abstract(s, limit);
            && Atomic.Legal(p, Atomic.Take) && Atomic.Get(p).1 == s.pcs[t].b
            && Abstract(Next(s, Go(t)), limit) == Atomic.Get(p).0
  {
    var n, b := Next(s, Go(t)), s.pcs[t].b;
    assert s.free[0] == b;
    assert n.pcs[t] == GetSet(b);
    assert forall c :: c in s.free <==> c in n.free || c == b;
    assert b !in n.free;
    forall c: nat | c < s.made && c != b ensures Uses(n, c) == Uses(s, c) { BeingSetAfter(s, Go(t), limit, c); }
  }

  lemma NewRefines(s: State, t: nat, limit: int)
    requires Inv(s, limit) && t < |s.pcs| && s.pcs[t].GetHave? && s.free == [] && Inv(Next(s, Go(t)), limit)
    ensures var p, n := Abstract(s, limit), Next(s, Go(t));
            && Atomic.Legal(p, Atomic.Take) && Abstract(n, limit) == Atomic.Get(p).0
            && Atomic.Get(p).1 == s.made && n.refs == s.refs + [1]
  {
    var n := Next(s, Go(t));
    assert forall u :: 0 <= u < |s.pcs| ==> s.pcs[u] != GetSet(s.made);
    forall c: nat | c < n.made ensures Uses(n, c) == if c < s.made then Uses(s, c) else 1 {
      BeingSetAfter(s, Go(t), limit, c);
    }
  }

  lemma PushRefines(s: State, t: nat, limit: int)
    requires Inv(s, limit) && t < |s.pcs| && s.pcs[t].DropPush? && Inv(Next(s, Go(t)), limit)
    ensures var p, b := Abstract(s, limit), s.pcs[t].b;
            Atomic.Legal(p, Atomic.Return(b)) && Abstract(Next(s, Go(t)), limit) == Atomic.Drop(p, b)
  {
    var n, b := Next(s, Go(t)), s.pcs[t].b;
    SetAlone(s, t, limit);
    PushedAlone(s, t, limit);
    assert forall c :: c in n.free <==> c in s.free || c == b;
    forall c: nat | c < s.made && c != b ensures Uses(n, c) == Uses(s, c) { BeingSetAfter(s, Go(t), limit, c); }
  }

  /** The end of a drop takes effect unless the drop listed the space. */
  lemma DecRefines(s: State, t: nat, limit: int)
    requires Inv(s, limit) && t < |s.pcs| && s.pcs[t].DropDec? && Inv(Next(s, Go(t)), limit)
    ensures var p, n, b := Abstract(s, limit), Abstract(Next(s, Go(t)), limit), s.pcs[t].b;
            if b in s.free then n == p else Atomic.Legal(p, Atomic.Return(b)) && n == Atomic.Drop(p, b)
  {
    var n, b := Next(s, Go(t)), s.pcs[t].b;
    SetAlone(s, t, limit);
    SpendingMember(s.pcs, b);
    forall c: nat | c < s.made ensures BeingSet(n.pcs, c) <==> BeingSet(s.pcs, c) { BeingSetAfter(s, Go(t), limit, c); }
  }

  lemma ShareRefines(s: State, t: nat, limit: int)
    requires Inv(s, limit) && t < |s.pcs| && s.pcs[t].ShareInc? && Inv(Next(s, Go(t)), limit)
    ensures var p, b := Abstract(s, limit), s.pcs[t].b;
            Atomic.Legal(p, Atomic.Share(b)) && Abstract(Next(s, Go(t)), limit) == Atomic.Use(p, b)
  {
    var n, b := Next(s, Go(t)), s.pcs[t].b;
    SetAlone(s, t, limit);
    SpendingMember(s.pcs, b);
    assert Names(s.pcs[t], b) && Spends(s.pcs[t], b);
    forall c: nat | c < s.made ensures BeingSet(n.pcs, c) <==> BeingSet(s.pcs, c) { BeingSetAfter(s, Go(t), limit, c); }
  }

  lemma StutterRefines(s: State, step: Step, limit: int)
    requires Inv(s, limit) && Enabled(s, step) && Inv(Next(s, step), limit) && Effect(s, step) == []
    ensures Abstract(Next(s, step), limit) == Abstract(s, limit)
  {
    if step.Go? && s.pcs[step.t].GetSet? { SetRefines(s, step.t, limit); }
    else if step.Go? && s.pcs[step.t].DropDec? { DecRefines(s, step.t, limit); }
    else { QuietRefines(s, step, limit); }
  }

  lemma EffectRefines(s: State, step: Step, limit: int)
    requires Inv(s, limit) && Enabled(s, step) && Inv(Next(s, step), limit) && Effect(s, step) != []
    ensures var p, op := Abstract(s, limit), Effect(s, step)[0];
            |Effect(s, step)| == 1 && Atomic.Legal(p, op) && Abstract(Next(s, step), limit) == Atomic.Apply(p, op)
  {
    match s.pcs[step.t] {
      case GetHave => NewRefines(s, step.t, limit);
      case GetPop(_) => PopRefines(s, step.t, limit);
      case DropPush(_) => PushRefines(s, step.t, limit);
      case DropDec(_) => DecRefines(s, step.t, limit);
      case ShareInc(_) => ShareRefines(s, step.t, limit);
    }
  }

  lemma OneOp(p: Atomic.Pool, op: Atomic.Op)
    requires Atomic.Legal(p, op)
    ensures Atomic.Run(p, [op], Atomic.Apply(p, op))
  {
    assert Atomic.Run(Atomic.Apply(p, op), [], Atomic.Apply(p, op));
  }

  /** A step of the locked pool is its effect on the atomic one. */
  lemma StepRefines(s: State, step: Step, limit: int)
    requires Inv(s, limit) && Enabled(s, step)
    ensures Inv(Next(s, step), limit) && Atomic.Run(Abstract(s, limit), Effect(s, step), Abstract(Next(s, step), limit))
  {
    StepKeeps(s, step, limit);
    if Effect(s, step) == [] { StutterRefines(s, step, limit); } else {
      EffectRefines(s, step, limit);
      OneOp(Abstract(s, limit), Effect(s, step)[0]);
      assert Effect(s, step) == [Effect(s, step)[0]];
    }
  }

  /** An operation takes effect once: its thread is not behind an effect when it has one, is behind it
      afterwards or at its end, and gets to the end only so. */
  lemma EffectOnce(s: State, step: Step, limit: int)
    requires Inv(s, limit) && Enabled(s, step)
    ensures var n := Next(s, step);
            && |Effect(s, step)| <= 1 && |n.pcs| == |s.pcs|
            && (Effect(s, step) != [] ==> !Effected(s, step.t) && (n.pcs[step.t].Idle? || Effected(n, step.t)))
            && (Effect(s, step) == [] && !n.pcs[step.t].Idle? ==> !Effected(s, step.t) && !Effected(n, step.t))
            && (n.pcs[step.t].Idle? ==> Effected(s, step.t) || Effect(s, step) != [])
  {
    NoFailure(s, step, limit);
  }

  /** A step of one thread does not put another behind its effect, nor back. */
  lemma EffectsApart(s: State, step: Step, limit: int, u: nat)
    requires Inv(s, limit) && Enabled(s, step) && u < |s.pcs| && u != step.t
    ensures var n := Next(s, step); |n.pcs| == |s.pcs| && n.pcs[u] == s.pcs[u] && (Effected(n, u) <==> Effected(s, u))
  {
    if s.pcs[u].DropDec? {
      SetAlone(s, u, limit);
      assert HoldsUse(s.pcs[u], s.pcs[u].b);
    }
  }

  lemma {:induction false} RunsJoin(p: Atomic.Pool, xs: seq<Atomic.Op>, q: Atomic.Pool, ys: seq<Atomic.Op>, r: Atomic.Pool)
    requires Atomic.Run(p, xs, q) && Atomic.Run(q, ys, r)
    ensures Atomic.Run(p, xs + ys, r)
    decreases |xs|
  {
    if xs == [] {
      assert xs + ys == ys;
    } else {
      assert (xs + ys)[0] == xs[0] && (xs + ys)[1..] == xs[1..] + ys;
      RunsJoin(Atomic.Apply(p, xs[0]), xs[1..], q, ys, r);
    }
  }

  /** The effects of the first k steps of a run, in order. */
  function Effects(states: seq<State>, steps: seq<Step>, k: nat): seq<Atomic.Op>
    requires k <= |steps| < |states|
  {
    if k == 0 then [] else Effects(states, steps, k - 1) + Effect(states[k - 1], steps[k - 1])
  }

  /** The state is that of the atomic pool after these operations. */
  ghost predicate Refined(s: State, ops: seq<Atomic.Op>, limit: int) {
    Inv(s, limit) && Atomic.Run(Atomic.Create(limit), ops, Abstract(s, limit))
  }

  lemma RefinedNext(s: State, ops: seq<Atomic.Op>, step: Step, limit: int)
    requires Refined(s, ops, limit) && Enabled(s, step)
    ensures Refined(Next(s, step), ops + Effect(s, step), limit)
  {
    StepRefines(s, step, limit);
    RunsJoin(Atomic.Create(limit), ops, Abstract(s, limit), Effect(s, step), Abstract(Next(s, step), limit));
  }

  lemma RefinedInit(threads: nat, limit: int)
    requires limit >= -1
    ensures Refined(Init(threads, limit), [], limit)
  {
    InitInv(threads, limit);
  }

  /** Any threads' operations, with their lock steps interleaved in any way, do what the atomic
      operations do one after another, at every moment of the run. */
  lemma {:induction false} LockedRunsAreAtomic(threads: nat, limit: int, states: seq<State>, steps: seq<Step>, k: nat)
    requires limit >= -1 && IsRun(threads, limit, states, steps) && k <= |steps|
    ensures Refined(states[k], Effects(states, steps, k), limit)
  {
    if k == 0 {
      RefinedInit(threads, limit);
    } else {
      LockedRunsAreAtomic(threads, limit, states, steps, k - 1);
      RefinedNext(states[k - 1], Effects(states, steps, k - 1), steps[k - 1], limit);
    }
  }
}
