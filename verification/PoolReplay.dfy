/** The converse of PoolRefinement: the lock steps lose nothing.  Whatever the atomic pool can do, a
    thread that goes through its lock steps alone does. */
module PoolReplay {
  import Atomic = BufferPool
  import opened PoolLocks

  /** A locked pool that no thread is using, and that has what the atomic one has. */
  function Resting(p: Atomic.Pool, threads: nat): State {
    State(seq(threads, _ => Idle), Lock(-1, p.have), p.free, p.limit, p.made, Unlocked(p.use), p.use, false)
  }

  function Unlocked(use: seq<nat>): (r: seq<Lock>)
    ensures |r| == |use|
  {
    seq(|use|, b requires 0 <= b < |use| => Lock(-1, use[b]))
  }

  lemma UnlockedUpdate(use: seq<nat>, b: nat, value: nat)
    requires b < |use|
    ensures Unlocked(use)[b := Lock(-1, value)] == Unlocked(use[b := value])
  {
  }

  lemma UnlockedMore(use: seq<nat>, value: nat)
    ensures Unlocked(use) + [Lock(-1, value)] == Unlocked(use + [value])
  {
  }

  /** Each step can be taken, and they lead from s to n. */
  predicate Does(s: State, steps: seq<Step>, n: State)
    decreases |steps|
  {
    if steps == [] then s == n else Enabled(s, steps[0]) && Does(Next(s, steps[0]), steps[1..], n)
  }

  lemma OneStep(s: State, step: Step, more: seq<Step>, n: State)
    requires Enabled(s, step) && Does(Next(s, step), more, n)
    ensures Does(s, [step] + more, n)
  {
    assert ([step] + more)[1..] == more;
  }

  lemma FirstApart<T>(xs: seq<T>, ys: seq<T>)
    requires xs != []
    ensures [xs[0]] + (xs[1..] + ys) == xs + ys
  {
  }

  lemma {:induction false} DoesJoin(s: State, xs: seq<Step>, n: State, ys: seq<Step>, m: State)
    requires Does(s, xs, n) && Does(n, ys, m)
    ensures Does(s, xs + ys, m)
    decreases |xs|
  {
    if xs == [] {
      assert xs + ys == ys;
    } else {
      DoesJoin(Next(s, xs[0]), xs[1..], n, ys, m);
      OneStep(s, xs[0], xs[1..] + ys, m);
      FirstApart(xs, ys);
    }
  }

  /** n steps of thread t. */
  function Steps(t: nat, n: nat): seq<Step> {
    if n == 0 then [] else [Go(t)] + Steps(t, n - 1)
  }

  /** The steps of an operation on its own. */
  function Script(p: Atomic.Pool, op: Atomic.Op, t: nat): seq<Step>
    requires Atomic.Legal(p, op)
  {
    match op
    case Take => [BeginGet(t)] + Steps(t, if p.free == [] then 2 else 5)
    case Share(b) => [BeginShare(t, b)] + Steps(t, 2)
    case Return(b) => [BeginDrop(t, b)] + Steps(t, if p.use[b] == 1 then 5 else 3)
  }

  lemma GoOn(s: State, t: nat, k: nat, n: State)
    requires Enabled(s, Go(t)) && Does(Next(s, Go(t)), Steps(t, k), n)
    ensures Does(s, Steps(t, k + 1), n)
  {
    OneStep(s, Go(t), Steps(t, k), n);
  }

  lemma RestsAgain(s: State, q: Atomic.Pool, threads: nat, t: nat)
    requires t < threads && |s.pcs| == threads && s.pcs[t] == Idle && s.pcs == Resting(q, threads).pcs[t := s.pcs[t]]
    requires s == Resting(q, threads).(pcs := s.pcs)
    ensures s == Resting(q, threads)
  {
  }

  /** Thread t is at `pc` and holds the lock of space b; and the pool's if `have` says so. */
  function Holding(p: Atomic.Pool, threads: nat, t: nat, pc: Pc, b: nat, have: int): State
    requires b < |p.use| && t < threads
  {
    var s := Resting(p, threads);
    s.(pcs := s.pcs[t := pc], have := Lock(have, p.have), use := s.use[b := Lock(t, p.use[b])])
  }

  lemma TakeListed(p: Atomic.Pool, limit: int, threads: nat, t: nat)
    requires Atomic.PoolInv(p, limit) && p.free != [] && t < threads
    ensures Does(Resting(p, threads), [BeginGet(t)] + Steps(t, 5), Resting(Atomic.Get(p).0, threads))
  {
    var b, s, q := p.free[0], Resting(p, threads), Resting(Atomic.Get(p).0, threads);
    assert b in p.free;
    var s0 := Next(s, BeginGet(t));
    var s1 := Next(s0, Go(t));
    var s2 := Next(s1, Go(t));
    var s3 := Holding(p, threads, t, GetPop(b), b, t);
    assert Next(s2, Go(t)) == s3;
    Popped(p, limit, threads, t);
    GoOn(s2, t, 2, q);
    GoOn(s1, t, 3, q);
    GoOn(s0, t, 4, q);
    OneStep(s, BeginGet(t), Steps(t, 5), q);
  }

  lemma Popped(p: Atomic.Pool, limit: int, threads: nat, t: nat)
    requires Atomic.PoolInv(p, limit) && p.free != [] && t < threads && p.free[0] < p.made
    ensures Does(Holding(p, threads, t, GetPop(p.free[0]), p.free[0], t), Steps(t, 2), Resting(Atomic.Get(p).0, threads))
  {
    var b, q := p.free[0], Atomic.Get(p).0;
    var s3 := Holding(p, threads, t, GetPop(b), b, t);
    var s4 := Next(s3, Go(t));
    var s5 := Next(s4, Go(t));
    assert b in p.free;
    UnlockedUpdate(p.use, b, 1);
    assert s5.use == Unlocked(q.use);
    RestsAgain(s5, q, threads, t);
    GoOn(s4, t, 0, s5);
    GoOn(s3, t, 1, s5);
  }

  lemma TakeNew(p: Atomic.Pool, limit: int, threads: nat, t: nat)
    requires Atomic.PoolInv(p, limit) && p.free == [] && Atomic.CanGet(p) && t < threads
    ensures Does(Resting(p, threads), [BeginGet(t)] + Steps(t, 2), Resting(Atomic.Get(p).0, threads))
  {
    var s, q := Resting(p, threads), Atomic.Get(p).0;
    var s0 := Next(s, BeginGet(t));
    var s1 := Next(s0, Go(t));
    var s2 := Next(s1, Go(t));
    UnlockedMore(p.use, 1);
    RestsAgain(s2, q, threads, t);
    GoOn(s1, t, 0, s2);
    GoOn(s0, t, 1, s2);
    OneStep(s, BeginGet(t), Steps(t, 2), s2);
  }

  lemma ShareDone(p: Atomic.Pool, limit: int, threads: nat, t: nat, b: nat)
    requires Atomic.PoolInv(p, limit) && b < p.made && p.use[b] != 0 && t < threads
    ensures Does(Resting(p, threads), [BeginShare(t, b)] + Steps(t, 2), Resting(Atomic.Use(p, b), threads))
  {
    var s, q := Resting(p, threads), Atomic.Use(p, b);
    var s0 := Next(s, BeginShare(t, b));
    var s1 := Next(s0, Go(t));
    var s2 := Next(s1, Go(t));
    UnlockedUpdate(p.use, b, p.use[b] + 1);
    assert s2.use == Unlocked(q.use);
    RestsAgain(s2, q, threads, t);
    GoOn(s1, t, 0, s2);
    GoOn(s0, t, 1, s2);
    OneStep(s, BeginShare(t, b), Steps(t, 2), s2);
  }

  lemma ReturnOther(p: Atomic.Pool, limit: int, threads: nat, t: nat, b: nat)
    requires Atomic.PoolInv(p, limit) && b < p.made && p.use[b] > 1 && t < threads
    ensures Does(Resting(p, threads), [BeginDrop(t, b)] + Steps(t, 3), Resting(Atomic.Drop(p, b), threads))
  {
    var s, q := Resting(p, threads), Atomic.Drop(p, b);
    var s0 := Next(s, BeginDrop(t, b));
    var s1 := Next(s0, Go(t));
    var s2 := Next(s1, Go(t));
    var s3 := Next(s2, Go(t));
    UnlockedUpdate(p.use, b, p.use[b] - 1);
    assert s3.use == Unlocked(q.use);
    RestsAgain(s3, q, threads, t);
    GoOn(s2, t, 0, s3);
    GoOn(s1, t, 1, s3);
    GoOn(s0, t, 2, s3);
    OneStep(s, BeginDrop(t, b), Steps(t, 3), s3);
  }

  lemma ReturnLast(p: Atomic.Pool, limit: int, threads: nat, t: nat, b: nat)
    requires Atomic.PoolInv(p, limit) && b < p.made && p.use[b] == 1 && t < threads
    ensures Does(Resting(p, threads), [BeginDrop(t, b)] + Steps(t, 5), Resting(Atomic.Drop(p, b), threads))
  {
    var s, q := Resting(p, threads), Resting(Atomic.Drop(p, b), threads);
    var s0 := Next(s, BeginDrop(t, b));
    var s1 := Next(s0, Go(t));
    var s2 := Next(s1, Go(t));
    assert s2 == Holding(p, threads, t, DropHave(b), b, -1).(refs := p.use[b := 0]);
    Pushed(p, limit, threads, t, b, s2);
    GoOn(s1, t, 3, q);
    GoOn(s0, t, 4, q);
    OneStep(s, BeginDrop(t, b), Steps(t, 5), q);
  }

  lemma Pushed(p: Atomic.Pool, limit: int, threads: nat, t: nat, b: nat, s2: State)
    requires Atomic.PoolInv(p, limit) && b < p.made && p.use[b] == 1 && t < threads
    requires s2 == Holding(p, threads, t, DropHave(b), b, -1).(refs := p.use[b := 0])
    ensures Does(s2, Steps(t, 3), Resting(Atomic.Drop(p, b), threads))
  {
    var q := Atomic.Drop(p, b);
    var s3 := Next(s2, Go(t));
    var s4 := Next(s3, Go(t));
    var s5 := Next(s4, Go(t));
    UnlockedUpdate(p.use, b, 0);
    assert s5.use == Unlocked(q.use);
    RestsAgain(s5, q, threads, t);
    GoOn(s4, t, 0, s5);
    GoOn(s3, t, 1, s5);
    GoOn(s2, t, 2, s5);
  }

  /** An operation on its own does what the atomic one does. */
  lemma ScriptDoes(p: Atomic.Pool, limit: int, op: Atomic.Op, threads: nat, t: nat)
    requires Atomic.PoolInv(p, limit) && Atomic.Legal(p, op) && t < threads
    ensures Does(Resting(p, threads), Script(p, op, t), Resting(Atomic.Apply(p, op), threads))
  {
    match op {
      case Take => if p.free == [] { TakeNew(p, limit, threads, t); } else { TakeListed(p, limit, threads, t); }
      case Share(b) => ShareDone(p, limit, threads, t, b);
      case Return(b) => if p.use[b] == 1 { ReturnLast(p, limit, threads, t, b); } else { ReturnOther(p, limit, threads, t, b); }
    }
  }

  /** Every run of atomic operations, one after another by any of the threads, is one of lock steps. */
  lemma {:induction false} AtomicRunsAreLocked(p: Atomic.Pool, limit: int, ops: seq<Atomic.Op>, q: Atomic.Pool,
                                                     threads: nat, who: seq<nat>)
    returns (steps: seq<Step>)
    requires Atomic.PoolInv(p, limit) && Atomic.Run(p, ops, q)
    requires |who| == |ops| && forall i :: 0 <= i < |who| ==> who[i] < threads
    ensures Does(Resting(p, threads), steps, Resting(q, threads))
    decreases |ops|
  {
    steps := [];
    if ops != [] {
      var mid := Atomic.Apply(p, ops[0]);
      ScriptDoes(p, limit, ops[0], threads, who[0]);
      Atomic.ApplyKeeps(p, ops[0], limit);
      var more := AtomicRunsAreLocked(mid, limit, ops[1..], q, threads, who[1..]);
      steps := Script(p, ops[0], who[0]) + more;
      DoesJoin(Resting(p, threads), Script(p, ops[0], who[0]), Resting(mid, threads), more, Resting(q, threads));
    }
  }

  /** The pool as it is created rests. */
  lemma CreatedRests(threads: nat, limit: int)
    ensures Init(threads, limit) == Resting(Atomic.Create(limit), threads)
  {
  }
}
