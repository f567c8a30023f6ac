/** The pool of libs/libdstdec/buffer_pool.c under concurrent use, one lock operation at a time.

    A request takes the pool lock `have` and then a space's lock `use`; a drop takes them in the
    opposite order.  Any number of threads run requests, shares and drops; references may be handed
    from thread to thread, so `refs[b]` counts the references to space b that some client holds and
    is not just spending. */
module PoolLocks {

  /** What a thread is about to do; the comment names the locks it holds. */
  datatype Pc =
    | Idle
    | GetWant                  // possess(have)
    | GetWait                  // wait_for(have, NOT_TO_BE, 0): asleep, without the lock
    | GetHave                  // have: look at the list
    | GetUse(b: nat)           // have: possess(space->use)
    | GetPop(b: nat)           // have, use: unlink, twist(have, BY, -1)
    | GetSet(b: nat)           // use: twist(use, TO, 1)
    | DropWant(b: nat)         // possess(space->use)
    | DropLook(b: nat)         // use: peek_lock
    | DropHave(b: nat)         // use: possess(have)
    | DropPush(b: nat)         // have, use: link, twist(have, BY, +1)
    | DropDec(b: nat)          // use: twist(use, BY, -1)
    | ShareWant(b: nat)        // possess(space->use)
    | ShareInc(b: nat)         // use: twist(use, BY, +1)

  datatype Lock = Lock(holder: int, value: int)   // holder -1: free

  datatype State = State(pcs: seq<Pc>, have: Lock, free: seq<nat>, limit: int, made: nat,
                         use: seq<Lock>, refs: seq<nat>, failed: bool)

  datatype Step = BeginGet(t: nat) | BeginDrop(t: nat, c: nat) | BeginShare(t: nat, c: nat) | Go(t: nat)

  function Init(threads: nat, limit: int): State {
    State(seq(threads, _ => Idle), Lock(-1, 0), [], limit, 0, [], [], false)
  }

  /** A client may start an operation on a space it holds a reference to; a thread in the middle
      of one goes on unless it needs a lock that is taken or sleeps on an unchanged pool. */
  predicate Enabled(s: State, step: Step) {
    step.t < |s.pcs| && |s.use| == |s.refs| &&
    match step
    case BeginGet(t) => s.pcs[t].Idle?
    case BeginDrop(t, b) => s.pcs[t].Idle? && b < |s.refs| && s.refs[b] > 0
    case BeginShare(t, b) => s.pcs[t].Idle? && b < |s.refs| && s.refs[b] > 0
    case Go(t) =>
      match s.pcs[t]
      case Idle => false
      case GetWant => s.have.holder == -1
      case GetWait => s.have.holder == -1 && s.have.value != 0
      case GetUse(b) => b < |s.use| && s.use[b].holder == -1
      case DropWant(b) => b < |s.use| && s.use[b].holder == -1
      case ShareWant(b) => b < |s.use| && s.use[b].holder == -1
      case DropHave(b) => s.have.holder == -1
      case GetHave => true
      case GetPop(b) => b < |s.use|
      case GetSet(b) => b < |s.use|
      case DropLook(b) => b < |s.use|
      case DropPush(b) => b < |s.use|
      case DropDec(b) => b < |s.use|
      case ShareInc(b) => b < |s.use|
  }

  function At(s: State, t: nat, pc: Pc): State
    requires t < |s.pcs|
  {
    s.(pcs := s.pcs[t := pc])
  }

  function Take(s: State, t: nat, b: nat): State
    requires b < |s.use|
  {
    s.(use := s.use[b := Lock(t, s.use[b].value)])
  }

  function Twist(s: State, b: nat, value: int): State
    requires b < |s.use|
  {
    s.(use := s.use[b := Lock(-1, value)])
  }

  function Next(s: State, step: Step): State
    requires Enabled(s, step)
  {
    var t := step.t;
    match step
    case BeginGet(_) => At(s, t, GetWant)
    case BeginDrop(_, b) => At(s, t, DropWant(b)).(refs := s.refs[b := s.refs[b] - 1])
    case BeginShare(_, b) => At(s, t, ShareWant(b)).(refs := s.refs[b := s.refs[b] - 1])
    case Go(_) =>
      match s.pcs[t]
      case Idle => s
      case GetWant =>
        if s.limit == 0 && s.have.value == 0 then At(s, t, GetWait) else At(s, t, GetHave).(have := Lock(t, s.have.value))
      case GetWait => At(s, t, GetHave).(have := Lock(t, s.have.value))
      case GetHave =>
        if s.free != [] then At(s, t, GetUse(s.free[0]))
        else if s.limit == 0 then s.(failed := true)
        else
          At(s, t, Idle).(limit := if s.limit > 0 then s.limit - 1 else s.limit, made := s.made + 1, have := Lock(-1, s.have.value),
                          use := s.use + [Lock(-1, 1)], refs := s.refs + [1])
      case GetUse(b) => Take(At(s, t, GetPop(b)), t, b)
      case GetPop(b) =>
        if s.free == [] then s.(failed := true)
        else At(s, t, GetSet(b)).(free := s.free[1..], have := Lock(-1, s.have.value - 1))
      case GetSet(b) => Twist(At(s, t, Idle), b, 1).(refs := s.refs[b := s.refs[b] + 1])
      case DropWant(b) => Take(At(s, t, DropLook(b)), t, b)
      case DropLook(b) =>
        if s.use[b].value == 0 then s.(failed := true)
        else if s.use[b].value == 1 then At(s, t, DropHave(b))
        else At(s, t, DropDec(b))
      case DropHave(b) => At(s, t, DropPush(b)).(have := Lock(t, s.have.value))
      case DropPush(b) => At(s, t, DropDec(b)).(free := [b] + s.free, have := Lock(-1, s.have.value + 1))
      case DropDec(b) => Twist(At(s, t, Idle), b, s.use[b].value - 1)
      case ShareWant(b) => Take(At(s, t, ShareInc(b)), t, b)
      case ShareInc(b) => Twist(At(s, t, Idle), b, s.use[b].value + 1).(refs := s.refs[b := s.refs[b] + 2])
  }

  // ----- invariant -----

  predicate HoldsHave(pc: Pc) { pc.GetHave? || pc.GetUse? || pc.GetPop? || pc.DropPush? }

  predicate HoldsUse(pc: Pc, b: nat) {
    match pc
    case GetPop(c) => c == b
    case GetSet(c) => c == b
    case DropLook(c) => c == b
    case DropHave(c) => c == b
    case DropPush(c) => c == b
    case DropDec(c) => c == b
    case ShareInc(c) => c == b
    case _ => false
  }

  /** The thread is spending a reference to space b. */
  predicate Spends(pc: Pc, b: nat) {
    match pc
    case DropWant(c) => c == b
    case DropLook(c) => c == b
    case DropHave(c) => c == b
    case DropPush(c) => c == b
    case DropDec(c) => c == b
    case ShareWant(c) => c == b
    case ShareInc(c) => c == b
    case _ => false
  }

  predicate Names(pc: Pc, b: nat) { Spends(pc, b) || pc == GetUse(b) || pc == GetPop(b) || pc == GetSet(b) }

  predicate HasSpace(pc: Pc) { !pc.Idle? && !pc.GetWant? && !pc.GetWait? && !pc.GetHave? }

  function Spending(pcs: seq<Pc>, b: nat): nat {
    if pcs == [] then 0 else (if Spends(pcs[0], b) then 1 else 0) + Spending(pcs[1..], b)
  }

  ghost predicate LocksInv(s: State) {
    && (forall t :: 0 <= t < |s.pcs| ==> (s.have.holder == t <==> HoldsHave(s.pcs[t])))
    && -1 <= s.have.holder < |s.pcs|
    && (forall b: nat, t :: 0 <= b < |s.use| && 0 <= t < |s.pcs| ==> (s.use[b].holder == t <==> HoldsUse(s.pcs[t], b)))
    && (forall b: nat :: 0 <= b < |s.use| ==> -1 <= s.use[b].holder < |s.pcs|)
    && (forall t :: 0 <= t < |s.pcs| && HasSpace(s.pcs[t]) ==> s.pcs[t].b < |s.use|)
  }

  /** The list: duplicate-free, as long as the lock value says, and its spaces are out of use, save
      for a drop about to write the count 0. */
  ghost predicate ListInv(s: State) {
    && s.have.value == |s.free|
    && (forall i, j :: 0 <= i < j < |s.free| ==> s.free[i] != s.free[j])
    && (forall i :: 0 <= i < |s.free| ==> s.free[i] < |s.use|)
    && (forall b: nat :: b in s.free && b < |s.refs| ==> s.refs[b] == 0)
    && (forall b: nat, t :: b in s.free && 0 <= t < |s.pcs| && Names(s.pcs[t], b) ==> s.pcs[t].GetUse? || s.pcs[t].GetPop? || s.pcs[t].DropDec?)
    && (forall t :: 0 <= t < |s.pcs| && (s.pcs[t].GetUse? || s.pcs[t].GetPop?) ==> s.free != [] && s.free[0] == s.pcs[t].b)
  }

  ghost predicate CountInv(s: State) {
    && |s.use| == |s.refs| == s.made
    && (forall b: nat :: 0 <= b < s.made ==> s.use[b].value == s.refs[b] + Spending(s.pcs, b))
    && (forall t :: 0 <= t < |s.pcs| && (s.pcs[t].DropHave? || s.pcs[t].DropPush?) && s.pcs[t].b < s.made ==>
          s.use[s.pcs[t].b].value == 1)
    && (forall t :: 0 <= t < |s.pcs| && s.pcs[t].GetSet? && s.pcs[t].b < s.made ==> s.use[s.pcs[t].b].value == 0)
    && (forall t :: 0 <= t < |s.pcs| && s.pcs[t].DropDec? && s.pcs[t].b < s.made ==> (s.pcs[t].b in s.free <==> s.use[s.pcs[t].b].value == 1))
    && (forall t :: 0 <= t < |s.pcs| && s.pcs[t].GetWait? ==> s.limit == 0)
    && (forall t :: 0 <= t < |s.pcs| && s.pcs[t].GetHave? ==> s.free != [] || s.limit != 0)
  }

  ghost predicate BeingSet(pcs: seq<Pc>, b: nat) { exists t :: 0 <= t < |pcs| && pcs[t] == GetSet(b) }

  /** Conservation: a space nobody uses or is about to use is listed, and a limited pool never
      creates more than its limit. */
  ghost predicate ConserveInv(s: State, limit: int) {
    && (forall b: nat :: 0 <= b < |s.use| && s.use[b].value == 0 ==> b in s.free || BeingSet(s.pcs, b))
    && (if limit >= 0 then s.limit >= 0 && s.limit + s.made == limit else s.limit == limit)
  }

  ghost predicate Inv(s: State, limit: int) {
    !s.failed && LocksInv(s) && ListInv(s) && CountInv(s) && ConserveInv(s, limit)
  }

  lemma {:induction false} SpendingUpdate(pcs: seq<Pc>, t: nat, pc: Pc, b: nat)
    requires t < |pcs|
    ensures Spending(pcs[t := pc], b) == Spending(pcs, b) - (if Spends(pcs[t], b) then 1 else 0) + (if Spends(pc, b) then 1 else 0)
  {
    if t == 0 {
      assert pcs[0 := pc][1..] == pcs[1..];
    } else {
      SpendingUpdate(pcs[1..], t - 1, pc, b);
      assert pcs[t := pc][1..] == pcs[1..][t - 1 := pc];
    }
  }

  lemma SpendingUpdates(pcs: seq<Pc>, t: nat, pc: Pc)
    requires t < |pcs|
    ensures forall b: nat :: Spending(pcs[t := pc], b) == Spending(pcs, b) - (if Spends(pcs[t], b) then 1 else 0) + (if Spends(pc, b) then 1 else 0)
  {
    forall b: nat { SpendingUpdate(pcs, t, pc, b); }
  }

  lemma {:induction false} SpendingMember(pcs: seq<Pc>, b: nat)
    ensures Spending(pcs, b) == 0 <==> forall t :: 0 <= t < |pcs| ==> !Spends(pcs[t], b)
    ensures Spending(pcs, b) == 1 ==> forall t, u :: 0 <= t < u < |pcs| && Spends(pcs[t], b) ==> !Spends(pcs[u], b)
  {
    if pcs != [] {
      SpendingMember(pcs[1..], b);
      assert forall t :: 1 <= t < |pcs| ==> pcs[t] == pcs[1..][t - 1];
      assert forall t :: 0 <= t < |pcs| - 1 ==> pcs[1..][t] == pcs[t + 1];
    }
  }

  // ----- every step keeps the invariant -----

  lemma InitInv(threads: nat, limit: int)
    requires limit >= -1
    ensures Inv(Init(threads, limit), limit)
  {
  }

  lemma BeingSetUpdate(pcs: seq<Pc>, t: nat, pc: Pc)
    requires t < |pcs|
    ensures forall b: nat :: (pc == GetSet(b) ==> BeingSet(pcs[t := pc], b)) &&
                             (pcs[t] != GetSet(b) && BeingSet(pcs, b) ==> BeingSet(pcs[t := pc], b))
  {
    var us := pcs[t := pc];
    forall b: nat ensures (pc == GetSet(b) ==> BeingSet(us, b)) && (pcs[t] != GetSet(b) && BeingSet(pcs, b) ==> BeingSet(us, b)) {
      assert us[t] == pc;
      if pcs[t] != GetSet(b) && BeingSet(pcs, b) {
        var u :| 0 <= u < |pcs| && pcs[u] == GetSet(b);
        assert us[u] == GetSet(b);
      }
    }
  }

  lemma ConserveKeeps(s: State, step: Step, limit: int)
    requires Inv(s, limit) && Enabled(s, step) && !Next(s, step).failed
    ensures ConserveInv(Next(s, step), limit)
  {
    BeingSetUpdate(s.pcs, step.t, Next(s, step).pcs[step.t]);
  }

  lemma NoFailure(s: State, step: Step, limit: int)
    requires Inv(s, limit) && Enabled(s, step)
    ensures !Next(s, step).failed
  {
    if step.Go? && s.pcs[step.t].DropLook? { SpendingMember(s.pcs, s.pcs[step.t].b); }
  }

  // ----- the three parts of the invariant -----

  /** Thread t goes from one place to another, taking and giving back locks as these places hold them. */
  ghost predicate Moves(s: State, n: State, t: nat) {
    && t < |s.pcs| == |n.pcs| && n.pcs == s.pcs[t := n.pcs[t]]
    && (HoldsHave(n.pcs[t]) && !HoldsHave(s.pcs[t]) ==> s.have.holder == -1)
    && n.have.holder == (if HoldsHave(n.pcs[t]) then t else if HoldsHave(s.pcs[t]) then -1 else s.have.holder)
    && |s.use| <= |n.use|
    && (forall b: nat :: b < |s.use| && HoldsUse(n.pcs[t], b) && !HoldsUse(s.pcs[t], b) ==> s.use[b].holder == -1)
    && (forall b: nat :: b < |s.use| ==>
          n.use[b].holder == if HoldsUse(n.pcs[t], b) then t else if HoldsUse(s.pcs[t], b) then -1 else s.use[b].holder)
    && (forall b: nat :: |s.use| <= b < |n.use| ==> n.use[b].holder == -1)
    && (HasSpace(n.pcs[t]) ==> n.pcs[t].b < |s.use|)
  }

  lemma MovesKeep(s: State, n: State, t: nat)
    requires LocksInv(s) && Moves(s, n, t)
    ensures LocksInv(n)
  {
  }

  predicate InGet(pc: Pc) { pc.GetWant? || pc.GetWait? || pc.GetHave? || pc.GetUse? || pc.GetPop? || pc.GetSet? }

  predicate Getting(s: State, step: Step) { step.t < |s.pcs| && step.Go? && InGet(s.pcs[step.t]) }

  predicate Using(s: State, step: Step) { step.t < |s.pcs| && step.Go? && !InGet(s.pcs[step.t]) }

  lemma BeginLocks(s: State, step: Step)
    requires LocksInv(s) && ListInv(s) && Enabled(s, step) && !step.Go?
    ensures LocksInv(Next(s, step))
  {
    MovesKeep(s, Next(s, step), step.t);
  }

  lemma GetLocks(s: State, step: Step)
    requires LocksInv(s) && ListInv(s) && Enabled(s, step) && !Next(s, step).failed && Getting(s, step)
    ensures LocksInv(Next(s, step))
  {
    MovesKeep(s, Next(s, step), step.t);
  }

  lemma UseLocks(s: State, step: Step)
    requires LocksInv(s) && ListInv(s) && Enabled(s, step) && !Next(s, step).failed && Using(s, step)
    ensures LocksInv(Next(s, step))
  {
    MovesKeep(s, Next(s, step), step.t);
  }

  /** These steps link or unlink a space. */
  predicate TouchesList(pc: Pc) { pc.GetHave? || pc.GetPop? || pc.DropPush? }

  lemma BeginList(s: State, step: Step, limit: int)
    requires Inv(s, limit) && Enabled(s, step) && !step.Go?
    ensures ListInv(Next(s, step))
  {
    SpendingUpdates(s.pcs, step.t, Next(s, step).pcs[step.t]);
  }

  lemma GetList(s: State, step: Step, limit: int)
    requires Inv(s, limit) && Enabled(s, step) && Getting(s, step) && !TouchesList(s.pcs[step.t])
    ensures ListInv(Next(s, step))
  {
    SpendingUpdates(s.pcs, step.t, Next(s, step).pcs[step.t]);
  }

  lemma UseList(s: State, step: Step, limit: int)
    requires Inv(s, limit) && Enabled(s, step) && !Next(s, step).failed && step.Go?
    requires var pc := s.pcs[step.t]; pc.DropWant? || pc.ShareWant? || pc.DropLook? || pc.DropHave?
    ensures ListInv(Next(s, step))
  {
    SpendingUpdates(s.pcs, step.t, Next(s, step).pcs[step.t]);
  }

  lemma WriteList(s: State, step: Step, limit: int)
    requires Inv(s, limit) && Enabled(s, step) && !Next(s, step).failed && step.Go?
    requires s.pcs[step.t].DropDec? || s.pcs[step.t].ShareInc?
    ensures ListInv(Next(s, step))
  {
    SpendingUpdates(s.pcs, step.t, Next(s, step).pcs[step.t]);
  }

  lemma BeginGetCount(s: State, step: Step, limit: int)
    requires Inv(s, limit) && Enabled(s, step) && step.BeginGet?
    ensures CountInv(Next(s, step))
  {
    SpendingUpdates(s.pcs, step.t, Next(s, step).pcs[step.t]);
  }

  lemma BeginSpendCount(s: State, step: Step, limit: int)
    requires Inv(s, limit) && Enabled(s, step) && (step.BeginDrop? || step.BeginShare?)
    ensures CountInv(Next(s, step))
  {
    SpendingUpdates(s.pcs, step.t, Next(s, step).pcs[step.t]);
  }

  lemma GetStartCount(s: State, step: Step, limit: int)
    requires Inv(s, limit) && Enabled(s, step) && !Next(s, step).failed && step.Go?
    requires s.pcs[step.t].GetWant? || s.pcs[step.t].GetWait?
    ensures CountInv(Next(s, step))
  {
    SpendingUpdates(s.pcs, step.t, Next(s, step).pcs[step.t]);
  }

  lemma GetUseCount(s: State, step: Step, limit: int)
    requires Inv(s, limit) && Enabled(s, step) && !Next(s, step).failed && step.Go?
    requires s.pcs[step.t].GetUse?
    ensures CountInv(Next(s, step))
  {
    SpendingUpdates(s.pcs, step.t, Next(s, step).pcs[step.t]);
  }

  lemma TakeCount(s: State, step: Step, limit: int)
    requires Inv(s, limit) && Enabled(s, step) && !Next(s, step).failed && step.Go?
    requires s.pcs[step.t].DropWant? || s.pcs[step.t].ShareWant?
    ensures CountInv(Next(s, step))
  {
    SpendingUpdates(s.pcs, step.t, Next(s, step).pcs[step.t]);
  }

  lemma LookCount(s: State, step: Step, limit: int)
    requires Inv(s, limit) && Enabled(s, step) && !Next(s, step).failed && step.Go?
    requires s.pcs[step.t].DropLook? || s.pcs[step.t].DropHave?
    ensures CountInv(Next(s, step))
  {
    SpendingUpdates(s.pcs, step.t, Next(s, step).pcs[step.t]);
  }

  lemma SetCount(s: State, step: Step, limit: int)
    requires Inv(s, limit) && Enabled(s, step) && !Next(s, step).failed && step.Go?
    requires s.pcs[step.t].GetSet?
    ensures CountInv(Next(s, step))
  {
    SpendingUpdates(s.pcs, step.t, Next(s, step).pcs[step.t]);
  }

  lemma WriteCount(s: State, step: Step, limit: int)
    requires Inv(s, limit) && Enabled(s, step) && !Next(s, step).failed && step.Go?
    requires s.pcs[step.t].DropDec? || s.pcs[step.t].ShareInc?
    ensures CountInv(Next(s, step))
  {
    SpendingUpdates(s.pcs, step.t, Next(s, step).pcs[step.t]);
  }

  lemma GetHaveList(s: State, step: Step, limit: int)
    requires Inv(s, limit) && Enabled(s, step) && !Next(s, step).failed
    requires step.Go? && s.pcs[step.t].GetHave?
    ensures ListInv(Next(s, step))
  {
    var n := Next(s, step);
    SpendingUpdates(s.pcs, step.t, n.pcs[step.t]);
    assert forall u :: 0 <= u < |s.pcs| && u != step.t ==> !HoldsHave(s.pcs[u]);
  }

  lemma GetListedCount(s: State, step: Step, limit: int)
    requires Inv(s, limit) && Enabled(s, step) && s.free != []
    requires step.Go? && s.pcs[step.t].GetHave?
    ensures CountInv(Next(s, step))
  {
    SpendingUpdates(s.pcs, step.t, Next(s, step).pcs[step.t]);
  }

  lemma GetNewCount(s: State, step: Step, limit: int)
    requires Inv(s, limit) && Enabled(s, step) && s.free == [] && !Next(s, step).failed
    requires step.Go? && s.pcs[step.t].GetHave?
    ensures CountInv(Next(s, step))
  {
    var n := Next(s, step);
    SpendingUpdates(s.pcs, step.t, n.pcs[step.t]);
    NewUnnamed(s, limit);
    assert n.use == s.use + [Lock(-1, 1)] && n.refs == s.refs + [1];
  }

  lemma GetPopList(s: State, step: Step, limit: int)
    requires Inv(s, limit) && Enabled(s, step) && !Next(s, step).failed
    requires step.Go? && s.pcs[step.t].GetPop?
    ensures ListInv(Next(s, step))
  {
    var n := Next(s, step);
    SpendingUpdates(s.pcs, step.t, n.pcs[step.t]);
    PoppedUnused(s, step.t, limit);
    assert forall b :: b in n.free ==> b in s.free;
    assert forall u :: 0 <= u < |s.pcs| && u != step.t ==> !HoldsHave(s.pcs[u]);
  }

  lemma GetPopCount(s: State, step: Step, limit: int)
    requires Inv(s, limit) && Enabled(s, step) && !Next(s, step).failed
    requires step.Go? && s.pcs[step.t].GetPop?
    ensures CountInv(Next(s, step))
  {
    var n := Next(s, step);
    SpendingUpdates(s.pcs, step.t, n.pcs[step.t]);
    PoppedUnused(s, step.t, limit);
    assert forall b :: b in s.free <==> b in n.free || b == s.free[0];
    assert forall u :: 0 <= u < |s.pcs| && u != step.t ==> !HoldsHave(s.pcs[u]);
  }

  lemma DropPushList(s: State, step: Step, limit: int)
    requires Inv(s, limit) && Enabled(s, step) && !Next(s, step).failed
    requires step.Go? && s.pcs[step.t].DropPush?
    ensures ListInv(Next(s, step))
  {
    var n := Next(s, step);
    SpendingUpdates(s.pcs, step.t, n.pcs[step.t]);
    PushedAlone(s, step.t, limit);
    assert forall u :: 0 <= u < |s.pcs| && u != step.t ==> !HoldsHave(s.pcs[u]);
  }

  lemma DropPushCount(s: State, step: Step, limit: int)
    requires Inv(s, limit) && Enabled(s, step) && !Next(s, step).failed
    requires step.Go? && s.pcs[step.t].DropPush?
    ensures CountInv(Next(s, step))
  {
    var n := Next(s, step);
    SpendingUpdates(s.pcs, step.t, n.pcs[step.t]);
    assert forall u :: 0 <= u < |s.pcs| && u != step.t ==> !HoldsHave(s.pcs[u]);
  }

  lemma NewUnnamed(s: State, limit: int)
    requires Inv(s, limit)
    ensures Spending(s.pcs, |s.use|) == 0
  {
    SpendingMember(s.pcs, |s.use|);
  }

  /** The space a drop is about to list is named by no other thread. */
  lemma PushedAlone(s: State, t: nat, limit: int)
    requires Inv(s, limit) && t < |s.pcs| && s.pcs[t].DropPush?
    ensures var b := s.pcs[t].b;
            b !in s.free && s.refs[b] == 0 && forall u :: 0 <= u < |s.pcs| && u != t ==> !Names(s.pcs[u], b)
  {
    var b := s.pcs[t].b;
    SpendingMember(s.pcs, b);
    assert Names(s.pcs[t], b) && Spends(s.pcs[t], b) && Spending(s.pcs, b) == 1;
    forall u | 0 <= u < |s.pcs| && u != t ensures !Names(s.pcs[u], b) {
      assert !Spends(s.pcs[u], b);
    }
  }

  /** The space a request is about to unlink is no longer used, not even by the drop that listed it. */
  lemma PoppedUnused(s: State, t: nat, limit: int)
    requires Inv(s, limit) && t < |s.pcs| && s.pcs[t].GetPop?
    ensures s.use[s.pcs[t].b].value == 0 && Spending(s.pcs, s.pcs[t].b) == 0
  {
    var b := s.pcs[t].b;
    SpendingMember(s.pcs, b);
    assert s.free[0] == b;
    assert s.use[b].holder == t;
    assert forall u :: 0 <= u < |s.pcs| && u != t ==> !HoldsUse(s.pcs[u], b);
    forall u | 0 <= u < |s.pcs| ensures !Spends(s.pcs[u], b) {
      assert Names(s.pcs[u], b) || !Spends(s.pcs[u], b);
    }
  }

  lemma BeginKeeps(s: State, step: Step, limit: int)
    requires Inv(s, limit) && Enabled(s, step) && !step.Go?
    ensures var n := Next(s, step); LocksInv(n) && ListInv(n) && CountInv(n)
  {
    BeginLocks(s, step);
    BeginList(s, step, limit);
    if step.BeginGet? { BeginGetCount(s, step, limit); } else { BeginSpendCount(s, step, limit); }
  }

  lemma GetKeeps(s: State, step: Step, limit: int)
    requires Inv(s, limit) && Enabled(s, step) && Getting(s, step) && !Next(s, step).failed
    ensures var n := Next(s, step); LocksInv(n) && ListInv(n) && CountInv(n)
  {
    GetLocks(s, step);
    match s.pcs[step.t] {
      case GetHave => GetHaveList(s, step, limit); if s.free != [] { GetListedCount(s, step, limit); } else { GetNewCount(s, step, limit); }
      case GetPop(_) => GetPopList(s, step, limit); GetPopCount(s, step, limit);
      case GetUse(_) => GetList(s, step, limit); GetUseCount(s, step, limit);
      case GetSet(_) => GetList(s, step, limit); SetCount(s, step, limit);
      case _ => GetList(s, step, limit); GetStartCount(s, step, limit);
    }
  }

  lemma UseKeeps(s: State, step: Step, limit: int)
    requires Inv(s, limit) && Enabled(s, step) && Using(s, step) && !Next(s, step).failed
    ensures var n := Next(s, step); LocksInv(n) && ListInv(n) && CountInv(n)
  {
    UseLocks(s, step);
    match s.pcs[step.t] {
      case DropPush(_) => DropPushList(s, step, limit); DropPushCount(s, step, limit);
      case DropWant(_) => UseList(s, step, limit); TakeCount(s, step, limit);
      case ShareWant(_) => UseList(s, step, limit); TakeCount(s, step, limit);
      case DropLook(_) => UseList(s, step, limit); LookCount(s, step, limit);
      case DropHave(_) => UseList(s, step, limit); LookCount(s, step, limit);
      case _ => WriteList(s, step, limit); WriteCount(s, step, limit);
    }
  }

  /** Every step of every thread keeps the invariant, and no assertion of the source fails. */
  lemma StepKeeps(s: State, step: Step, limit: int)
    requires Inv(s, limit) && Enabled(s, step)
    ensures Inv(Next(s, step), limit)
  {
    NoFailure(s, step, limit);
    ConserveKeeps(s, step, limit);
    if !step.Go? { BeginKeeps(s, step, limit); } else if Getting(s, step) { GetKeeps(s, step, limit); } else { UseKeeps(s, step, limit); }
  }

  // ----- no cyclic wait -----

  /** Asleep in a request, because a limited pool has made all its spaces and none is listed. */
  predicate Asleep(s: State, t: nat)
    requires t < |s.pcs|
  {
    s.pcs[t].GetWait? && s.have.value == 0
  }

  /** The holder of a space's lock can go on, unless it waits for a pool lock that is taken. */
  lemma UseHolderSteps(s: State, b: nat, limit: int) returns (t: nat)
    requires Inv(s, limit) && b < |s.use| && s.use[b].holder != -1
    requires s.have.holder == -1 || b in s.free
    ensures t == s.use[b].holder && Enabled(s, Go(t))
  {
    t := s.use[b].holder;
    assert HoldsUse(s.pcs[t], b);
    assert Names(s.pcs[t], b);
  }

  /** Why the two opposite lock orders do not block each other: a request that has the pool lock waits
      only for the lock of the space in front of the list, and who still has that has already given the
      pool lock back.  It is the drop that listed the space, and it can go on. */
  lemma GetWaitsOnReleased(s: State, g: nat, limit: int)
    requires Inv(s, limit) && g < |s.pcs| && s.pcs[g].GetUse? && s.use[s.pcs[g].b].holder != -1
    ensures var b := s.pcs[g].b;
            var t := s.use[b].holder;
            && b in s.free && s.have.holder == g
            && 0 <= t < |s.pcs| && t != g && s.pcs[t] == DropDec(b) && !HoldsHave(s.pcs[t]) && Enabled(s, Go(t))
  {
    var b := s.pcs[g].b;
    assert s.free[0] == b;
    var t := UseHolderSteps(s, b, limit);
    assert HoldsHave(s.pcs[g]) && HoldsUse(s.pcs[t], b) && Names(s.pcs[t], b);
  }

  /** The holder of the pool lock can go on, or it is a request and the drop it waits for can. */
  lemma HaveHolderSteps(s: State, limit: int) returns (t: nat)
    requires Inv(s, limit) && s.have.holder != -1
    ensures var h := s.have.holder;
            0 <= h < |s.pcs| && Enabled(s, Go(t)) &&
            (t == h || (s.pcs[h].GetUse? && s.pcs[h].b in s.free && t == s.use[s.pcs[h].b].holder && !HoldsHave(s.pcs[t])))
  {
    t := s.have.holder;
    assert HoldsHave(s.pcs[t]);
    if s.pcs[t].GetUse? && s.use[s.pcs[t].b].holder != -1 {
      GetWaitsOnReleased(s, t, limit);
      t := s.use[s.pcs[t].b].holder;
    }
  }

  /** No deadlock: while any thread is inside an operation and not asleep, some thread can go on: the
      thread itself, the holder of the pool lock, or the holder of a space's lock. */
  lemma NoCyclicWait(s: State, t: nat, limit: int) returns (u: nat)
    requires Inv(s, limit) && t < |s.pcs| && !s.pcs[t].Idle? && !Asleep(s, t)
    ensures Enabled(s, Go(u))
    ensures u == t || u == s.have.holder || exists b: nat :: b < |s.use| && s.use[b].holder == u
  {
    if s.have.holder != -1 {
      u := HaveHolderSteps(s, limit);
    } else if (s.pcs[t].DropWant? || s.pcs[t].ShareWant?) && s.use[s.pcs[t].b].holder != -1 {
      u := UseHolderSteps(s, s.pcs[t].b, limit);
    } else {
      u := t;
    }
  }

  /** Conservation: when no thread is inside an operation, the listed spaces are exactly those no
      client holds a reference to. */
  lemma QuietPool(s: State, limit: int)
    requires Inv(s, limit) && forall t :: 0 <= t < |s.pcs| ==> s.pcs[t].Idle?
    ensures forall b: nat :: b < s.made ==> (b in s.free <==> s.refs[b] == 0)
    ensures forall b: nat :: b < s.made ==> s.use[b].value == s.refs[b]
  {
    forall b: nat { SpendingMember(s.pcs, b); }
  }

  ghost predicate IsRun(threads: nat, limit: int, states: seq<State>, steps: seq<Step>) {
    && |states| == |steps| + 1 && states[0] == Init(threads, limit)
    && forall i :: 0 <= i < |steps| ==> Enabled(states[i], steps[i]) && states[i + 1] == Next(states[i], steps[i])
  }

  lemma {:induction false} RunKeeps(threads: nat, limit: int, states: seq<State>, steps: seq<Step>)
    requires limit >= -1 && IsRun(threads, limit, states, steps)
    ensures Inv(states[|steps|], limit)
    decreases |steps|
  {
    if steps == [] {
      InitInv(threads, limit);
    } else {
      var n := |steps| - 1;
      assert IsRun(threads, limit, states[..n + 1], steps[..n]);
      RunKeeps(threads, limit, states[..n + 1], steps[..n]);
      StepKeeps(states[n], steps[n], limit);
    }
  }
}
