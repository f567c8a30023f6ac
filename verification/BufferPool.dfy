/** The buffer pool of libs/libdstdec/buffer_pool.c.

    A space is named by its position in creation order, so `made` spaces are 0 .. made - 1 and
    `use[b]` is the value of the lock of space b.  `have` is the value of the pool lock. */
module BufferPool {

  datatype Pool = Pool(have: int, free: seq<nat>, limit: int, made: nat, use: seq<nat>)

  predicate Distinct(s: seq<nat>) {
    forall i, j :: 0 <= i < j < |s| ==> s[i] != s[j]
  }

  function Create(limit: int): Pool {
    Pool(0, [], limit, 0, [])
  }

  /** The condition under which a request returns without waiting for a space to come back. */
  predicate CanGet(p: Pool) {
    p.limit != 0 || p.have != 0
  }

  /** What a pool created with `limit` satisfies between any two operations: the lock value is the
      length of the list, a space is listed exactly when nobody uses it, and a limited pool
      creates at most `limit` spaces. */
  ghost predicate PoolInv(p: Pool, limit: int) {
    && p.have == |p.free|
    && |p.use| == p.made
    && Distinct(p.free)
    && (forall i :: 0 <= i < |p.free| ==> p.free[i] < p.made)
    && (forall b :: 0 <= b < p.made ==> (b in p.free <==> p.use[b] == 0))
    && (if limit >= 0 then p.limit >= 0 && p.limit + p.made == limit else p.limit == limit)
  }

  function Get(p: Pool): (r: (Pool, nat))
    requires CanGet(p) && |p.use| == p.made
    requires forall i :: 0 <= i < |p.free| ==> p.free[i] < p.made
  {
    if p.free != [] then
      (p.(have := p.have - 1, free := p.free[1..], use := p.use[p.free[0] := 1]), p.free[0])
    else
      (p.(limit := if p.limit > 0 then p.limit - 1 else p.limit, made := p.made + 1, use := p.use + [1]), p.made)
  }

  function Use(p: Pool, b: nat): Pool
    requires b < |p.use|
  {
    p.(use := p.use[b := p.use[b] + 1])
  }

  function Drop(p: Pool, b: nat): Pool
    requires b < |p.use| && p.use[b] != 0
  {
    var q := if p.use[b] == 1 then p.(free := [b] + p.free, have := p.have + 1) else p;
    q.(use := q.use[b := p.use[b] - 1])
  }

  /** A request hands out a space that nobody used, with use count one, and touches no other
      space; if none was listed, the space is new. */
  lemma GetKeeps(p: Pool, limit: int)
    requires PoolInv(p, limit) && CanGet(p)
    ensures var (q, b) := Get(p);
            && PoolInv(q, limit)
            && b < q.made && q.use[b] == 1
            && (b < p.made ==> p.use[b] == 0 && q.made == p.made)
            && (b >= p.made ==> b == p.made && q.made == p.made + 1 && p.free == [])
            && (forall c :: 0 <= c < p.made && c != b ==> q.use[c] == p.use[c])
  {
    if p.free != [] {
      var q := Get(p).0;
      assert forall c :: c in p.free ==> c in q.free || c == p.free[0];
      assert p.free[0] in p.free;
    }
  }

  lemma DropKeeps(p: Pool, b: nat, limit: int)
    requires PoolInv(p, limit) && b < p.made && p.use[b] != 0
    ensures PoolInv(Drop(p, b), limit)
    ensures Drop(p, b).made == p.made && Drop(p, b).use == p.use[b := p.use[b] - 1]
  {
    var q := Drop(p, b);
    assert b !in p.free;
    if p.use[b] == 1 {
      assert forall c :: c in q.free <==> c == b || c in p.free;
    }
  }

  /** The space that was listed last is the first to be handed out again: a request takes back what
      the drop of a last reference did. */
  lemma GetUndoesDrop(p: Pool, b: nat, limit: int)
    requires PoolInv(p, limit) && b < p.made && p.use[b] == 1
    ensures PoolInv(Drop(p, b), limit) && CanGet(Drop(p, b)) && Get(Drop(p, b)) == (p, b)
  {
    DropKeeps(p, b, limit);
    assert Drop(p, b).free[1..] == p.free;
    assert p.use[b := 0][b := 1] == p.use;
  }

  /** And the drop of a space that was listed takes back the request. */
  lemma DropUndoesGet(p: Pool, limit: int)
    requires PoolInv(p, limit) && p.free != []
    ensures CanGet(p) && var (q, b) := Get(p); PoolInv(q, limit) && b < q.made && q.use[b] == 1 && Drop(q, b) == p
  {
    GetKeeps(p, limit);
    var b := p.free[0];
    assert b in p.free;
    assert p.use[b := 1][b := 0] == p.use;
    assert [b] + p.free[1..] == p.free;
  }

  /** A duplicate-free list of exactly the numbers below n has n elements. */
  lemma {:induction false} FullListLength(s: seq<nat>, n: nat)
    requires Distinct(s)
    requires forall i :: 0 <= i < |s| ==> s[i] < n
    requires forall b :: 0 <= b < n ==> b in s
    ensures |s| == n
  {
    assert |s| > 0 ==> s[0] < n;
    if n > 0 {
      assert n - 1 in s;
      var i :| 0 <= i < |s| && s[i] == n - 1;
      var t := s[..i] + s[i + 1..];
      forall b | 0 <= b < n - 1 ensures b in t {
        assert b in s;
        var j :| 0 <= j < |s| && s[j] == b;
        if j < i { assert t[j] == b; } else { assert t[j - 1] == b; }
      }
      FullListLength(t, n - 1);
    }
  }

  /** Conservation: a pool none of whose spaces is in use lists every space it ever made, which is
      the assertion at the end of buffer_pool_free. */
  lemma AllDropped(p: Pool, limit: int)
    requires PoolInv(p, limit)
    requires forall b :: 0 <= b < p.made ==> p.use[b] == 0
    ensures |p.free| == p.made
  {
    FullListLength(p.free, p.made);
  }

  /** A client's sequence of operations; `Take` stands for a request that would not wait. */
  datatype Op = Take | Share(b: nat) | Return(b: nat)

  predicate Legal(p: Pool, op: Op) {
    match op
    case Take => CanGet(p) && |p.use| == p.made && forall i :: 0 <= i < |p.free| ==> p.free[i] < p.made
    case Share(b) => b < |p.use| && p.use[b] != 0
    case Return(b) => b < |p.use| && p.use[b] != 0
  }

  function Apply(p: Pool, op: Op): Pool
    requires Legal(p, op)
  {
    match op
    case Take => Get(p).0
    case Share(b) => Use(p, b)
    case Return(b) => Drop(p, b)
  }

  ghost predicate Run(p: Pool, ops: seq<Op>, q: Pool)
    decreases |ops|
  {
    if ops == [] then p == q
    else Legal(p, ops[0]) && Run(Apply(p, ops[0]), ops[1..], q)
  }

  /** The number of references handed out minus the number given back. */
  function Balance(ops: seq<Op>): int {
    if ops == [] then 0 else (if ops[0].Return? then -1 else 1) + Balance(ops[1..])
  }

  function Total(use: seq<nat>): nat {
    if use == [] then 0 else use[0] + Total(use[1..])
  }

  lemma {:induction false} TotalUpdate(use: seq<nat>, b: nat, v: nat)
    requires b < |use|
    ensures Total(use[b := v]) == Total(use) - use[b] + v
  {
    if b == 0 {
      assert use[0 := v][1..] == use[1..];
    } else {
      TotalUpdate(use[1..], b - 1, v);
      assert use[b := v][1..] == use[1..][b - 1 := v];
    }
  }

  lemma {:induction false} TotalAppend(use: seq<nat>, v: nat)
    ensures Total(use + [v]) == Total(use) + v
  {
    if use != [] {
      TotalAppend(use[1..], v);
      assert (use + [v])[1..] == use[1..] + [v];
    }
  }

  lemma {:induction false} TotalZero(use: seq<nat>)
    requires Total(use) == 0
    ensures forall b :: 0 <= b < |use| ==> use[b] == 0
  {
    if use != [] {
      TotalZero(use[1..]);
      forall b | 0 <= b < |use| ensures use[b] == 0 {
        if b > 0 { assert use[b] == use[1..][b - 1]; }
      }
    }
  }

  lemma ApplyKeeps(p: Pool, op: Op, limit: int)
    requires PoolInv(p, limit) && Legal(p, op)
    ensures PoolInv(Apply(p, op), limit)
    ensures Total(Apply(p, op).use) == Total(p.use) + (if op.Return? then -1 else 1)
  {
    match op {
      case Take =>
        GetKeeps(p, limit);
        if p.free != [] {
          TotalUpdate(p.use, p.free[0], 1);
          assert p.free[0] in p.free;
        } else {
          TotalAppend(p.use, 1);
        }
      case Share(b) => TotalUpdate(p.use, b, p.use[b] + 1);
      case Return(b) => DropKeeps(p, b, limit); TotalUpdate(p.use, b, p.use[b] - 1);
    }
  }

  /** Conservation over every run: the invariant always holds, the use counts add up to the
      references still out, and once everything has been returned the pool owns all its spaces. */
  lemma {:induction false} RunKeeps(p: Pool, ops: seq<Op>, q: Pool, limit: int)
    requires PoolInv(p, limit) && Run(p, ops, q)
    ensures PoolInv(q, limit)
    ensures Total(q.use) == Total(p.use) + Balance(ops)
    ensures Total(q.use) == 0 ==> |q.free| == q.made
    decreases |ops|
  {
    if ops != [] {
      ApplyKeeps(p, ops[0], limit);
      RunKeeps(Apply(p, ops[0]), ops[1..], q, limit);
    } else if Total(q.use) == 0 {
      TotalZero(q.use);
      AllDropped(q, limit);
    }
  }

  lemma RunFromCreate(limit: int, ops: seq<Op>, q: Pool)
    requires limit >= -1 && Run(Create(limit), ops, q)
    ensures limit >= 0 ==> q.limit + q.made == limit && q.made <= limit
    ensures Total(q.use) == Balance(ops)
    ensures Balance(ops) == 0 ==> |q.free| == q.made
  {
    RunKeeps(Create(limit), ops, q, limit);
  }

  /** The pool object.  A request that would have to wait is not enabled, so the methods state the
      atomic effect each call has once its waiting is over. */
  class BufferPool {
    var have: int
    var head: seq<nat>
    var limit: int
    var made: nat
    var use: seq<nat>

    function State(): Pool
      reads this
    {
      Pool(have, head, limit, made, use)
    }

    constructor (limit: int)
      ensures State() == Create(limit)
    {
      this.have, this.head, this.limit, this.made, this.use := 0, [], limit, 0, [];
    }

    method GetSpace(ghost created: int) returns (space: nat)
      requires PoolInv(State(), created) && CanGet(State())
      modifies this
      ensures (State(), space) == Get(old(State()))
      ensures PoolInv(State(), created) && space < made && use[space] == 1
    {
      GetKeeps(State(), created);
      if head != [] {
        space := head[0];
        assert space in head;
        head := head[1..];
        have := have - 1;
        use := use[space := 1];
        return;
      }
      assert limit != 0;
      if limit > 0 {
        limit := limit - 1;
      }
      space := made;
      made := made + 1;
      use := use + [1];
    }

    method UseSpace(space: nat, ghost created: int)
      requires PoolInv(State(), created) && space < made && use[space] != 0
      modifies this
      ensures State() == Use(old(State()), space) && PoolInv(State(), created)
    {
      use := use[space := use[space] + 1];
    }

    method DropSpace(space: nat, ghost created: int)
      requires PoolInv(State(), created) && space < made && use[space] != 0
      modifies this
      ensures State() == Drop(old(State()), space) && PoolInv(State(), created)
    {
      DropKeeps(State(), space, created);
      var value := use[space];
      if value == 1 {
        head := [space] + head;
        have := have + 1;
      }
      use := use[space := value - 1];
    }

    method Free(ghost created: int) returns (count: nat)
      requires PoolInv(State(), created)
      requires forall b :: 0 <= b < made ==> use[b] == 0
      modifies this
      ensures head == [] && count == made == old(made)
    {
      AllDropped(State(), created);
      count := 0;
      while head != []
        invariant count + |head| == made == old(made)
      {
        head := head[1..];
        count := count + 1;
      }
    }
  }
}
