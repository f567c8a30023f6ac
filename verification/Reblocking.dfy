/** Sequences that are taken n elements at a time: interleaved samples and interleaved blocks. */
module Reblocking {
  import opened Arithmetic

  /** The length is a multiple of n. */
  predicate IsRounds<T>(s: seq<T>, n: nat)
    requires n >= 1
    decreases |s|
  {
    s == [] || (n <= |s| && IsRounds(s[n..], n))
  }

  function Rounds<T>(s: seq<T>, n: nat): nat
    requires n >= 1 && IsRounds(s, n)
    decreases |s|
  {
    if s == [] then 0 else 1 + Rounds(s[n..], n)
  }

  /** The i-th piece of every round, joined. */
  function Channel<T>(pieces: seq<seq<T>>, n: nat, i: nat): seq<T>
    requires n >= 1 && i < n && IsRounds(pieces, n)
    decreases |pieces|
  {
    if pieces == [] then [] else pieces[i] + Channel(pieces[n..], n, i)
  }

  lemma {:induction false} MultipleIsRounds<T>(s: seq<T>, n: nat, k: nat)
    requires n >= 1 && |s| == Times(n, k)
    ensures IsRounds(s, n) && Rounds(s, n) == k
    decreases k
  {
    if k > 0 { MultipleIsRounds(s[n..], n, k - 1); }
  }

  lemma {:induction false} RoundsLength<T>(s: seq<T>, n: nat)
    requires n >= 1 && IsRounds(s, n)
    ensures |s| == Times(n, Rounds(s, n))
    decreases |s|
  {
    if s != [] { RoundsLength(s[n..], n); }
  }

  lemma {:induction false} RoundsAppend<T>(a: seq<T>, b: seq<T>, n: nat)
    requires n >= 1 && IsRounds(a, n) && IsRounds(b, n)
    ensures IsRounds(a + b, n) && Rounds(a + b, n) == Rounds(a, n) + Rounds(b, n)
    decreases |a|
  {
    if a == [] {
      assert a + b == b;
    } else {
      RoundsAppend(a[n..], b, n);
      assert (a + b)[n..] == a[n..] + b;
    }
  }

  lemma {:induction false} ChannelAppend<T>(a: seq<seq<T>>, b: seq<seq<T>>, n: nat, i: nat)
    requires n >= 1 && i < n && IsRounds(a, n) && IsRounds(b, n)
    ensures IsRounds(a + b, n) && Channel(a + b, n, i) == Channel(a, n, i) + Channel(b, n, i)
    decreases |a|
  {
    RoundsAppend(a, b, n);
    if a == [] {
      assert a + b == b;
    } else {
      ChannelAppend(a[n..], b, n, i);
      assert (a + b)[n..] == a[n..] + b && (a + b)[i] == a[i];
    }
  }

  /** One round. */
  lemma OneRound<T>(b: seq<seq<T>>, n: nat, i: nat)
    requires i < n && |b| == n
    ensures IsRounds(b, n) && Rounds(b, n) == 1 && Channel(b, n, i) == b[i]
  {
    assert b[n..] == [];
    assert Channel(b, n, i) == b[i] + Channel(b[n..], n, i) == b[i];
  }

  lemma Assoc<T>(a: seq<T>, b: seq<T>, c: seq<T>)
    ensures a + b + c == a + (b + c)
  {
  }

  lemma Regroup<T>(a: seq<T>, b: seq<T>, c: seq<T>, d: seq<T>, e: seq<T>)
    requires a + b == c + d
    ensures a + (b + e) == c + (d + e)
  {
    assert a + (b + e) == a + b + e && c + (d + e) == c + d + e;
  }
}
