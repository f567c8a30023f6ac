/** The argument permutation of tools/sacd_extract/getopt.c: `exchange`, and the scan of
    _getopt_internal in PERMUTE order. */
module Getopt {

  /** An element of argv. */
  datatype Arg = Arg(text: string)

  /** What is at place m when the blocks of `len` elements at i and at j are swapped. */
  function SwappedAt(a: seq<Arg>, i: nat, j: nat, len: nat, m: nat): Arg
    requires i + len <= j && j + len <= |a| && m < |a|
  {
    if i <= m < i + len then a[m + (j - i)] else if j <= m < j + len then a[m - (j - i)] else a[m]
  }

  function Swapped(a: seq<Arg>, i: nat, j: nat, len: nat): (b: seq<Arg>)
    requires i + len <= j && j + len <= |a|
  {
    seq(|a|, m requires 0 <= m < |a| => SwappedAt(a, i, j, len, m))
  }

  /** Swaps two blocks. */
  method SwapBlocks(argv: array<Arg>, i: nat, j: nat, len: nat)
    requires i + len <= j && j + len <= argv.Length
    modifies argv
    ensures argv[..] == Swapped(old(argv[..]), i, j, len)
  {
    ghost var a := argv[..];
    for k := 0 to len
      invariant forall m :: 0 <= m < argv.Length ==> argv[m] == SwappedAt(a, i, j, k, m)
    {
      var tem := argv[i + k];
      argv[i + k] := argv[j + k];
      argv[j + k] := tem;
    }
  }

  /** The parts from `bottom` to `middle` and from `middle` to `top` in exchanged order. */
  ghost function Exchanged(a: seq<Arg>, bottom: nat, middle: nat, top: nat): (b: seq<Arg>)
    requires bottom <= middle <= top <= |a|
  {
    seq(|a|, k requires 0 <= k < |a| =>
      if bottom <= k < bottom + (top - middle) then a[k + (middle - bottom)]
      else if bottom + (top - middle) <= k < top then a[k - (top - middle)]
      else a[k])
  }

  /** In other words: the second part, then the first, and nothing else touched. */
  lemma ExchangedParts(a: seq<Arg>, bottom: nat, middle: nat, top: nat)
    requires bottom <= middle <= top <= |a|
    ensures Exchanged(a, bottom, middle, top) == a[..bottom] + a[middle..top] + a[bottom..middle] + a[top..]
  {
  }

  /** The short part is in place when it has been swapped with the far end of the long part. */
  lemma BottomMoved(a: seq<Arg>, b: seq<Arg>, bottom: nat, middle: nat, top: nat, len: nat)
    requires bottom <= middle <= top <= |a| == |b| && len == middle - bottom <= top - middle && b == Swapped(a, bottom, top - len, len)
    ensures Exchanged(b, bottom, middle, top - len) == Exchanged(a, bottom, middle, top)
  {
  }

  lemma TopMoved(a: seq<Arg>, b: seq<Arg>, bottom: nat, middle: nat, top: nat, len: nat)
    requires bottom <= middle <= top <= |a| == |b| && len == top - middle <= middle - bottom && b == Swapped(a, bottom, middle, len)
    ensures Exchanged(b, bottom + len, middle, top) == Exchanged(a, bottom, middle, top)
  {
  }

  /** The first branch of the loop. */
  method MoveBottom(argv: array<Arg>, bottom: nat, middle: nat, top: nat)
    requires bottom <= middle <= top <= argv.Length && middle - bottom < top - middle
    modifies argv
    ensures Exchanged(argv[..], bottom, middle, top - (middle - bottom)) == Exchanged(old(argv[..]), bottom, middle, top)
  {
    ghost var a := argv[..];
    SwapBlocks(argv, bottom, top - (middle - bottom), middle - bottom);
    ghost var b := argv[..];
    BottomMoved(a, b, bottom, middle, top, middle - bottom);
  }

  /** The second branch of the loop. */
  method MoveTop(argv: array<Arg>, bottom: nat, middle: nat, top: nat)
    requires bottom <= middle <= top <= argv.Length && top - middle <= middle - bottom
    modifies argv
    ensures Exchanged(argv[..], bottom + (top - middle), middle, top) == Exchanged(old(argv[..]), bottom, middle, top)
  {
    ghost var a := argv[..];
    SwapBlocks(argv, bottom, middle, top - middle);
    ghost var b := argv[..];
    TopMoved(a, b, bottom, middle, top, top - middle);
  }

  lemma NothingLeft(a: seq<Arg>, bottom: nat, middle: nat, top: nat)
    requires bottom <= middle <= top <= |a| && (top == middle || middle == bottom)
    ensures Exchanged(a, bottom, middle, top) == a
  {
  }

  /** The loop of `exchange`: the part from `last` to `optind` moves in front of the part from
      `first` to `last`, both keep their order, and nothing else is touched. */
  method Exchange(argv: array<Arg>, first: nat, last: nat, optind: nat)
    requires first <= last <= optind <= argv.Length
    modifies argv
    ensures argv[..] == Exchanged(old(argv[..]), first, last, optind)
  {
    var bottom, middle, top := first, last, optind;
    ghost var goal := Exchanged(argv[..], first, last, optind);
    while top > middle && middle > bottom
      invariant first <= bottom <= middle <= top <= optind
      invariant Exchanged(argv[..], bottom, middle, top) == goal
      decreases top - bottom
    {
      if top - middle > middle - bottom {
        MoveBottom(argv, bottom, middle, top);
        top := top - (middle - bottom);
      } else {
        MoveTop(argv, bottom, middle, top);
        bottom := bottom + (top - middle);
      }
    }
    NothingLeft(argv[..], bottom, middle, top);
  }

  // ----- the scan -----

  /** NONOPTION_P */
  predicate NonOption(a: Arg) { |a.text| <= 1 || a.text[0] != '-' }

  const DASHES: Arg := Arg("--")

  /** Arguments that are not empty, not a single dash, and begin with a dash are options. */
  lemma OptionsLook(text: string)
    ensures !NonOption(Arg(text)) <==> exists c: char, more: string :: text == ['-', c] + more
  {
    if !NonOption(Arg(text)) { assert text == ['-', text[1]] + text[2..]; }
  }

  /** What a scan of the arguments from i on makes of them: the options with their own arguments (and
      the `--` that ends them), and everything else.  `wants` says which options take the next
      argument, if there is one. */
  datatype Sorted = Sorted(opts: seq<Arg>, rest: seq<Arg>)

  function Width(args: seq<Arg>, i: nat, wants: Arg -> bool): nat
    requires i < |args|
  {
    if wants(args[i]) && i + 1 < |args| then 2 else 1
  }

  function Sort(args: seq<Arg>, i: nat, wants: Arg -> bool): Sorted
    requires i <= |args|
    decreases |args| - i
  {
    if i == |args| then Sorted([], [])
    else if NonOption(args[i]) then
      var s := Sort(args, i + 1, wants);
      Sorted(s.opts, [args[i]] + s.rest)
    else if args[i] == DASHES then Sorted([DASHES], args[i + 1..])
    else
      var w := Width(args, i, wants);
      var s := Sort(args, i + w, wants);
      Sorted(args[i..i + w] + s.opts, s.rest)
  }

  /** What calls of getopt report: an option with its own argument, if it has one, or the end. */
  datatype Next = Option(opt: Arg, own: seq<Arg>) | End

  /** The options that a scan of the arguments from i on reports, in order. */
  function Reports(args: seq<Arg>, i: nat, wants: Arg -> bool): seq<Next>
    requires i <= |args|
    decreases |args| - i
  {
    if i == |args| then []
    else if NonOption(args[i]) then Reports(args, i + 1, wants)
    else if args[i] == DASHES then []
    else [Option(args[i], args[i + 1..i + Width(args, i, wants)])] + Reports(args, i + Width(args, i, wants), wants)
  }

  /** The scan of `args` has come to i and left `a`: options up to `first` and from `last` to i,
      non-options between. */
  ghost predicate BetweenAt(args: seq<Arg>, a: seq<Arg>, first: nat, last: nat, i: nat, wants: Arg -> bool) {
    && |args| == |a| && 1 <= first <= last <= i <= |args| && a[..1] == args[..1] && a[i..] == args[i..]
    && var s := Sort(args, i, wants); Sort(args, 1, wants) == Sorted(a[1..first] + a[last..i] + s.opts, a[first..last] + s.rest)
  }

  /** The same with all options in front of all non-options. */
  ghost predicate SettledAt(args: seq<Arg>, a: seq<Arg>, first: nat, i: nat, wants: Arg -> bool) {
    && |args| == |a| && 1 <= first <= i <= |args| && a[..1] == args[..1] && a[i..] == args[i..]
    && var s := Sort(args, i, wants); Sort(args, 1, wants) == Sorted(a[1..first] + s.opts, a[first..i] + s.rest)
  }

  lemma SettleAt(args: seq<Arg>, a: seq<Arg>, b: seq<Arg>, first: nat, last: nat, i: nat, wants: Arg -> bool)
    requires BetweenAt(args, a, first, last, i, wants) && b == Exchanged(a, first, last, i)
    ensures SettledAt(args, b, first + (i - last), i, wants)
  {
    SettledParts(a, first, last, i);
  }

  lemma NothingSkipped(args: seq<Arg>, a: seq<Arg>, first: nat, i: nat, wants: Arg -> bool)
    requires BetweenAt(args, a, first, first, i, wants)
    ensures SettledAt(args, a, i, i, wants)
  {
    assert a[1..first] + a[first..i] == a[1..i] && a[i..i] == a[first..first] == [];
  }

  lemma NothingSince(args: seq<Arg>, a: seq<Arg>, first: nat, i: nat, wants: Arg -> bool)
    requires BetweenAt(args, a, first, i, i, wants)
    ensures SettledAt(args, a, first, i, wants)
  {
    assert a[1..first] + a[i..i] == a[1..first];
  }

  lemma SkippedAt(args: seq<Arg>, a: seq<Arg>, first: nat, i: nat, wants: Arg -> bool)
    requires SettledAt(args, a, first, i, wants) && i < |args| && NonOption(a[i])
    ensures SettledAt(args, a, first, i + 1, wants)
  {
    var s := Sort(args, i + 1, wants);
    assert args[i] == args[i..][0] == a[i..][0];
    assert a[i + 1..] == a[i..][1..] == args[i..][1..] == args[i + 1..];
    assert a[first..i + 1] == a[first..i] + [args[i]];
    assert a[first..i] + ([args[i]] + s.rest) == a[first..i] + [args[i]] + s.rest;
  }

  /** An option and its own argument are behind the non-options that were skipped. */
  lemma OptionAt(args: seq<Arg>, a: seq<Arg>, first: nat, i: nat, wants: Arg -> bool)
    requires SettledAt(args, a, first, i, wants) && i < |args| && !NonOption(a[i]) && a[i] != DASHES
    ensures var w := Width(a, i, wants); i + w <= |a| && BetweenAt(args, a, first, i, i + w, wants)
  {
    assert args[i] == args[i..][0] == a[i..][0];
    var w := Width(args, i, wants);
    var s := Sort(args, i + w, wants);
    assert a[i + w..] == a[i..][w..] == args[i..][w..] == args[i + w..];
    assert a[i..i + w] == a[i..][..w] == args[i..][..w] == args[i..i + w];
    assert a[1..first] + (args[i..i + w] + s.opts) == a[1..first] + a[i..i + w] + s.opts;
  }

  lemma ReportAt(args: seq<Arg>, a: seq<Arg>, i: nat, wants: Arg -> bool)
    requires i < |args| == |a| && a[i..] == args[i..] && !NonOption(a[i]) && a[i] != DASHES
    ensures var w := if wants(a[i]) && i + 1 < |a| then 2 else 1;
            Reports(args, i, wants) == [Option(a[i], a[i + 1..i + w])] + Reports(args, i + w, wants)
  {
    assert args[i] == args[i..][0] == a[i..][0];
    var w := Width(args, i, wants);
    assert a[i + 1..i + w] == a[i..][1..w] == args[i..][1..w] == args[i + 1..i + w];
  }

  lemma NothingReported(args: seq<Arg>, a: seq<Arg>, i: nat, wants: Arg -> bool)
    requires i <= |args| == |a| && a[i..] == args[i..] && (i < |a| ==> a[i] == DASHES)
    ensures Reports(args, i, wants) == []
  {
    if i < |a| { assert args[i] == args[i..][0] == a[i..][0]; }
  }

  lemma DashesMoved(a: seq<Arg>, first: nat, i: nat)
    requires 1 <= first <= i < |a|
    ensures var b := Exchanged(a, first, i, i + 1); b[..first + 1] == a[..first] + a[i..i + 1] && b[first + 1..] == a[first..i] + a[i + 1..]
  {
  }

  /** `--` is put behind the options, and the rest are non-options. */
  lemma DashesAt(args: seq<Arg>, a: seq<Arg>, first: nat, i: nat, wants: Arg -> bool)
    requires SettledAt(args, a, first, i, wants) && i < |args| && a[i] == DASHES
    ensures OverAt(args, Exchanged(a, first, i, i + 1), first + 1, wants)
  {
    assert args[i] == args[i..][0] == a[i..][0];
    assert args[i + 1..] == args[i..][1..] == a[i..][1..] == a[i + 1..];
    var s := Sort(args, 1, wants);
    assert s == Sorted(a[1..first] + [DASHES], a[first..i] + a[i + 1..]);
    assert a[i..i + 1] == [DASHES] && a[..first] == a[..1] + a[1..first];
    DashesMoved(a, first, i);
  }

  /** At the end all is in its place. */
  lemma EndAt(args: seq<Arg>, a: seq<Arg>, first: nat, wants: Arg -> bool)
    requires SettledAt(args, a, first, |args|, wants)
    ensures OverAt(args, a, first, wants)
  {
    assert a[..first] == a[..1] + a[1..first] && a[first..|args|] == a[first..];
  }

  /** All options are in front of all non-options, which begin at i. */
  ghost predicate OverAt(args: seq<Arg>, a: seq<Arg>, i: nat, wants: Arg -> bool) {
    && 1 <= i <= |a| == |args|
    && var s := Sort(args, 1, wants); a[..i] == args[..1] + s.opts && a[i..] == s.rest
  }

  class Scanner {
    const argv: array<Arg>
    const wants: Arg -> bool
    var optind: nat
    var firstNonopt: nat
    var lastNonopt: nat

    ghost predicate Between(args: seq<Arg>)
      reads this, argv
    {
      BetweenAt(args, argv[..], firstNonopt, lastNonopt, optind, wants)
    }

    ghost predicate Settled(args: seq<Arg>)
      reads this, argv
    {
      SettledAt(args, argv[..], firstNonopt, optind, wants)
    }

    /** All options are in front of all non-options, which begin at `firstNonopt`. */
    ghost predicate Done(args: seq<Arg>)
      reads this, argv
    {
      OverAt(args, argv[..], firstNonopt, wants)
    }

    /** The scan is over: the options are in front, and `optind` is at the others. */
    ghost predicate Over(args: seq<Arg>)
      reads this, argv
    {
      OverAt(args, argv[..], optind, wants)
    }

    constructor (argv: array<Arg>, wants: Arg -> bool)
      requires argv.Length >= 1
      ensures this.argv == argv && this.wants == wants && Between(argv[..])
    {
      this.argv, this.wants, optind, firstNonopt, lastNonopt := argv, wants, 1, 1, 1;
      new;
      assert argv[1..1] + argv[1..1] + Sort(argv[..], 1, wants).opts == Sort(argv[..], 1, wants).opts;
      assert argv[1..1] + Sort(argv[..], 1, wants).rest == Sort(argv[..], 1, wants).rest;
    }

    /** `exchange` with the records it updates. */
    method ExchangeSkipped()
      requires firstNonopt <= lastNonopt <= optind <= argv.Length
      modifies this`firstNonopt, argv
      ensures argv[..] == Exchanged(old(argv[..]), old(firstNonopt), lastNonopt, optind) && firstNonopt == old(firstNonopt) + (optind - lastNonopt)
    {
      Exchange(argv, firstNonopt, lastNonopt, optind);
      firstNonopt := firstNonopt + (optind - lastNonopt);
    }

    /** Nothing to exchange: no non-options, or no options behind them. */
    method SettleWithout(ghost args: seq<Arg>)
      requires Between(args) && (firstNonopt == lastNonopt || lastNonopt == optind)
      modifies this`firstNonopt
      ensures Settled(args)
    {
      ghost var a := argv[..];
      if lastNonopt != optind {
        NothingSkipped(args, a, firstNonopt, optind, wants);
        firstNonopt := optind;
      } else {
        NothingSince(args, a, firstNonopt, optind, wants);
      }
    }

    /** Moves options that were processed behind non-options in front of these. */
    method Settle(ghost args: seq<Arg>)
      requires Between(args)
      modifies this`firstNonopt, argv
      ensures Settled(args)
    {
      ghost var a, first := argv[..], firstNonopt;
      if firstNonopt != lastNonopt && lastNonopt != optind {
        ExchangeSkipped();
        ghost var b := argv[..];
        SettleAt(args, a, b, first, lastNonopt, optind, wants);
      } else {
        SettleWithout(args);
      }
    }

    /** Skips non-options. */
    method Skip(ghost args: seq<Arg>)
      requires Settled(args)
      modifies this`optind
      ensures Settled(args) && optind >= old(optind) && (optind == argv.Length || !NonOption(argv[optind]))
      ensures Reports(args, optind, wants) == Reports(args, old(optind), wants)
    {
      while optind < argv.Length && NonOption(argv[optind])
        invariant Settled(args) && optind >= old(optind)
        invariant Reports(args, optind, wants) == Reports(args, old(optind), wants)
        decreases argv.Length - optind
      {
        SkippedAt(args, argv[..], firstNonopt, optind, wants);
        assert argv[optind] == argv[optind..][0] == args[optind..][0] == args[optind];
        optind := optind + 1;
      }
    }

    /** The element `--`: it counts as an option, and all behind it as non-options. */
    method EndOfOptions(ghost args: seq<Arg>)
      requires Settled(args) && optind < argv.Length && argv[optind] == DASHES && lastNonopt == optind
      modifies this`firstNonopt, this`lastNonopt, this`optind, argv
      ensures Done(args) && lastNonopt == optind == argv.Length
    {
      ghost var a, first, i := argv[..], firstNonopt, optind;
      optind := optind + 1;
      if firstNonopt != lastNonopt && lastNonopt != optind {
        ExchangeSkipped();
      } else if firstNonopt == lastNonopt {
        NothingLeft(a, first, i, i + 1);
        firstNonopt := optind;
      }
      assert argv[..] == Exchanged(a, first, i, i + 1) && firstNonopt == first + 1;
      lastNonopt := argv.Length;
      optind := argv.Length;
      DashesAt(args, a, first, i, wants);
    }

    /** The scan is through: `optind` goes back to the non-options. */
    method Finish(ghost args: seq<Arg>)
      requires Done(args) && lastNonopt == optind == argv.Length
      modifies this`optind
      ensures Over(args)
    {
      if firstNonopt != lastNonopt {
        optind := firstNonopt;
      }
    }

    /** An option, and its own argument, is passed. */
    method PassOption(ghost args: seq<Arg>) returns (next: Next)
      requires Settled(args) && lastNonopt == optind < argv.Length && !NonOption(argv[optind]) && argv[optind] != DASHES
      modifies this`optind
      ensures Between(args) && optind > old(optind) && next.Option?
      ensures Reports(args, old(optind), wants) == [next] + Reports(args, optind, wants)
    {
      var i := optind;
      OptionAt(args, argv[..], firstNonopt, i, wants);
      ReportAt(args, argv[..], i, wants);
      optind := optind + 1;
      var own := [];
      if wants(argv[i]) && optind < argv.Length {
        own := [argv[optind]];
        optind := optind + 1;
      }
      next := Option(argv[i], own);
      assert own == argv[i + 1..optind];
    }

    /** Keeps the non-options behind `optind`, should that have been moved back. */
    method StayBehind()
      modifies this`firstNonopt, this`lastNonopt
      ensures lastNonopt == if old(lastNonopt) > optind then optind else old(lastNonopt)
      ensures firstNonopt == if old(firstNonopt) > optind then optind else old(firstNonopt)
    {
      if lastNonopt > optind { lastNonopt := optind; }
      if firstNonopt > optind { firstNonopt := optind; }
    }

    /** Puts the elements in order up to the next one that is no non-option. */
    method Advance(ghost args: seq<Arg>)
      requires Between(args)
      modifies this, argv
      ensures Settled(args) && lastNonopt == optind >= old(optind) && (optind == argv.Length || !NonOption(argv[optind]))
      ensures Reports(args, optind, wants) == Reports(args, old(optind), wants)
    {
      StayBehind();
      Settle(args);
      Skip(args);
      lastNonopt := optind;
    }

    /** `--`, or the end of the arguments. */
    method Close(ghost args: seq<Arg>)
      requires Settled(args) && lastNonopt == optind && (optind == argv.Length || argv[optind] == DASHES)
      modifies this, argv
      ensures Over(args)
    {
      if optind != argv.Length {
        EndOfOptions(args);
      } else {
        EndAt(args, argv[..], firstNonopt, wants);
      }
      Finish(args);
    }

    /** What is left to report after a call that reported `next`. */
    ghost function Rest(args: seq<Arg>, next: Next): seq<Next>
      requires optind <= |args|
      reads this
    {
      if next.Option? then [next] + Reports(args, optind, wants) else []
    }

    /** One call of _getopt_internal in PERMUTE order, at the boundary of two elements; an option is
        passed and reported together with its own argument. */
    method NextElement(ghost args: seq<Arg>) returns (next: Next)
      requires Between(args)
      modifies this, argv
      ensures if next.Option? then Between(args) && optind > old(optind) else Over(args)
      ensures Reports(args, old(optind), wants) == Rest(args, next)
    {
      Advance(args);
      ghost var reports := Reports(args, optind, wants);
      if optind == argv.Length || argv[optind] == DASHES {
        NothingReported(args, argv[..], optind, wants);
        Close(args);
        return End;
      }
      next := PassOption(args);
    }

    /** A whole scan: the options (and their arguments) are in front in their order, the others behind
        in theirs, and `optind` is at the first of these; every option was reported once and in order. */
    method Scan(ghost args: seq<Arg>) returns (reported: seq<Next>)
      requires Between(args)
      modifies this, argv
      ensures Over(args) && reported == Reports(args, old(optind), wants)
    {
      reported := [];
      ghost var all := Reports(args, optind, wants);
      var next := NextElement(args);
      while next.Option?
        invariant if next.Option? then Between(args) else Over(args)
        invariant all == reported + Rest(args, next)
        decreases next.Option?, argv.Length - optind
      {
        reported := reported + [next];
        next := NextElement(args);
      }
    }
  }

  // ----- command lines by their meaning -----

  /** What a user writes: a plain argument, an option, or an option with its argument. */
  datatype Part = Plain(arg: Arg) | Flag(opt: Arg) | WithArg(opt: Arg, arg: Arg)

  predicate IsOption(a: Arg) { !NonOption(a) && a != DASHES }

  /** The option's own argument may be anything, also if it looks like an option. */
  predicate LegalPart(p: Part, wants: Arg -> bool) {
    match p
    case Plain(arg) => NonOption(arg)
    case Flag(opt) => IsOption(opt) && !wants(opt)
    case WithArg(opt, _) => IsOption(opt) && wants(opt)
  }

  predicate LegalParts(ps: seq<Part>, wants: Arg -> bool) { forall k :: 0 <= k < |ps| ==> LegalPart(ps[k], wants) }

  /** What may follow: nothing, `--` and anything, or an option whose argument is missing. */
  predicate LegalTail(tail: seq<Arg>, wants: Arg -> bool) {
    tail == [] || tail[0] == DASHES || (|tail| == 1 && IsOption(tail[0]) && wants(tail[0]))
  }

  function PartArgs(p: Part): seq<Arg> {
    match p
    case Plain(arg) => [arg]
    case Flag(opt) => [opt]
    case WithArg(opt, arg) => [opt, arg]
  }

  function Line(ps: seq<Part>): seq<Arg> { if ps == [] then [] else PartArgs(ps[0]) + Line(ps[1..]) }

  /** The options with their arguments, in order, and the plain arguments. */
  function Options(ps: seq<Part>): seq<Arg> {
    if ps == [] then [] else (if ps[0].Plain? then [] else PartArgs(ps[0])) + Options(ps[1..])
  }

  function Plains(ps: seq<Part>): seq<Arg> {
    if ps == [] then [] else (if ps[0].Plain? then PartArgs(ps[0]) else []) + Plains(ps[1..])
  }

  lemma SameBehind(a: seq<Arg>, i: nat, b: seq<Arg>, j: nat, w: nat)
    requires i <= |a| && j <= |b| && a[i..] == b[j..] && w <= |a| - i
    ensures w <= |b| - j && a[i..i + w] == b[j..j + w] && a[i + w..] == b[j + w..]
    ensures i < |a| ==> j < |b| && a[i] == b[j]
  {
    assert a[i..i + w] == a[i..][..w] && b[j..j + w] == b[j..][..w];
    assert a[i + w..] == a[i..][w..] && b[j + w..] == b[j..][w..];
    if i < |a| { assert a[i] == a[i..][0] && b[j] == b[j..][0]; }
  }

  /** Only what is ahead matters. */
  lemma {:induction false} SortAhead(a: seq<Arg>, i: nat, b: seq<Arg>, j: nat, wants: Arg -> bool)
    requires i <= |a| && j <= |b| && a[i..] == b[j..]
    ensures Sort(a, i, wants) == Sort(b, j, wants)
    decreases |a| - i
  {
    assert |a| - i == |b| - j;
    if i < |a| {
      SameBehind(a, i, b, j, 1);
      if NonOption(a[i]) {
        SortAhead(a, i + 1, b, j + 1, wants);
      } else if a[i] != DASHES {
        var w := Width(a, i, wants);
        SameBehind(a, i, b, j, w);
        SortAhead(a, i + w, b, j + w, wants);
      }
    }
  }

  lemma SortPart(p: Part, rest: seq<Arg>, wants: Arg -> bool)
    requires LegalPart(p, wants)
    ensures var all, s := PartArgs(p) + rest, Sort(rest, 0, wants);
            Sort(all, 0, wants) == if p.Plain? then Sorted(s.opts, PartArgs(p) + s.rest) else Sorted(PartArgs(p) + s.opts, s.rest)
  {
    var all, front := PartArgs(p) + rest, PartArgs(p);
    assert all[|front|..] == rest == rest[0..];
    SortAhead(all, |front|, rest, 0, wants);
    assert all[0] == front[0] && all[0..|front|] == front;
  }

  function TailOptions(tail: seq<Arg>): seq<Arg> { if tail != [] && tail[0] == DASHES then [DASHES] else tail }

  function TailPlains(tail: seq<Arg>): seq<Arg> { if tail != [] && tail[0] == DASHES then tail[1..] else [] }

  /** Any command line is sorted into its options, each with its own argument behind it, and its plain
      arguments; `--` ends the options, and the rest behind it is plain. */
  lemma {:induction false} LineSorted(ps: seq<Part>, tail: seq<Arg>, wants: Arg -> bool)
    requires LegalParts(ps, wants) && LegalTail(tail, wants)
    ensures Sort(Line(ps) + tail, 0, wants) == Sorted(Options(ps) + TailOptions(tail), Plains(ps) + TailPlains(tail))
    decreases |ps|
  {
    if ps == [] {
      assert Line(ps) + tail == tail;
      TailSorted(tail, wants);
      assert [] + TailOptions(tail) == TailOptions(tail) && [] + TailPlains(tail) == TailPlains(tail);
    } else {
      LineSorted(ps[1..], tail, wants);
      OneMorePart(ps[0], ps[1..], tail, wants);
      assert ps == [ps[0]] + ps[1..];
    }
  }

  lemma Assoc3(a: seq<Arg>, b: seq<Arg>, c: seq<Arg>)
    ensures (a + b) + c == a + (b + c) && [] + a == a
  {
  }

  lemma OneMorePart(p: Part, rest: seq<Part>, tail: seq<Arg>, wants: Arg -> bool)
    requires LegalPart(p, wants) && Sort(Line(rest) + tail, 0, wants) == Sorted(Options(rest) + TailOptions(tail), Plains(rest) + TailPlains(tail))
    ensures var ps := [p] + rest; Sort(Line(ps) + tail, 0, wants) == Sorted(Options(ps) + TailOptions(tail), Plains(ps) + TailPlains(tail))
  {
    var ps, part := [p] + rest, PartArgs(p);
    assert ps[0] == p && ps[1..] == rest;
    Assoc3(part, Line(rest), tail);
    Assoc3(part, Options(rest), TailOptions(tail));
    Assoc3(part, Plains(rest), TailPlains(tail));
    Assoc3(Options(rest), [], []);
    Assoc3(Plains(rest), [], []);
    SortPart(p, Line(rest) + tail, wants);
  }

  lemma TailSorted(tail: seq<Arg>, wants: Arg -> bool)
    requires LegalTail(tail, wants)
    ensures Sort(tail, 0, wants) == Sorted(TailOptions(tail), TailPlains(tail))
  {
    if tail != [] && tail[0] != DASHES {
      assert tail[0..1] == tail;
      assert Sort(tail, 1, wants) == Sorted([], []);
    }
  }

  function PartReports(p: Part): seq<Next> {
    match p
    case Plain(_) => []
    case Flag(opt) => [Option(opt, [])]
    case WithArg(opt, arg) => [Option(opt, [arg])]
  }

  function LineReports(ps: seq<Part>): seq<Next> { if ps == [] then [] else PartReports(ps[0]) + LineReports(ps[1..]) }

  lemma {:induction false} ReportsAhead(a: seq<Arg>, i: nat, b: seq<Arg>, j: nat, wants: Arg -> bool)
    requires i <= |a| && j <= |b| && a[i..] == b[j..]
    ensures Reports(a, i, wants) == Reports(b, j, wants)
    decreases |a| - i
  {
    assert |a| - i == |b| - j;
    if i < |a| {
      SameBehind(a, i, b, j, 1);
      if NonOption(a[i]) {
        ReportsAhead(a, i + 1, b, j + 1, wants);
      } else if a[i] != DASHES {
        var w := Width(a, i, wants);
        SameBehind(a, i, b, j, w);
        assert a[i + 1..i + w] == a[i..i + w][1..] && b[j + 1..j + w] == b[j..j + w][1..];
        ReportsAhead(a, i + w, b, j + w, wants);
      }
    }
  }

  lemma ReportsPart(p: Part, rest: seq<Arg>, wants: Arg -> bool)
    requires LegalPart(p, wants)
    ensures Reports(PartArgs(p) + rest, 0, wants) == PartReports(p) + Reports(rest, 0, wants)
  {
    var all, front := PartArgs(p) + rest, PartArgs(p);
    assert all[|front|..] == rest == rest[0..];
    ReportsAhead(all, |front|, rest, 0, wants);
    assert all[0] == front[0] && all[1..|front|] == front[1..];
  }

  /** Each option of a command line is reported, with its argument; also one whose argument is missing. */
  lemma {:induction false} LineReported(ps: seq<Part>, tail: seq<Arg>, wants: Arg -> bool)
    requires LegalParts(ps, wants) && LegalTail(tail, wants)
    ensures Reports(Line(ps) + tail, 0, wants)
         == LineReports(ps) + if tail == [] || tail[0] == DASHES then [] else [Option(tail[0], [])]
    decreases |ps|
  {
    if ps == [] {
      assert Line(ps) + tail == tail;
      TailReported(tail, wants);
    } else {
      Assoc3(PartArgs(ps[0]), Line(ps[1..]), tail);
      LineReported(ps[1..], tail, wants);
      ReportsPart(ps[0], Line(ps[1..]) + tail, wants);
    }
  }

  lemma TailReported(tail: seq<Arg>, wants: Arg -> bool)
    requires LegalTail(tail, wants)
    ensures Reports(tail, 0, wants) == if tail == [] || tail[0] == DASHES then [] else [Option(tail[0], [])]
  {
    if tail != [] && tail[0] != DASHES {
      assert Reports(tail, 1, wants) == [] && tail[1..1] == [];
    }
  }

  /** And every list of arguments is a command line. */
  lemma {:induction false} LineOf(args: seq<Arg>, wants: Arg -> bool) returns (ps: seq<Part>, tail: seq<Arg>)
    ensures LegalParts(ps, wants) && LegalTail(tail, wants) && args == Line(ps) + tail
    decreases |args|
  {
    if LegalTail(args, wants) {
      ps, tail := [], args;
    } else {
      var p := if NonOption(args[0]) then Plain(args[0]) else if wants(args[0]) then WithArg(args[0], args[1]) else Flag(args[0]);
      var more;
      more, tail := LineOf(args[|PartArgs(p)|..], wants);
      ps := [p] + more;
      assert ps[1..] == more;
      assert args == PartArgs(p) + args[|PartArgs(p)|..];
    }
  }

  /** Nothing is lost or repeated. */
  lemma OverPermutes(args: seq<Arg>, a: seq<Arg>, i: nat, wants: Arg -> bool)
    requires OverAt(args, a, i, wants)
    ensures multiset(a) == multiset(args)
  {
    var s := Sort(args, 1, wants);
    SortPermutes(args, 1, wants);
    Parted(args, 0, 1);
    Parted(a, 0, i);
    Joined(args[..1], s.opts);
    assert args[0..] == args && a[0..] == a;
  }

  lemma Joined(a: seq<Arg>, b: seq<Arg>)
    ensures multiset(a + b) == multiset(a) + multiset(b)
  {
  }

  lemma Parted(args: seq<Arg>, i: nat, j: nat)
    requires i <= j <= |args|
    ensures multiset(args[i..]) == multiset(args[i..j]) + multiset(args[j..])
  {
    assert args[i..] == args[i..j] + args[j..];
  }

  /** The scan only permutes. */
  lemma {:induction false} SortPermutes(args: seq<Arg>, i: nat, wants: Arg -> bool)
    requires i <= |args|
    ensures multiset(Sort(args, i, wants).opts) + multiset(Sort(args, i, wants).rest) == multiset(args[i..])
    decreases |args| - i
  {
    if i < |args| {
      var x, w := args[i], Width(args, i, wants);
      Parted(args, i, i + 1);
      assert args[i..i + 1] == [x];
      if NonOption(x) {
        var s := Sort(args, i + 1, wants);
        SortPermutes(args, i + 1, wants);
        Joined([x], s.rest);
      } else if x != DASHES {
        var s := Sort(args, i + w, wants);
        SortPermutes(args, i + w, wants);
        Parted(args, i, i + w);
        Joined(args[i..i + w], s.opts);
      }
    }
  }

  lemma SettledParts(a: seq<Arg>, first: nat, last: nat, optind: nat)
    requires 1 <= first <= last <= optind <= |a|
    ensures var b, middle := Exchanged(a, first, last, optind), first + (optind - last);
            && |b| == |a| && b[..1] == a[..1] && b[optind..] == a[optind..]
            && b[1..middle] == a[1..first] + a[last..optind] && b[middle..optind] == a[first..last]
  {
    var b, middle := Exchanged(a, first, last, optind), first + (optind - last);
    forall k | 0 <= k < middle - 1 ensures b[1..middle][k] == (a[1..first] + a[last..optind])[k] {
      assert b[1..middle][k] == b[k + 1];
    }
    forall k | 0 <= k < last - first ensures b[middle..optind][k] == a[first..last][k] {
      assert b[middle..optind][k] == b[middle + k];
    }
  }
}
