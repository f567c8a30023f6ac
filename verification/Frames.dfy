/** Frame reassembly of libs/libsacd/scarletbook_read.c, on the audio packets of the sectors: what
    is delivered to the callback is described exactly for any packets. */
module Frames {
  import opened Bits

  /** MAX_DST_SIZE and FRAME_SIZE_64 */
  const MAX_SIZE: nat := 65536
  const DSD_SIZE: nat := 4704

  /** What the frame information of a sector says of a frame that starts in it. */
  datatype Info = Info(dst: bool, sectorCount: nat, channelCount: nat)

  /** An audio packet, which starts a frame or goes on with one. */
  datatype Packet = Start(info: Info, payload: seq<Byte>) | More(payload: seq<Byte>)

  /** handle->frame */
  datatype Frame = Frame(data: seq<Byte>, started: bool, sectorCount: int, channelCount: nat, dst: bool)

  /** A call of the callback. */
  datatype Delivered = Delivered(data: seq<Byte>, dst: bool, channelCount: nat)

  datatype Assembly = Assembly(frame: Frame, out: seq<Delivered>)

  predicate Ready(f: Frame) {
    f.started && |f.data| > 0 && if f.dst then f.sectorCount == 0 else |f.data| % DSD_SIZE == 0
  }

  /** exec_read_callback */
  function Emit(a: Assembly): Assembly {
    if Ready(a.frame) then Assembly(a.frame.(started := false), a.out + [Delivered(a.frame.data, a.frame.dst, a.frame.channelCount)])
    else a
  }

  /** The payload joins a frame that is started; one that gets too long is given up. */
  function Append(f: Frame, payload: seq<Byte>): Frame {
    if !f.started then f
    else if |f.data| + |payload| < MAX_SIZE then
      f.(data := f.data + payload, sectorCount := if f.dst then f.sectorCount - 1 else f.sectorCount)
    else f.(started := false)
  }

  function Begin(info: Info): Frame { Frame([], true, info.sectorCount, info.channelCount, info.dst) }

  function Step(a: Assembly, p: Packet): Assembly {
    match p
    case Start(info, payload) => Emit(a).(frame := Append(Begin(info), payload))
    case More(payload) => a.(frame := Append(a.frame, payload))
  }

  function Steps(a: Assembly, ps: seq<Packet>): Assembly
    decreases |ps|
  {
    if ps == [] then a else Steps(Step(a, ps[0]), ps[1..])
  }

  lemma {:induction false} StepsAppend(a: Assembly, ps: seq<Packet>, qs: seq<Packet>)
    ensures Steps(a, ps + qs) == Steps(Steps(a, ps), qs)
    decreases |ps|
  {
    if ps == [] {
      assert ps + qs == qs;
    } else {
      StepsAppend(Step(a, ps[0]), ps[1..], qs);
      assert (ps + qs)[1..] == ps[1..] + qs;
    }
  }

  // ----- what is delivered, for any packets -----

  /** Everything from one start of a frame up to the next. */
  datatype Run = Run(info: Info, payload: seq<Byte>, packets: nat)

  datatype Current = NoRun | InRun(run: Run)

  function AsRuns(c: Current): seq<Run> { if c.NoRun? then [] else [c.run] }

  function Extend(c: Current, payload: seq<Byte>): Current {
    if c.NoRun? then c else InRun(Run(c.run.info, c.run.payload + payload, c.run.packets + 1))
  }

  /** The runs of the packets behind those of `c`. */
  function Runs(c: Current, ps: seq<Packet>): seq<Run>
    decreases |ps|
  {
    if ps == [] then AsRuns(c)
    else
      match ps[0]
      case Start(info, payload) => AsRuns(c) + Runs(InRun(Run(info, payload, 1)), ps[1..])
      case More(payload) => Runs(Extend(c, payload), ps[1..])
  }

  /** A run that is a frame: below the size limit, and with as many packets as the frame information
      says (DST), or a whole number of frames long (DSD). */
  predicate Complete(r: Run) {
    0 < |r.payload| < MAX_SIZE && if r.info.dst then r.info.sectorCount == r.packets else |r.payload| % DSD_SIZE == 0
  }

  /** The complete ones among the runs, as they are delivered. */
  function Completed(rs: seq<Run>): seq<Delivered>
    decreases |rs|
  {
    if rs == [] then []
    else (if Complete(rs[0]) then [Delivered(rs[0].payload, rs[0].info.dst, rs[0].info.channelCount)] else []) + Completed(rs[1..])
  }

  /** How the frame follows the current run: it is given up as soon as the run is too long. */
  ghost predicate Follows(f: Frame, c: Current) {
    match c
    case NoRun => !f.started
    case InRun(r) =>
      && (f.started <==> |r.payload| < MAX_SIZE)
      && (f.started ==> f == Frame(r.payload, true, if r.info.dst then r.info.sectorCount - r.packets else r.info.sectorCount, r.info.channelCount, r.info.dst))
  }

  lemma EmitDelivers(a: Assembly, c: Current)
    requires Follows(a.frame, c)
    ensures Emit(a).out == a.out + Completed(AsRuns(c))
  {
    if c.InRun? {
      var rs := [c.run];
      assert rs[1..] == [] && Completed(rs[1..]) == [];
      assert Ready(a.frame) <==> Complete(c.run);
    }
  }

  lemma {:induction false} CompletedAppend(rs: seq<Run>, qs: seq<Run>)
    ensures Completed(rs + qs) == Completed(rs) + Completed(qs)
    decreases |rs|
  {
    if rs == [] {
      assert rs + qs == qs;
    } else {
      CompletedAppend(rs[1..], qs);
      assert (rs + qs)[1..] == rs[1..] + qs;
    }
  }

  /** The start of a frame delivers what was under way. */
  lemma StartDelivers(a: Assembly, c: Current, info: Info, payload: seq<Byte>)
    requires Follows(a.frame, c)
    ensures var b := Step(a, Start(info, payload));
            b.out == a.out + Completed(AsRuns(c)) && Follows(b.frame, InRun(Run(info, payload, 1)))
  {
    EmitDelivers(a, c);
    assert [] + payload == payload;
  }

  /** For any packets: what has been delivered when the last block is through is exactly the runs
      that are complete, in order. */
  lemma {:induction false} DeliversCompleteRuns(a: Assembly, c: Current, ps: seq<Packet>)
    requires Follows(a.frame, c)
    ensures Emit(Steps(a, ps)).out == a.out + Completed(Runs(c, ps))
    decreases |ps|
  {
    if ps == [] {
      EmitDelivers(a, c);
    } else {
      var b, rest := Step(a, ps[0]), ps[1..];
      match ps[0] {
        case Start(info, payload) =>
          var d := InRun(Run(info, payload, 1));
          StartDelivers(a, c, info, payload);
          DeliversCompleteRuns(b, d, rest);
          CompletedAppend(AsRuns(c), Runs(d, rest));
          assert b.out + Completed(Runs(d, rest)) == a.out + (Completed(AsRuns(c)) + Completed(Runs(d, rest)));
        case More(payload) =>
          DeliversCompleteRuns(b, Extend(c, payload), rest);
      }
    }
  }

  // ----- frames in packets -----

  /** A frame cut into packets. */
  datatype Packed = Packed(dst: bool, channelCount: nat, chunks: seq<seq<Byte>>)

  function Joined(chunks: seq<seq<Byte>>): seq<Byte>
    decreases |chunks|
  {
    if chunks == [] then [] else chunks[0] + Joined(chunks[1..])
  }

  predicate ValidPacked(f: Packed) {
    f.chunks != [] && 0 < |Joined(f.chunks)| < MAX_SIZE && (!f.dst ==> |Joined(f.chunks)| % DSD_SIZE == 0)
  }

  function Later(chunks: seq<seq<Byte>>): seq<Packet> { seq(|chunks|, i requires 0 <= i < |chunks| => More(chunks[i])) }

  /** The information of a frame: a DST frame has the number of its packets. */
  function InfoFor(f: Packed): Info { Info(f.dst, if f.dst then |f.chunks| else 0, f.channelCount) }

  /** The audio packets of a frame. */
  function PacketsOf(f: Packed): seq<Packet>
    requires f.chunks != []
  {
    [Start(InfoFor(f), f.chunks[0])] + Later(f.chunks[1..])
  }

  predicate AllValid(fs: seq<Packed>)
    decreases |fs|
  {
    fs == [] || (ValidPacked(fs[0]) && AllValid(fs[1..]))
  }

  function AllPackets(fs: seq<Packed>): seq<Packet>
    requires AllValid(fs)
    decreases |fs|
  {
    if fs == [] then [] else PacketsOf(fs[0]) + AllPackets(fs[1..])
  }

  function AllFrames(fs: seq<Packed>): seq<Delivered>
    decreases |fs|
  {
    if fs == [] then [] else [Delivered(Joined(fs[0].chunks), fs[0].dst, fs[0].channelCount)] + AllFrames(fs[1..])
  }

  lemma {:induction false} RunOfChunks(r: Run, chunks: seq<seq<Byte>>, ps: seq<Packet>)
    ensures Runs(InRun(r), Later(chunks) + ps) == Runs(InRun(Run(r.info, r.payload + Joined(chunks), r.packets + |chunks|)), ps)
    decreases |chunks|
  {
    if chunks == [] {
      assert Later(chunks) + ps == ps && r.payload + [] == r.payload;
    } else {
      var s := Run(r.info, r.payload + chunks[0], r.packets + 1);
      RunOfChunks(s, chunks[1..], ps);
      assert (Later(chunks) + ps)[1..] == Later(chunks[1..]) + ps && (Later(chunks) + ps)[0] == More(chunks[0]);
      assert s.payload + Joined(chunks[1..]) == r.payload + (chunks[0] + Joined(chunks[1..]));
    }
  }

  lemma RunOfFrame(c: Current, f: Packed, ps: seq<Packet>)
    requires ValidPacked(f)
    ensures Runs(c, PacketsOf(f) + ps)
         == AsRuns(c) + Runs(InRun(Run(InfoFor(f), Joined(f.chunks), |f.chunks|)), ps)
  {
    var all := PacketsOf(f) + ps;
    var info := InfoFor(f);
    assert all[0] == Start(info, f.chunks[0]) && all[1..] == Later(f.chunks[1..]) + ps;
    RunOfChunks(Run(info, f.chunks[0], 1), f.chunks[1..], ps);
  }

  lemma {:induction false} RunsOfFrames(c: Current, fs: seq<Packed>)
    requires AllValid(fs)
    ensures Completed(Runs(c, AllPackets(fs))) == Completed(AsRuns(c)) + AllFrames(fs)
    decreases |fs|
  {
    if fs == [] {
    } else {
      var f, rest := fs[0], fs[1..];
      var d := InRun(Run(InfoFor(f), Joined(f.chunks), |f.chunks|));
      RunOfFrame(c, f, AllPackets(rest));
      RunsOfFrames(d, rest);
      CompletedAppend(AsRuns(c), Runs(d, AllPackets(rest)));
      assert Complete(d.run) && AsRuns(d)[1..] == [];
      assert Completed(AsRuns(d)) == [Delivered(Joined(f.chunks), f.dst, f.channelCount)];
    }
  }

  /** Cutting frames into packets and assembling them gives exactly those frames in order. */
  lemma FramesRoundTrip(a: Assembly, fs: seq<Packed>)
    requires !a.frame.started && AllValid(fs)
    ensures Emit(Steps(a, AllPackets(fs))).out == a.out + AllFrames(fs)
  {
    var ps := AllPackets(fs);
    DeliversCompleteRuns(a, NoRun, ps);
    RunsOfFrames(NoRun, fs);
    assert Completed(AsRuns(NoRun)) == [];
    assert Completed(Runs(NoRun, ps)) == AllFrames(fs);
  }
}
