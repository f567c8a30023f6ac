/** How many decode threads the parallel decoder runs. */
module DstStaffing {
  import opened BufferPool
  import opened DstPipeline
  import opened DstInvariant
  import opened DstTheorems

  function Min(a: nat, b: nat): nat { if a < b then a else b }

  /** The jobs for which the producer has been past the launch. */
  function Launched(s: State): int { |s.jobs| - (if s.producer.Fill? || s.producer.Launch? then 1 else 0) }

  /** One decode thread for each such job, until there are `procs`. */
  ghost predicate Staffed(c: Config, s: State) {
    && Launched(s) >= 0 && |s.decoders| == Min(c.procs, Launched(s))
    && (s.producer.FreePools? || s.producer.Destroyed? ==> s.cthreads == 0)
  }

  lemma StaffedProducer(c: Config, s: State, step: Step)
    requires Inv(c, s) && Staffed(c, s) && Enabled(c, s, step) && !Next(c, s, step).failed
    requires step.TakeIn? || step.FillIn? || step.Finish? || step.LaunchDecoder? || step.AppendJob?
    ensures Staffed(c, Next(c, s, step))
  {
  }

  lemma StaffedClosing(c: Config, s: State, step: Step)
    requires Staffed(c, s) && Enabled(c, s, step)
    requires step.JoinWriterStep? || step.SendStopStep? || step.JoinOne? || step.JoinEnd? || step.FreeStep?
    ensures Staffed(c, Next(c, s, step))
  {
  }

  lemma StaffedDecoder(c: Config, s: State, step: Step)
    requires Staffed(c, s) && Enabled(c, s, step)
    requires step.TakeJob? || step.TakeOut? || step.Decode? || step.DropInStep? || step.InsertJob? || step.Leave?
    ensures Staffed(c, Next(c, s, step))
  {
  }

  lemma StaffedWriter(c: Config, s: State, step: Step)
    requires Staffed(c, s) && Enabled(c, s, step)
    requires step.TakeResult? || step.ReportStep? || step.EmitStep? || step.DropOutStep? || step.CheckDecodeStep? || step.CheckWriteStep? || step.WriterReturn?
    ensures Staffed(c, Next(c, s, step))
  {
  }

  lemma StaffedKeeps(c: Config, s: State, step: Step)
    requires c.procs >= 1 && Inv(c, s) && Staffed(c, s) && Enabled(c, s, step)
    ensures Staffed(c, Next(c, s, step))
  {
    StepKeeps(c, s, step);
    match step {
      case TakeIn | FillIn | Finish | LaunchDecoder | AppendJob => StaffedProducer(c, s, step);
      case JoinWriterStep | SendStopStep | JoinOne | JoinEnd | FreeStep => StaffedClosing(c, s, step);
      case TakeResult | ReportStep | EmitStep | DropOutStep | CheckDecodeStep | CheckWriteStep | WriterReturn => StaffedWriter(c, s, step);
      case _ => StaffedDecoder(c, s, step);
    }
  }

  lemma {:induction false} RunStaffed(c: Config, states: seq<State>, steps: seq<Step>, k: nat)
    requires c.procs >= 1 && IsRun(c, states, steps) && k <= |steps|
    ensures Inv(c, states[k]) && Staffed(c, states[k])
  {
    if k == 0 {
      InitInv(c);
    } else {
      RunStaffed(c, states, steps, k - 1);
      StepKeeps(c, states[k - 1], steps[k - 1]);
      StaffedKeeps(c, states[k - 1], steps[k - 1]);
    }
  }

  /** How many decode threads run, in every reachable state: between two calls of the interface, one
      for each frame submitted until there are `procs`; and from the wait for the write thread on, one
      for each frame and one for the last job until there are `procs`.  The decoder's count of them
      is right until they are all joined; then it is 0. */
  lemma DecodersLaunched(c: Config, states: seq<State>, steps: seq<Step>)
    requires c.procs >= 1 && IsRun(c, states, steps)
    ensures var s := states[|steps|];
            && (s.producer.Ready? ==> |s.decoders| == s.cthreads == Min(c.procs, |s.jobs|))
            && (s.producer.JoinWriter? || s.producer.SendStop? || s.producer.JoinAll? ==>
                  |s.decoders| == s.cthreads == Min(c.procs, |c.frames| + 1))
            && (s.producer.FreePools? || s.producer.Destroyed? ==> |s.decoders| == Min(c.procs, |c.frames| + 1) && s.cthreads == 0)
  {
    RunStaffed(c, states, steps, |steps|);
  }
}
