/** The session object. Each method is one uninterrupted segment and refines one step of a run. */
module LogSessions {
  import opened Basics
  import opened LogTypes
  import R = SessionRuns

  class LogSession {
    const options: R.Options

    var queue: seq<LogLine>
    var dropped: nat
    var paused: bool
    var sending: bool
    var closed: bool
    var ending: bool
    var source: Option<R.SourceId>

    // What has left the session, and what came in.
    ghost var pushed: seq<LogLine>
    ghost var batches: seq<LogsBatch>
    ghost var calls: seq<R.SourceCall>
    ghost var closings: nat

    ghost function World(): R.World
      reads this
    {
      R.World(queue, dropped, paused, sending, closed, ending, source, pushed, batches, calls, closings)
    }

    ghost predicate Valid()
      reads this
    {
      R.Sound(options, World())
    }

    constructor (options: R.Options)
      ensures Valid()
      ensures this.options == options && World() == R.NEW_SESSION
    {
      this.options := options;
      queue, dropped, paused, sending, closed, ending, source := [], 0, false, false, false, false, None;
      pushed, batches, calls, closings := [], [], [], 0;
    }

    method AttachSource(src: R.SourceId)
      requires Valid()
      modifies this
      ensures Valid()
      ensures World() == R.Step(options, old(World()), R.Attached(src))
    {
      R.StepControlled(options, World(), R.Attached(src));
      if closed {
        calls := calls + [R.SourceCall(R.Destroy, src)];
        return;
      }
      source := Some(src);
    }

    method Push(line: LogLine)
      requires Valid()
      modifies this
      ensures Valid()
      ensures World() == R.Step(options, old(World()), R.Line(line))
    {
      R.StepAccounted(options, World(), R.Line(line));
      R.StepControlled(options, World(), R.Line(line));
      if closed {
        return;
      }
      if |queue| >= options.maxQueue {
        queue := queue[1..];
        dropped := dropped + 1;
      }
      queue := queue + [line];
      pushed := pushed + [line];
      if !paused && |queue| >= options.highWater {
        paused := true;
        Tell(R.Pause);
      }
      Flush();
    }

    method End()
      requires Valid()
      modifies this
      ensures Valid()
      ensures World() == R.Step(options, old(World()), R.SourceEnded)
    {
      R.StepControlled(options, World(), R.SourceEnded);
      if closed || ending {
        return;
      }
      ending := true;
      source := None;
      MaybeFinishEnding();
    }

    method Cancel()
      requires Valid()
      modifies this
      ensures Valid()
      ensures World() == R.Step(options, old(World()), R.Cancelled)
    {
      R.StepControlled(options, World(), R.Cancelled);
      Close();
    }

    /** The client confirmed the batch in flight: flush resumes after its await. */
    method Acknowledged()
      requires Valid() && sending
      modifies this
      ensures Valid()
      ensures World() == R.Step(options, old(World()), R.Acked)
    {
      R.StepAccounted(options, World(), R.Acked);
      R.StepControlled(options, World(), R.Acked);
      Turn();
    }

    /** The acknowledgement expired: flush resumes in its catch clause, then its finally clause. */
    method AckExpired()
      requires Valid() && sending
      modifies this
      ensures Valid()
      ensures World() == R.Step(options, old(World()), R.TimedOut)
      ensures closed
    {
      R.StepControlled(options, World(), R.TimedOut);
      Close();
      sending := false;
      MaybeFinishEnding();
    }

    // ----- segments shared by the methods above

    method Flush()
      modifies this
      ensures World() == R.Flush(options, old(World()))
    {
      if sending || closed {
        return;
      }
      sending := true;
      Turn();
    }

    /** flush's loop, from its test to the next await, or to the end of its finally clause. */
    method Turn()
      modifies this
      ensures World() == R.Turn(options, old(World()))
    {
      if queue != [] && !closed {
        var n := Min(options.batchSize, |queue|);
        var batch := LogsBatch(options.container, queue[..n], dropped);
        queue := queue[n..];
        dropped := 0;
        batches := batches + [batch];
        if paused && |queue| <= options.lowWater {
          paused := false;
          Tell(R.Resume);
        }
      } else {
        sending := false;
        MaybeFinishEnding();
      }
    }

    method Close()
      modifies this
      ensures World() == R.Close(old(World()))
    {
      if closed {
        return;
      }
      closed := true;
      queue := [];
      Tell(R.Destroy);
      closings := closings + 1;
    }

    method MaybeFinishEnding()
      modifies this
      ensures World() == R.MaybeFinishEnding(old(World()))
    {
      if ending && !sending && |queue| == 0 && !closed {
        Close();
      }
    }

    ghost method Tell(kind: R.CallKind)
      modifies this`calls
      ensures World() == R.Tell(old(World()), kind)
    {
      if source.Some? {
        calls := calls + [R.SourceCall(kind, source.value)];
      }
    }
  }
}
