/**
  The output stream's calls as one thread runs them when it finds both locks free.  They go
  through exactly the places of AudioOut, whose theorems are about any interleaving of them.
 */
module AudioStream {
  import opened Wrappers
  import opened AudioOut

  const EPIPE := 32
  const ENOMEM := 12

  /** The next `n` steps of a thread that nobody interrupts. */
  function Uninterrupted(t: ThreadId, l: Local, answer: Answer, n: nat): Local
    decreases n
  {
    if n == 0 || l.pc.Idle? then l else Uninterrupted(t, LocalStep(t, l, answer), answer, n - 1)
  }

  /** More steps than any call takes. */
  const WHOLE_CALL := 8

  lemma TwoSteps(t: ThreadId, l: Local, answer: Answer, n: nat)
    requires n >= 2 && l.pc.Busy? && LocalStep(t, l, answer).pc.Busy?
    ensures Uninterrupted(t, l, answer, n) == Uninterrupted(t, LocalStep(t, LocalStep(t, l, answer), answer), answer, n - 2)
  {
  }

  /** out_standby by a thread that finds both locks free, alone or as part of closing the stream. */
  lemma StandbyCall(t: ThreadId, l: Local, answer: Answer)
    requires l.pc.Busy? && l.pc.at.WantDevice? && !l.pc.job.Write? && l.device.None? && l.stream.lock.None?
    ensures Uninterrupted(t, l, answer, WHOLE_CALL) ==
            if l.stream.standby then l.(pc := Idle)
            else l.ClosePcm().(pc := Idle, stream := l.stream.(pcm := None, standby := true))
  {
    var l2 := LocalStep(t, LocalStep(t, l, answer), answer);
    TwoSteps(t, l, answer, 8);
    var l4 := LocalStep(t, LocalStep(t, l2, answer), answer);
    TwoSteps(t, l2, answer, 6);
    if l4.pc.Busy? && LocalStep(t, l4, answer).pc.Busy? {
      TwoSteps(t, l4, answer, 4);
    }
  }

  /** out_write by a thread that finds both locks free, on a stream without a PCM in standby. */
  lemma WriteCall(t: ThreadId, l: Local, answer: Answer)
    requires l.pc.Busy? && l.pc.at.WantDevice? && l.pc.job.Write? && l.device.None? && l.stream.lock.None? && !l.wrote
    requires (l.stream.standby ==> l.stream.pcm.None?) && (answer.pcm.Some? ==> answer.pcm.value !in l.open + l.closed)
    ensures var back := Uninterrupted(t, l, answer, WHOLE_CALL);
      if l.stream.standby && answer.pcm.None? then back == l.(pc := Idle)
      else if l.stream.standby && !answer.ready then back == l.(pc := Idle, closed := l.closed + {answer.pcm.value})
      else back == Local(Idle,
                         Stream(None, if l.stream.standby then answer.pcm else l.stream.pcm, false,
                                if answer.wrote then Add(l.stream.written, l.pc.job.frames) else l.stream.written),
                         None, l.open + if l.stream.standby then {answer.pcm.value} else {}, l.closed, answer.wrote)
  {
    var l2 := LocalStep(t, LocalStep(t, l, answer), answer);
    TwoSteps(t, l, answer, 8);
    var l3 := LocalStep(t, l2, answer);
    var l4 := LocalStep(t, l3, answer);
    TwoSteps(t, l2, answer, 6);
    if l.stream.standby && answer.pcm.Some? {
      TwoSteps(t, l4, answer, 4);
      assert !answer.ready ==> l.open + {answer.pcm.value} - {answer.pcm.value} == l.open;
    } else if !l.stream.standby {
      assert l.open + {} == l.open;
    }
  }

  class StreamOut {
    var device: Option<ThreadId>     // holder of the device lock
    var lock: Option<ThreadId>       // holder of the stream lock
    var pcm: Option<PcmId>
    var standby: bool
    var written: nat
    var open: set<PcmId>             // the driver's PCMs
    var closed: set<PcmId>

    constructor ()
      ensures device.None? && lock.None? && pcm.None? && standby && written == 0 && open == {} && closed == {}
    {
      device, lock, pcm, standby, written, open, closed := None, None, None, true, 0, {}, {};
    }

    ghost predicate Free()
      reads this
    {
      device.None? && lock.None? && Settled(this.Fields(), open) && open !! closed
    }

    function Fields(): Stream
      reads this
    {
      Stream(lock, pcm, standby, written)
    }

    function State(pc: Pc, wrote: bool): Local
      reads this
    {
      Local(pc, Fields(), device, open, closed, wrote)
    }

    /** start_output_stream; `answer` is what the driver says. */
    method Start(answer: Answer) returns (ret: int)
      requires pcm.None?
      requires answer.pcm.Some? ==> answer.pcm.value !in open + closed
      modifies this`pcm, this`open, this`closed
      ensures ret == (if answer.pcm.Some? && answer.ready then 0 else -ENOMEM)
      ensures pcm == (if ret == 0 then answer.pcm else None)
      ensures open == old(open) + if ret == 0 then {answer.pcm.value} else {}
      ensures closed == old(closed) + if answer.pcm.Some? && !answer.ready then {answer.pcm.value} else {}
    {
      pcm := answer.pcm;
      if pcm.None? {
        return -ENOMEM;
      }
      open := open + {pcm.value};
      if !answer.ready {
        open, closed := open - {pcm.value}, closed + {pcm.value};
        pcm := None;
        return -ENOMEM;
      }
      return 0;
    }

    /** out_write: every result but an underrun is the byte count, slept off if nothing was written. */
    method Write(t: ThreadId, id: StreamId, bytes: nat, frameSize: nat, answer: Answer, pcmWrite: int)
      returns (ret: int, slept: bool)
      requires Free() && frameSize > 0 && answer.wrote == (pcmWrite == 0)
      requires answer.pcm.Some? ==> answer.pcm.value !in open + closed
      modifies this
      ensures Free()
      ensures State(Idle, !standby && pcmWrite == 0) ==
              Uninterrupted(t, old(State(Busy(id, AudioOut.Write(bytes / frameSize), WantDevice), false)), answer, WHOLE_CALL)
      ensures standby <==> old(standby) && !(answer.pcm.Some? && answer.ready)
      ensures ret == -EPIPE || ret == bytes
      ensures ret == -EPIPE <==> !standby && pcmWrite == -EPIPE
      ensures slept <==> ret == bytes && (standby || pcmWrite != 0)
      ensures written == if !standby && pcmWrite == 0 then Add(old(written), bytes / frameSize) else old(written)
    {
      WriteCall(t, State(Busy(id, AudioOut.Write(bytes / frameSize), WantDevice), false), answer);
      slept := false;
      device := Some(t);
      lock := Some(t);
      if standby {
        ret := Start(answer);
        if ret == 0 {
          standby := false;
        }
      }
      device := None;
      if !standby {
        assert pcm.Some? && pcm.value in open;
        ret := pcmWrite;
        if ret == -EPIPE {
          lock := None;
          return;
        }
        if ret == 0 {
          written := Add(written, bytes / frameSize);
        }
      }
      lock := None;
      slept := ret != 0;
      ret := bytes;
    }

    /** out_standby. */
    method Standby(t: ThreadId, id: StreamId)
      requires Free()
      modifies this
      ensures Free() && standby
      ensures State(Idle, false) ==
              Uninterrupted(t, old(State(Busy(id, AudioOut.Standby, WantDevice), false)), Answer(None, false, false), WHOLE_CALL)
    {
      StandbyCall(t, State(Busy(id, AudioOut.Standby, WantDevice), false), Answer(None, false, false));
      device := Some(t);
      lock := Some(t);
      if !standby {
        open, closed := open - {pcm.value}, closed + {pcm.value};
        pcm := None;
        standby := true;
      }
      lock := None;
      device := None;
    }
  }
}
