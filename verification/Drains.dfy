/**
  * The drain closure of ExecStream as the loop it is. It works on what the two goroutines share one access at
  * a time and lets the other drain do anything in between; every execution is proved to be a run of the step
  * system, so the theorems about all interleavings hold of it.
  */
module Drains {
  import opened Bytes
  import opened Streaming

  /** The step belongs to where its drain stands. */
  predicate Enabled(st: State, a: Action) {
    var pc := Get(st, a.i).pc;
    match a
    case Read(_, _, _) => pc.Reading?
    case Lock(_) => pc.Holding?
    case Write(_) => pc.Sending?
    case Emit(_) => pc.Emitting?
    case Announce(_) => pc.Announcing?
  }

  /** A drain that is not in the middle of a chunk. */
  predicate AtTop(d: Drain) {
    d.pc == if d.eof then Done else Reading
  }

  class Command {
    const max: int
    var st: State
    ghost var run: seq<Action>

    ghost predicate Valid()
      reads this
    {
      st == Exec(max, run)
    }

    constructor (max: int)
      ensures Valid() && this.max == max && st == START
    {
      this.max := max;
      st := START;
      run := [];
    }

    /** One atomic step. */
    method Do(a: Action)
      requires Valid() && Enabled(st, a)
      modifies this
      ensures Valid() && st == Next(max, old(st), a) && run == old(run) + [a]
    {
      OneMoreStep(max, run, a);
      st := Next(max, st, a);
      run := run + [a];
    }

    /** The other drain acts. */
    method Yield(i: Stream, others: seq<Action>)
      requires Valid()
      modifies this
      ensures Valid() && old(run) <= run && Get(st, i) == old(Get(st, i))
    {
      hide Exec;
      for n := 0 to |others|
        invariant Valid() && old(run) <= run && Get(st, i) == old(Get(st, i))
      {
        if others[n].i != i && Enabled(st, others[n]) {
          Do(others[n]);
        }
      }
    }

    /** The lock section: how much of the chunk to send, and whether this drain announces truncation. */
    method TakeBudget(i: Stream) returns (toSend: bytes, emitTruncated: bool)
      requires Valid() && Get(st, i).pc.Holding?
      modifies this
      ensures Valid() && run == old(run) + [Lock(i)]
      ensures var was, d := old(Get(st, i)), Get(st, i);
              && d.eof == was.eof && d.read == was.read && d.taken == was.taken + was.pc.chunk
              && (if toSend != [] then d.pc == Sending(toSend, emitTruncated)
                  else if emitTruncated then d.pc == Announcing else AtTop(d))
    {
      hide Exec;
      var data := Get(st, i).pc.chunk;
      toSend, emitTruncated := [], false;
      if max <= 0 {
        toSend := data;
      } else if st.total < max {
        var remaining := max - st.total;
        if |data| > remaining {
          toSend := data[..remaining];
        } else {
          toSend := data;
        }
        emitTruncated := st.total + |toSend| >= max && !st.truncated;
      }
      Do(Lock(i));
    }

    /** What the loop does with a chunk: the budget under the lock, then the buffer and the events without it. */
    method Handle(i: Stream, others: nat -> seq<Action>)
      requires Valid() && Get(st, i).pc.Holding?
      modifies this
      ensures Valid() && old(run) <= run
      ensures var was, d := old(Get(st, i)), Get(st, i);
              AtTop(d) && d.eof == was.eof && d.read == was.read && d.taken == was.taken + was.pc.chunk
    {
      hide Exec, LockStep;
      Yield(i, others(0));
      var toSend, emitTruncated := TakeBudget(i);
      if |toSend| > 0 {
        Yield(i, others(1));
        Do(Write(i));
        Yield(i, others(2));
        Do(Emit(i));
      }
      if emitTruncated {
        Yield(i, others(3));
        Do(Announce(i));
      }
    }

    /**
      * One drain, whose pipe yields `chunks` and then `last` together with an error. It ends, has handled every
      * byte of the pipe in order, and the events of its stream are its buffer, a prefix of those bytes.
      */
    method DrainPipe(i: Stream, chunks: seq<bytes>, last: bytes, others: (nat, nat) -> seq<Action>)
      requires Valid() && Get(st, i) == FRESH
      modifies this
      ensures Valid() && old(run) <= run && Get(st, i).pc.Done?
      ensures Get(st, i).read == Get(st, i).taken == Concat(chunks + [last])
      ensures Emitted(st.events, i) == Get(st, i).buf <= Concat(chunks + [last])
    {
      hide Exec, Emitted, LockStep;
      for k := 0 to |chunks|
        invariant Valid() && old(run) <= run && Get(st, i).pc.Reading? && !Get(st, i).eof
        invariant Get(st, i).read == Get(st, i).taken == Concat(chunks[..k])
      {
        assert chunks[..k + 1][..k] == chunks[..k];
        ReadOne(i, chunks[k], false, (n: nat) => others(k, n));
      }
      assert chunks[..|chunks|] == chunks && (chunks + [last])[..|chunks|] == chunks;
      ReadOne(i, last, true, (n: nat) => others(|chunks|, n));
      RunKeepsInv(max, run);
      var d := Get(st, i);
      assert DrainOk(max, st.total, Emitted(st.events, i), d);
      assert Emitted(st.events, i) + [] == Emitted(st.events, i);
    }

    /** One round of the loop. */
    method ReadOne(i: Stream, chunk: bytes, eof: bool, others: nat -> seq<Action>)
      requires Valid() && Get(st, i).pc.Reading? && Get(st, i).read == Get(st, i).taken
      modifies this
      ensures Valid() && old(run) <= run && Get(st, i).eof == eof && AtTop(Get(st, i))
      ensures Get(st, i).read == Get(st, i).taken == old(Get(st, i).read) + chunk
    {
      hide Exec, LockStep;
      Yield(i, others(4));
      Do(Read(i, chunk, eof));
      if chunk != [] {
        Handle(i, others);
      } else {
        assert old(Get(st, i).read) + chunk == old(Get(st, i).read);
      }
    }
  }
}
