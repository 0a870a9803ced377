/**
  * ExecStream's two drain goroutines as a step system. They share one byte budget under a lock, but write to
  * their buffers and emit their events after releasing it.
  */
module Streaming {
  import opened Bytes
  import opened ExecResponse
  import opened Wrappers
  import LimitWriter

  datatype Stream = Stdout | Stderr

  datatype Event = Data(stream: Stream, data: bytes) | Truncated

  /** Where a drain stands with the chunk it has read. `emit` says that it also has to announce truncation. */
  datatype Pc =
    | Reading
    | Holding(chunk: bytes)
    | Sending(data: bytes, emit: bool)
    | Emitting(data: bytes, emit: bool)
    | Announcing
    | Done

  /**
    * One drain: what it has read so far, what it has taken through the lock, what of that it was allowed to
    * send on, and its buffer; `eof` is set once a read has returned an error.
    */
  datatype Drain = Drain(pc: Pc, read: bytes, taken: bytes, sent: bytes, buf: bytes, eof: bool)

  datatype State = State(out: Drain, err: Drain, total: nat, truncated: bool, events: seq<Event>)

  const FRESH := Drain(Reading, [], [], [], [], false)
  const START := State(FRESH, FRESH, 0, false, [])

  datatype Action =
    | Read(i: Stream, chunk: bytes, eof: bool)
    | Lock(i: Stream) | Write(i: Stream) | Emit(i: Stream) | Announce(i: Stream)

  function Get(st: State, i: Stream): Drain {
    if i.Stdout? then st.out else st.err
  }

  function Put(st: State, i: Stream, d: Drain): State {
    if i.Stdout? then st.(out := d) else st.(err := d)
  }

  function Other(i: Stream): Stream {
    if i.Stdout? then Stderr else Stdout
  }

  /** Back to the top of the read loop, or out of it. */
  function Loop(d: Drain): Drain {
    d.(pc := if d.eof then Done else Reading)
  }

  /** A read may return bytes and an error together; the bytes are handled first. */
  function ReadStep(d: Drain, chunk: bytes, eof: bool): Drain {
    var d' := d.(read := d.read + chunk, eof := eof);
    if chunk != [] then d'.(pc := Holding(chunk)) else Loop(d')
  }

  /** How much of a chunk the budget still allows; `max <= 0` means no budget. */
  function Allowed(max: int, total: nat, chunk: bytes): bytes {
    if max <= 0 then chunk
    else if total >= max then []
    else if |chunk| > max - total then chunk[..max - total]
    else chunk
  }

  function LockStep(max: int, st: State, i: Stream): State
    requires Get(st, i).pc.Holding?
  {
    var d := Get(st, i);
    var send := Allowed(max, st.total, d.pc.chunk);
    var total := st.total + |send|;
    var emit := max > 0 && st.total < max && total >= max && !st.truncated;
    var d' := d.(taken := d.taken + d.pc.chunk, sent := d.sent + send);
    Put(st, i, if send != [] then d'.(pc := Sending(send, emit)) else if emit then d'.(pc := Announcing) else Loop(d'))
    .(total := total, truncated := st.truncated || emit)
  }

  function WriteStep(max: int, d: Drain): Drain
    requires d.pc.Sending?
  {
    d.(buf := LimitWriter.Append(LimitWriter.LimitFor(max), d.buf, d.pc.data), pc := Emitting(d.pc.data, d.pc.emit))
  }

  function EmitStep(st: State, i: Stream): State
    requires Get(st, i).pc.Emitting?
  {
    var d := Get(st, i);
    Put(st, i, if d.pc.emit then d.(pc := Announcing) else Loop(d)).(events := st.events + [Data(i, d.pc.data)])
  }

  function Next(max: int, st: State, a: Action): State {
    var d := Get(st, a.i);
    match a
    case Read(i, chunk, eof) => if d.pc.Reading? then Put(st, i, ReadStep(d, chunk, eof)) else st
    case Lock(i) => if d.pc.Holding? then LockStep(max, st, i) else st
    case Write(i) => if d.pc.Sending? then Put(st, i, WriteStep(max, d)) else st
    case Emit(i) => if d.pc.Emitting? then EmitStep(st, i) else st
    case Announce(i) => if d.pc.Announcing? then Put(st, i, Loop(d)).(events := st.events + [Truncated]) else st
  }

  function Exec(max: int, run: seq<Action>): State {
    if run == [] then START else Next(max, Exec(max, run[..|run| - 1]), run[|run| - 1])
  }

  /** The call returns once both drains are done. */
  predicate Returned(st: State) {
    st.out.pc.Done? && st.err.pc.Done?
  }

  // ----- What the events say -----

  function Emitted(events: seq<Event>, i: Stream): bytes {
    if events == [] then []
    else
      var n := |events| - 1;
      Emitted(events[..n], i) + if events[n].Data? && events[n].stream == i then events[n].data else []
  }

  function Announcements(events: seq<Event>): nat {
    if events == [] then 0
    else Announcements(events[..|events| - 1]) + if events[|events| - 1].Truncated? then 1 else 0
  }

  function Pending(d: Drain): bytes {
    if d.pc.Sending? || d.pc.Emitting? then d.pc.data else []
  }

  /** The drain still owes the announcement. */
  predicate Owes(d: Drain) {
    d.pc.Announcing? || ((d.pc.Sending? || d.pc.Emitting?) && d.pc.emit)
  }

  function Owed(d: Drain): nat {
    if Owes(d) then 1 else 0
  }

  /**
    * One drain's accounts, given what it has emitted: nothing is lost between read, lock, buffer and events,
    * what is sent is a prefix of what was taken, and a shorter one only once the budget is used up.
    */
  predicate DrainOk(max: int, total: nat, emitted: bytes, d: Drain) {
    && d.read == d.taken + (if d.pc.Holding? then d.pc.chunk else [])
    && d.sent <= d.taken
    && (d.sent != d.taken ==> 0 < max <= total)
    && d.sent == emitted + Pending(d)
    && d.buf == (if d.pc.Sending? then emitted else d.sent)
    && |d.sent| <= total
  }

  ghost predicate Inv(max: int, st: State) {
    && DrainOk(max, st.total, Emitted(st.events, Stdout), st.out)
    && DrainOk(max, st.total, Emitted(st.events, Stderr), st.err)
    && st.total == |st.out.sent| + |st.err.sent|
    && (max > 0 ==> st.total <= max)
    && (st.truncated <==> max > 0 && st.total >= max)
    && Announcements(st.events) + Owed(st.out) + Owed(st.err) == (if st.truncated then 1 else 0)
  }

  lemma ReadDrain(max: int, total: nat, emitted: bytes, d: Drain, chunk: bytes, eof: bool)
    requires DrainOk(max, total, emitted, d) && d.pc.Reading?
    ensures DrainOk(max, total, emitted, ReadStep(d, chunk, eof))
  {
    assert d.read == d.taken && d.sent == emitted == d.buf;
    assert chunk == [] ==> d.read + chunk == d.taken + [];
    assert emitted + [] == emitted;
  }

  lemma LockDrain(max: int, st: State, i: Stream, emitted: bytes)
    requires DrainOk(max, st.total, emitted, Get(st, i)) && Get(st, i).pc.Holding?
    ensures DrainOk(max, LockStep(max, st, i).total, emitted, Get(LockStep(max, st, i), i))
  {
    var d := Get(st, i);
    var send := Allowed(max, st.total, d.pc.chunk);
    assert send <= d.pc.chunk;
    assert d.sent == d.taken || send == [];
    assert d.taken + d.pc.chunk == d.read;
    assert d.sent + send <= d.read;
    assert d.read + [] == d.read && emitted + [] == emitted && d.sent + [] == d.sent;
  }

  lemma WriteDrain(max: int, total: nat, emitted: bytes, d: Drain)
    requires DrainOk(max, total, emitted, d) && d.pc.Sending? && (max > 0 ==> total <= max)
    ensures DrainOk(max, total, emitted, WriteStep(max, d))
  {
    assert LimitWriter.Append(LimitWriter.LimitFor(max), d.buf, d.pc.data) == d.sent;
  }

  lemma KeepsInv(max: int, st: State, a: Action)
    requires Inv(max, st)
    ensures Inv(max, Next(max, st, a))
  {
    hide Inv, LockStep, EmitStep, WriteStep, ReadStep, Emitted;
    var d := Get(st, a.i);
    match a
    case Read(i, chunk, eof) => if d.pc.Reading? { ReadKeepsInv(max, st, i, chunk, eof); }
    case Lock(i) => if d.pc.Holding? { LockKeepsInv(max, st, i); }
    case Write(i) => if d.pc.Sending? { WriteKeepsInv(max, st, i); }
    case Emit(i) => if d.pc.Emitting? { EmitKeepsInv(max, st, i); }
    case Announce(i) => if d.pc.Announcing? { AnnounceKeepsInv(max, st, i); }
  }

  lemma ReadKeepsInv(max: int, st: State, i: Stream, chunk: bytes, eof: bool)
    requires Inv(max, st) && Get(st, i).pc.Reading?
    ensures Inv(max, Next(max, st, Read(i, chunk, eof)))
  {
    hide DrainOk, Emitted, Announcements;
    ReadDrain(max, st.total, Emitted(st.events, i), Get(st, i), chunk, eof);
  }

  lemma WriteKeepsInv(max: int, st: State, i: Stream)
    requires Inv(max, st) && Get(st, i).pc.Sending?
    ensures Inv(max, Next(max, st, Write(i)))
  {
    hide DrainOk, Emitted, Announcements;
    WriteDrain(max, st.total, Emitted(st.events, i), Get(st, i));
  }

  lemma LockKeepsInv(max: int, st: State, i: Stream)
    requires Inv(max, st) && Get(st, i).pc.Holding?
    ensures Inv(max, LockStep(max, st, i))
  {
    hide Emitted, Announcements;
    LockDrain(max, st, i, Emitted(st.events, i));
    LockCounts(max, st, i);
  }

  /** The budget after a lock section, and who owes the announcement. */
  lemma LockCounts(max: int, st: State, i: Stream)
    requires Inv(max, st) && Get(st, i).pc.Holding?
    ensures var st' := LockStep(max, st, i);
            && st'.events == st.events && Get(st', Other(i)) == Get(st, Other(i)) && st'.total >= st.total
            && st'.total == |st'.out.sent| + |st'.err.sent|
            && (max > 0 ==> st'.total <= max)
            && (st'.truncated <==> max > 0 && st'.total >= max)
            && Owed(Get(st', i)) == (if st'.truncated && !st.truncated then 1 else 0)
  {
    hide Emitted, Announcements;
  }

  lemma OneMoreEvent(events: seq<Event>, e: Event, i: Stream)
    ensures Emitted(events + [e], i) == if e.Data? && e.stream == i then Emitted(events, i) + e.data else Emitted(events, i)
    ensures Announcements(events + [e]) == Announcements(events) + if e.Truncated? then 1 else 0
  {
    assert (events + [e])[..|events|] == events;
  }

  lemma EmitDrain(max: int, total: nat, emitted: bytes, d: Drain)
    requires DrainOk(max, total, emitted, d) && d.pc.Emitting?
    ensures DrainOk(max, total, emitted + d.pc.data, if d.pc.emit then d.(pc := Announcing) else Loop(d))
  {
  }

  lemma EmitKeepsInv(max: int, st: State, i: Stream)
    requires Inv(max, st) && Get(st, i).pc.Emitting?
    ensures Inv(max, EmitStep(st, i))
  {
    hide DrainOk, Emitted, Announcements;
    var d := Get(st, i);
    OneMoreEvent(st.events, Data(i, d.pc.data), i);
    OneMoreEvent(st.events, Data(i, d.pc.data), Other(i));
    EmitDrain(max, st.total, Emitted(st.events, i), d);
  }

  lemma AnnounceKeepsInv(max: int, st: State, i: Stream)
    requires Inv(max, st) && Get(st, i).pc.Announcing?
    ensures Inv(max, Next(max, st, Announce(i)))
  {
    hide DrainOk, Emitted, Announcements;
    OneMoreEvent(st.events, Truncated, i);
    OneMoreEvent(st.events, Truncated, Other(i));
    AnnounceDrain(max, st.total, Emitted(st.events, i), Get(st, i));
  }

  lemma AnnounceDrain(max: int, total: nat, emitted: bytes, d: Drain)
    requires DrainOk(max, total, emitted, d) && d.pc.Announcing?
    ensures DrainOk(max, total, emitted, Loop(d))
  {
  }

  lemma {:induction false} RunKeepsInv(max: int, run: seq<Action>)
    ensures Inv(max, Exec(max, run))
  {
    if run != [] {
      RunKeepsInv(max, run[..|run| - 1]);
      KeepsInv(max, Exec(max, run[..|run| - 1]), run[|run| - 1]);
    }
  }

  // ----- Theorems about every interleaving -----

  function Min(a: int, b: int): int {
    if a < b then a else b
  }

  /**
    * At every moment each stream's events concatenate to a prefix of what was read from it, and the inner
    * limit of its buffer never bites; together they stay within the budget.
    */
  lemma EventsArePrefixes(max: int, run: seq<Action>, i: Stream)
    ensures var st := Exec(max, run);
            && Emitted(st.events, i) <= Get(st, i).read
            && Emitted(st.events, i) <= Get(st, i).buf <= Get(st, i).read
            && (max > 0 ==> |Emitted(st.events, Stdout)| + |Emitted(st.events, Stderr)| <= max)
            && Announcements(st.events) <= 1
  {
    hide Emitted, Announcements;
    RunKeepsInv(max, run);
  }

  /**
    * When the call returns, the events of each stream are exactly its returned buffer, together they hold as
    * many bytes as were read up to the budget, and truncation was announced exactly once if the bytes read
    * reached the budget and never otherwise.
    */
  lemma StreamsAddUp(max: int, run: seq<Action>)
    requires Returned(Exec(max, run))
    ensures var st := Exec(max, run);
            var total := |st.out.read| + |st.err.read|;
            && Emitted(st.events, Stdout) == st.out.buf <= st.out.read
            && Emitted(st.events, Stderr) == st.err.buf <= st.err.read
            && |st.out.buf| + |st.err.buf| == (if max > 0 then Min(total, max) else total)
            && Announcements(st.events) == (if max > 0 && total >= max then 1 else 0)
  {
    hide Emitted, Announcements, Exec;
    RunKeepsInv(max, run);
    var st := Exec(max, run);
    assert DrainOk(max, st.total, Emitted(st.events, Stdout), st.out);
    assert DrainOk(max, st.total, Emitted(st.events, Stderr), st.err);
  }

  /**
    * What the caller is told in the end repeats the events exactly if the command was waited for without an error or
    * with an exit status; after any other error it gets a time-out without output, or an internal error.
    */
  lemma ResponseRepeatsEvents(max: int, run: seq<Action>, err: RunError, expired: bool, timeoutSecs: int)
    requires Returned(Exec(max, run))
    ensures var st := Exec(max, run);
            var out, errs := Emitted(st.events, Stdout), Emitted(st.events, Stderr);
            BuildExecResponse(err, expired, timeoutSecs, st.out.buf, st.err.buf)
            == match err
               case NoError => Some(Response(out, errs, 0, false))
               case ExitError(code) => Some(Response(out, errs, code, timeoutSecs > 0 && code == 137))
               case OtherError => if expired then Some(Response([], TIMED_OUT, -1, true)) else None
  {
    hide Exec, Emitted, Announcements;
    StreamsAddUp(max, run);
  }

  // ----- Order of the announcement -----

  /** The number of events after the announcement. */
  function Trailing(events: seq<Event>): nat {
    if events == [] || events[|events| - 1].Truncated? then 0
    else if Announcements(events) == 0 then 0
    else 1 + Trailing(events[..|events| - 1])
  }

  function InHand(d: Drain): nat {
    if Pending(d) != [] then 1 else 0
  }

  ghost predicate TailInv(max: int, st: State) {
    && (st.out.pc.Sending? || st.out.pc.Emitting? ==> st.out.pc.data != [])
    && (st.err.pc.Sending? || st.err.pc.Emitting? ==> st.err.pc.data != [])
    && (Announcements(st.events) > 0 ==> Trailing(st.events) + InHand(st.out) + InHand(st.err) <= 1)
  }

  lemma OneMoreTrailing(events: seq<Event>, e: Event)
    ensures Trailing(events + [e])
         == if e.Truncated? || Announcements(events) == 0 then 0 else 1 + Trailing(events)
  {
    assert (events + [e])[..|events|] == events;
  }

  lemma KeepsTail(max: int, st: State, a: Action)
    requires Inv(max, st) && TailInv(max, st)
    ensures TailInv(max, Next(max, st, a))
  {
    hide DrainOk, Emitted, Trailing, Announcements;
    var d := Get(st, a.i);
    match a
    case Emit(i) =>
      if d.pc.Emitting? {
        OneMoreEvent(st.events, Data(i, d.pc.data), i);
        OneMoreTrailing(st.events, Data(i, d.pc.data));
      }
    case Announce(i) =>
      if d.pc.Announcing? {
        OneMoreEvent(st.events, Truncated, i);
        OneMoreTrailing(st.events, Truncated);
      }
    case _ =>
  }

  /**
    * Data can follow the announcement, but at most one event of it: the chunk that the other drain had
    * already taken through the lock.
    */
  lemma {:induction false} AtMostOneAfterAnnouncement(max: int, run: seq<Action>)
    ensures TailInv(max, Exec(max, run)) && Trailing(Exec(max, run).events) <= 1
  {
    if run != [] {
      hide Trailing;
      RunKeepsInv(max, run[..|run| - 1]);
      AtMostOneAfterAnnouncement(max, run[..|run| - 1]);
      KeepsTail(max, Exec(max, run[..|run| - 1]), run[|run| - 1]);
    }
    NoAnnouncementNoTail(Exec(max, run).events);
  }

  lemma NoAnnouncementNoTail(events: seq<Event>)
    ensures Announcements(events) == 0 ==> Trailing(events) == 0
  {
  }

  /** The event a drain still has in hand. */
  function LastEvent(d: Drain, i: Stream): seq<Event> {
    if Pending(d) == [] then [] else [Data(i, Pending(d))]
  }

  /** Drain `i` has announced truncation; `all` are the events so far and the one the other drain has in hand. */
  ghost predicate Announced(max: int, st: State, i: Stream, all: seq<Event>) {
    && Inv(max, st) && TailInv(max, st) && Announcements(st.events) > 0
    && Pending(Get(st, i)) == []
    && all == st.events + LastEvent(Get(st, Other(i)), Other(i))
  }

  lemma AnnounceStarts(max: int, st: State, i: Stream)
    requires Inv(max, st) && TailInv(max, st) && Get(st, i).pc.Announcing?
    ensures Announced(max, Next(max, st, Announce(i)), i,
                      st.events + [Truncated] + LastEvent(Get(st, Other(i)), Other(i)))
  {
    hide Inv, TailInv, Emitted, Trailing, Announcements;
    KeepsInv(max, st, Announce(i));
    KeepsTail(max, st, Announce(i));
    OneMoreEvent(st.events, Truncated, i);
  }

  /** Once the budget is used up, no lock section hands out more. */
  lemma LockAddsNothing(max: int, st: State, i: Stream)
    requires Inv(max, st) && Announcements(st.events) > 0 && Get(st, i).pc.Holding?
    ensures Pending(Get(LockStep(max, st, i), i)) == []
  {
    hide DrainOk, Emitted, Announcements;
  }

  lemma AnnouncedStays(max: int, st: State, a: Action, i: Stream, all: seq<Event>)
    requires Announced(max, st, i, all)
    ensures Announced(max, Next(max, st, a), i, all)
  {
    KeepsInv(max, st, a);
    KeepsTail(max, st, a);
    var d := Get(st, a.i);
    match a
    case Lock(j) =>
      if d.pc.Holding? {
        LockAddsNothing(max, st, j);
        AnnouncedAfterLock(max, st, j, i, all);
      }
    case Emit(j) => if d.pc.Emitting? { AnnouncedAfterEmit(max, st, j, i, all); }
    case _ => AnnouncedElsewhere(max, st, a, i, all);
  }

  lemma AnnouncedAfterLock(max: int, st: State, j: Stream, i: Stream, all: seq<Event>)
    requires Announced(max, st, i, all) && Get(st, j).pc.Holding? && Pending(Get(LockStep(max, st, j), j)) == []
    requires Inv(max, LockStep(max, st, j)) && TailInv(max, LockStep(max, st, j))
    ensures Announced(max, LockStep(max, st, j), i, all)
  {
    hide Inv, TailInv, Announcements, Allowed;
  }

  lemma AnnouncedAfterEmit(max: int, st: State, j: Stream, i: Stream, all: seq<Event>)
    requires Announced(max, st, i, all) && Get(st, j).pc.Emitting?
    requires Inv(max, EmitStep(st, j)) && TailInv(max, EmitStep(st, j))
    ensures Announced(max, EmitStep(st, j), i, all)
  {
    hide Inv, Announcements, Trailing;
    var e := Data(j, Get(st, j).pc.data);
    OneMoreEvent(st.events, e, j);
    assert st.events + [e] == st.events + [e] + [];
  }

  /** The other steps add no event: nobody owes the announcement any more. */
  lemma AnnouncedElsewhere(max: int, st: State, a: Action, i: Stream, all: seq<Event>)
    requires Announced(max, st, i, all) && !a.Lock? && !a.Emit?
    requires Inv(max, Next(max, st, a)) && TailInv(max, Next(max, st, a))
    ensures Announced(max, Next(max, st, a), i, all)
  {
    hide DrainOk, TailInv, Emitted, Announcements;
  }

  lemma {:induction false} AnnouncedToTheEnd(max: int, run: seq<Action>, n: nat, i: Stream, all: seq<Event>)
    requires n <= |run| && Announced(max, Exec(max, run[..n]), i, all)
    ensures Announced(max, Exec(max, run), i, all)
  {
    hide Announced, Next;
    if n == |run| {
      assert run[..n] == run;
    } else {
      var m := |run| - 1;
      assert run[..m][..n] == run[..n];
      AnnouncedToTheEnd(max, run[..m], n, i, all);
      AnnouncedStays(max, Exec(max, run[..m]), run[m], i, all);
    }
  }

  /**
    * What follows the announcement, exactly: the chunk that the other drain has in hand when it is made, and
    * nothing else. So no data follows if and only if the other drain has nothing in hand.
    */
  lemma DataAfterAnnouncementExactly(max: int, run: seq<Action>, n: nat, i: Stream)
    requires n < |run| && run[n] == Announce(i) && Get(Exec(max, run[..n]), i).pc.Announcing?
    requires Returned(Exec(max, run))
    ensures var st, d := Exec(max, run[..n]), Get(Exec(max, run[..n]), Other(i));
            && Exec(max, run).events
               == st.events + [Truncated] + (if Pending(d) == [] then [] else [Data(Other(i), Pending(d))])
            && (Trailing(Exec(max, run).events) == 0 <==> Pending(d) == [])
  {
    hide Exec, Next, Inv, TailInv, Announcements, Trailing;
    var st := Exec(max, run[..n]);
    var last := LastEvent(Get(st, Other(i)), Other(i));
    RunKeepsInv(max, run[..n]);
    AtMostOneAfterAnnouncement(max, run[..n]);
    AnnounceStarts(max, st, i);
    assert run[..n + 1] == run[..n] + [run[n]];
    OneMoreStep(max, run[..n], run[n]);
    AnnouncedToTheEnd(max, run, n + 1, i, st.events + [Truncated] + last);
    assert Exec(max, run).events == Exec(max, run).events + [];
    TrailingIs(st.events, last);
  }

  lemma TrailingIs(events: seq<Event>, last: seq<Event>)
    requires |last| == 0 || (|last| == 1 && last[0].Data?)
    ensures Trailing(events + [Truncated] + last) == |last|
  {
    OneMoreEvent(events, Truncated, Stdout);
    OneMoreTrailing(events, Truncated);
    if last == [] {
      assert events + [Truncated] + last == events + [Truncated];
    } else {
      assert last == [last[0]];
      OneMoreTrailing(events + [Truncated], last[0]);
    }
  }

  lemma OneMoreStep(max: int, run: seq<Action>, a: Action)
    ensures Exec(max, run + [a]) == Next(max, Exec(max, run), a)
  {
    assert (run + [a])[..|run|] == run;
  }

  /** Both drains have taken one byte of a budget of two; stdout's byte used the budget up. */
  lemma BothInHand() returns (run: seq<Action>)
    ensures var st := Exec(2, run);
            && st.events == [] && st.out.pc == Sending([8], true) && st.err.pc == Sending([7], false)
            && !st.out.eof && !st.err.eof
  {
    run := [Read(Stderr, [7], false)];
    OneMoreStep(2, [], run[0]);
    assert [] + run == run;
    OneMoreStep(2, run, Lock(Stderr));
    run := run + [Lock(Stderr)];
    OneMoreStep(2, run, Read(Stdout, [8], false));
    run := run + [Read(Stdout, [8], false)];
    OneMoreStep(2, run, Lock(Stdout));
    run := run + [Lock(Stdout)];
  }

  /** One data event does follow the announcement in some interleavings. */
  lemma DataAfterAnnouncement() returns (run: seq<Action>)
    ensures Exec(2, run).events == [Data(Stdout, [8]), Truncated, Data(Stderr, [7])]
  {
    run := BothInHand();
    hide Exec;
    OneMoreStep(2, run, Write(Stdout));
    run := run + [Write(Stdout)];
    OneMoreStep(2, run, Emit(Stdout));
    run := run + [Emit(Stdout)];
    OneMoreStep(2, run, Announce(Stdout));
    run := run + [Announce(Stdout)];
    OneMoreStep(2, run, Write(Stderr));
    run := run + [Write(Stderr)];
    OneMoreStep(2, run, Emit(Stderr));
    run := run + [Emit(Stderr)];
  }
}
