/**
  Safety over whole runs of a writer: a client that does anything the library allows, in any order,
  one poll at a time, and goes on after waits and failures.
*/
module WriteRuns {
  import opened Bytes
  import opened Format
  import opened Automaton
  import opened Position
  import opened Grammar
  import opened Buffer
  import opened Io
  import opened Outcomes
  import opened Slices
  import opened WriterSteps
  import opened Writer
  import opened ReferenceEncoding

  /** One poll by a writing client. A poll of `finish` is given up after some rounds of its loop. */
  datatype WriteOp = Add(header: seq<byte>) | Put(bufs: seq<seq<byte>>) | Close | Flush | Finish(rounds: nat)

  /**
    What a client sees of a poll: the answer, if the operation could be polled at all, and whether
    the entry still takes data afterwards.
  */
  datatype Polled = Polled(op: WriteOp, answer: Option<Poll<nat>>, receiving: bool) {
    predicate Begins() {
      op.Add? && answer.Some? && answer.value.Ready?
    }

    /** Some data of the entry was taken, and the answer says how much. */
    predicate Counts() {
      op.Put? && answer.Some? && answer.value.Ready?
    }

    /** The answer is that nothing was taken, but all the rest of the entry was. */
    predicate Hides() {
      op.Put? && answer == Some(Pending) && !receiving
    }
  }

  /** How much data the current file still lacks. */
  function Due(fmt: Format, log: seq<File>): nat
    requires log != []
  {
    var f := log[|log| - 1];
    var size := SizeOf(fmt, f.header);
    if size.Some? && size.value >= |f.data| then size.value - |f.data| else 0
  }

  /** What a poll added to the files that were handed over. */
  function Record(fmt: Format, log: seq<File>, p: Polled): seq<File> {
    if p.Begins() then log + [File(p.op.header, [])]
    else if log == [] then log
    else if p.Counts() then Append(log, Clip(Concat(p.op.bufs), p.answer.value.value))
    else if p.Hides() then Append(log, Clip(Concat(p.op.bufs), Due(fmt, log)))
    else log
  }

  /** The files that were handed over in a run. */
  function LogOf(fmt: Format, history: seq<Polled>): seq<File> {
    if history == [] then []
    else
      var n := |history| - 1;
      Record(fmt, LogOf(fmt, history[..n]), history[n])
  }

  /** The same by the answers alone. */
  function CountOf(history: seq<Polled>): seq<File> {
    if history == [] then []
    else
      var n := |history| - 1;
      var log, p := CountOf(history[..n]), history[n];
      if p.Begins() then log + [File(p.op.header, [])]
      else if log != [] && p.Counts() then Append(log, Clip(Concat(p.op.bufs), p.answer.value.value))
      else log
  }

  /** The bytes that were taken under an answer that says they were not. */
  function Hidden(fmt: Format, history: seq<Polled>): nat {
    if history == [] then 0
    else
      var n := |history| - 1;
      var log := LogOf(fmt, history[..n]);
      Hidden(fmt, history[..n]) +
      if history[n].Hides() && log != [] then |Clip(Concat(history[n].op.bufs), Due(fmt, log))| else 0
  }

  function DataBytes(files: seq<File>): nat {
    if files == [] then 0 else DataBytes(files[..|files| - 1]) + |files[|files| - 1].data|
  }

  lemma DataBytesOfLast(files: seq<File>, f: File)
    ensures DataBytes(files + [f]) == DataBytes(files) + |f.data|
  {
    assert (files + [f])[..|files|] == files;
  }

  lemma DataBytesAppend(log: seq<File>, bytes: seq<byte>)
    requires log != []
    ensures DataBytes(Append(log, bytes)) == DataBytes(log) + |bytes|
  {
    var n := |log| - 1;
    DataBytesOfLast(log[..n], File(log[n].header, log[n].data + bytes));
  }

  /**
    A client that believes the answers is right about what it has handed over exactly when no bytes
    were taken under Pending, and otherwise it is short by just these bytes.
  */
  lemma {:induction false} Accounts(fmt: Format, history: seq<Polled>)
    ensures DataBytes(LogOf(fmt, history)) == DataBytes(CountOf(history)) + Hidden(fmt, history)
    ensures |CountOf(history)| == |LogOf(fmt, history)|
    ensures CountOf(history) == LogOf(fmt, history) <==> Hidden(fmt, history) == 0
    decreases |history|
  {
    hide Concat, Due, DataBytes, Append;
    if history == [] {
      assert DataBytes([]) == 0 by { NoBytes(); }
    } else {
      var n := |history| - 1;
      var p, log, count := history[n], LogOf(fmt, history[..n]), CountOf(history[..n]);
      Accounts(fmt, history[..n]);
      if p.Begins() {
        DataBytesOfLast(log, File(p.op.header, []));
        DataBytesOfLast(count, File(p.op.header, []));
      } else if log != [] && p.Counts() {
        DataBytesAppend(log, Clip(Concat(p.op.bufs), p.answer.value.value));
        DataBytesAppend(count, Clip(Concat(p.op.bufs), p.answer.value.value));
      } else if log != [] && p.Hides() {
        var bytes := Clip(Concat(p.op.bufs), Due(fmt, log));
        DataBytesAppend(log, bytes);
        if bytes == [] { AppendNothing(log, bytes); }
      }
    }
  }

  lemma NoBytes()
    ensures DataBytes([]) == 0
  {
  }

  /** The files handed over by the time a position is reached. */
  ghost function Written(c: Cursor): seq<File> {
    FilesOf(c.done) + if InEntry(c.at) then [File(c.at.h, c.at.d)] else []
  }

  /** Finishing an entry, or waiting with it, hands nothing over. */
  lemma WrittenFinished(c: Cursor)
    ensures Written(Finished(c)) == Written(c) && Written(AwaitingPad(c)) == Written(c)
  {
    if c.at.BodyDone? || c.at.Pad? || c.at.Padded? {
      FilesOfSnoc(c.done, WithZeros(c.at));
    }
  }

  /** The header the client began last is the one the writer is at. */
  ghost predicate Begun(at: Phase, header: seq<byte>) {
    || Adding(at, header)
    || (InEntry(at) && at.h == header)
    || Finishing(at)
  }

  predicate InEntryState(s: State) {
    s.ReceivingData? || s.ReceivedData? || s.AligningData? || s.AlignedData?
  }

  /**
    Whether the library allows a poll in a state; in any other it panics. A header may be added
    between entries, and the same one again until it is complete. If a block passes through, a header
    needs a nonzero first byte.
  */
  predicate MayPoll(s: State, op: WriteOp, current: seq<byte>, passes: bool) {
    match op
    case Add(header) =>
      IsHeader(header) &&
      (|| InEntryState(s)
       || (s.ExpectingHeader? && (header[0] != 0 || !passes))
       || (header == current && (s.ReceivedHeader? || (s.ReceivingHeader? && !s.empty))))
    case Put(_) => s.ReceivingData?
    case Close => s.ExpectingHeader? || s.ReceivedData? || s.AligningData? || s.AlignedData?
    case Flush => true
    case Finish(_) => s.ExpectingHeader? || (s.ReceivingHeader? && s.empty) || s.ReceivingEof? || s.ReceivedEof?
  }

  /** The states in which an operation panics. */
  predicate Panics(s: State, op: WriteOp) {
    match op
    case Add(_) => (s.ReceivingHeader? && s.empty) || s.ReceivingEof? || s.ReceivedEof?
    case Put(_) => !s.ReceivingData?
    case Close =>
      s.ReceivingHeader? || s.ReceivedHeader? || s.ReceivingData? || s.ReceivingEof? || s.ReceivedEof?
    case Flush => false
    case Finish(_) => (s.ReceivingHeader? && !s.empty) || s.ReceivedHeader? || InEntryState(s)
  }

  /** What does not panic may be polled, but for a header that is not the one begun or that cannot be resumed. */
  lemma AllowedUnlessPanic(s: State, op: WriteOp, current: seq<byte>, passes: bool)
    ensures MayPoll(s, op, current, passes) <==>
      && !Panics(s, op)
      && (op.Add? ==>
            && IsHeader(op.header)
            && (s.ExpectingHeader? && passes ==> op.header[0] != 0)
            && (s.ReceivedHeader? || s.ReceivingHeader? ==> op.header == current))
  {
  }

  lemma PhaseOfPoll(w: ArchiveWriter, op: WriteOp, current: seq<byte>)
    requires w.Valid() && Begun(w.cur.at, current) && MayPoll(w.state, op, current, w.Passes(BLOCK_SIZE))
    ensures op.Add? ==> Adding(w.cur.at, op.header) || InEntry(w.cur.at)
    ensures op.Add? ==> IsHeader(op.header) && (w.cur.at.Between? ==> w.CanAdd(op.header))
    ensures op.Put? ==> w.cur.at.Body? && w.cur.at.h == current
    ensures op.Close? ==> InFinish(w.cur.at, current)
    ensures op.Finish? ==> Finishing(w.cur.at)
  {
    hide Text;
    StateOfPhase(w.fmt, w.cur.at);
  }

  /**
    A point of a run: the position, the header begun last, the queue, and how many bytes the sink had
    when it was last flushed and when it was last shut down.
  */
  datatype Moment = Moment(
    c: Cursor, current: seq<byte>, q: Queue, flushed: Option<nat>, closed: Option<nat>)

  /** Whether a poll has an answer: it is allowed, and if it is one of `finish`, the rounds are enough. */
  ghost predicate HasAnswer(fmt: Format, ch: Channel, m: Moment, op: WriteOp)
    requires WellFormed(fmt, m.c)
  {
    && MayPoll(StateAt(fmt, m.c.at), op, m.current, ch.Passes(BLOCK_SIZE))
    && (op.Finish? ==> FinishRounds(ch, m.q, ZerosMissing(m.c.at), op.rounds).Some?)
  }

  /**
    What a write of entry data answers and what it does to the queue is decided before, and so is
    whether it hides what it took: it completes the entry, and the alignment has to wait.
  */
  ghost predicate PutDecided(fmt: Format, ch: Channel, c: Cursor, q: Queue, p: Polled, q': Queue)
    requires p.op.Put? && p.answer.Some?
  {
    && c.at.Body? && SizeOf(fmt, c.at.h).Some? && SizeOf(fmt, c.at.h).value >= |c.at.d|
    && var due := SizeOf(fmt, c.at.h).value - |c.at.d|;
    var n, whole, pad :=
      Min(|Concat(p.op.bufs)|, due), WholeLength(p.op.bufs, due), PadLen(SizeOf(fmt, c.at.h).value);
    && whole <= n
    && Outcome(p.answer.value, q') == EntryOutcome(ch, q, whole, n - whole, n == due, pad)
    && (p.Hides() <==> n == due && AlignmentAnswer(ch, q, whole, n - whole, pad) == Some(Pending))
  }

  /**
    How the other polls end: as the schedule decides. Those that finish something are only ready after
    everything accepted has reached the sink and the sink was flushed or shut down after that.
  */
  ghost predicate Concluded(fmt: Format, ch: Channel, m: Moment, p: Polled, m': Moment)
    requires p.answer.Some?
  {
    var o, all := Outcome(p.answer.value, m'.q), p.answer.value.Ready? && m'.q.queued == 0;
    match p.op
    case Add(header) =>
      && o == AsTold(AddOutcome(fmt, ch, m.q, m.c.at, header))
      && m'.flushed == m.flushed && m'.closed == m.closed
    case Close =>
      && o == AsTold(Shut(ch, m.q, PadDue(m.c))) && m'.closed == m.closed
      && (p.answer.value.Ready? ==> all && m'.c == Finished(m.c) && m'.flushed == Some(|Text(m'.c)|))
    case Flush =>
      && o == AsTold(Sent(ch, m.q)) && m'.closed == m.closed && m'.c == m.c
      && (p.answer.value.Ready? ==> all && m'.flushed == Some(|Text(m'.c)|))
    case Finish(rounds) =>
      && (var r := FinishRounds(ch, m.q, ZerosMissing(m.c.at), rounds); r.Some? && o == AsTold(r.value))
      && m'.flushed == m.flushed
      && (p.answer.value.Ready? ==> all && m'.c.at.Done? && m'.closed == Some(|Text(m'.c)|))
    case _ => m'.flushed == m.flushed && m'.closed == m.closed
  }

  /** One poll, whatever it answers. */
  ghost predicate Stepped(fmt: Format, ch: Channel, m: Moment, p: Polled, m': Moment) {
    && WellFormed(fmt, m.c) && WellFormed(fmt, m'.c)
    && (p.answer.Some? <==> HasAnswer(fmt, ch, m, p.op))
    && (MayPoll(StateAt(fmt, m.c.at), p.op, m.current, ch.Passes(BLOCK_SIZE)) || m' == m)
    && p.receiving == StateAt(fmt, m'.c.at).ReceivingData?
    && (p.answer.Some? ==> Blames(ch.schedule, m.q.clock, m'.q.clock, p.answer.value))
    && (p.op.Put? && p.answer.Some? ==> PutDecided(fmt, ch, m.c, m.q, p, m'.q))
    && (p.answer.Some? ==> Concluded(fmt, ch, m, p, m'))
    // Nothing is taken back, and what is added is what the poll says.
    && Text(m.c) <= Text(m'.c) && m.c.done <= m'.c.done
    && Written(m'.c) == Record(fmt, Written(m.c), p)
  }

  function Told(r: Poll<()>): Poll<nat> {
    if r.Ready? then Ready(0) else r.PropagateFailure()
  }

  function AsTold(o: Outcome<()>): Outcome<nat> {
    Outcome(Told(o.answer), o.q)
  }

  lemma WrittenBody(fmt: Format, c: Cursor)
    requires c.at.Body?
    ensures Written(c) == FilesOf(c.done) + [File(c.at.h, c.at.d)]
    ensures GoodPhase(fmt, c.at) ==> Due(fmt, Written(c)) == SizeOf(fmt, c.at.h).value - |c.at.d|
  {
  }

  /** What a write of entry data adds to the files. */
  lemma WrittenPut(c: Cursor, w: seq<byte>, c': Cursor)
    requires c.at.Body?
    requires
      || c' == c.(at := Body(c.at.h, c.at.d + w))
      || c' == Finished(c.(at := BodyDone(c.at.h, c.at.d + w)))
      || c' == c.(at := Pad(c.at.h, c.at.d + w, []))
    ensures Written(c') == Append(Written(c), w)
  {
    WrittenFinished(c.(at := BodyDone(c.at.h, c.at.d + w)));
    var log := Written(c);
    assert log[..|log| - 1] == FilesOf(c.done);
  }

  lemma PutRecorded(w: ArchiveWriter, c: Cursor, bufs: seq<seq<byte>>, r: Poll<nat>)
    requires w.Valid() && WellFormed(w.fmt, c) && c.at.Body?
    requires w.EntryWritten(c, Clip(Concat(bufs), SizeOf(w.fmt, c.at.h).value - |c.at.d|), r)
    ensures Written(w.cur) == Record(w.fmt, Written(c), Polled(Put(bufs), Some(r), w.state.ReceivingData?))
  {
    hide Text, WellFormedEntries, StateAt, Concat, Finished, Append, Clip, PadLen, Written;
    StateOfPhase(w.fmt, w.cur.at);
    WrittenBody(w.fmt, c);
    var rem := SizeOf(w.fmt, c.at.h).value - |c.at.d|;
    var part := Clip(Concat(bufs), rem);
    if r.Ready? {
      ClipShorter(Concat(bufs), r.value, rem);
      WrittenPut(c, part[..r.value], w.cur);
    } else if w.cur != c {
      WrittenPut(c, part, w.cur);
    }
  }

  lemma PutIsDecided(w: ArchiveWriter, c: Cursor, q: Queue, bufs: seq<seq<byte>>, r: Poll<nat>)
    requires w.Valid() && WellFormed(w.fmt, c) && c.at.Body?
    requires var due := SizeOf(w.fmt, c.at.h).value - |c.at.d|;
             var part := Clip(Concat(bufs), due);
             w.EntryWritten(c, part, r) && w.EntryDecided(c, part, WholeLength(bufs, due), q, r)
    ensures PutDecided(w.fmt, w.Chan(), c, q, Polled(Put(bufs), Some(r), w.state.ReceivingData?), w.Now())
  {
    hide Text, WellFormedEntries, StateAt, Concat, Finished, PadLen, Handed, WholeLength;
    StateOfPhase(w.fmt, w.cur.at);
    StateOfPhase(w.fmt, c.at);
  }

  method PollPut(w: ArchiveWriter, bufs: seq<seq<byte>>, current: seq<byte>) returns (r: Poll<nat>)
    requires w.Valid() && ZeroPadded(w.cur) && w.cur.at.Body? && w.cur.at.h == current
    modifies w`state, w`cur, w.buf, w.buf.data, w.io`clock, w.io`received
    ensures w.Valid() && ZeroPadded(w.cur) && Begun(w.cur.at, current)
    ensures Text(old(w.cur)) <= Text(w.cur) && old(w.cur).done <= w.cur.done
    ensures var p := Polled(Put(bufs), Some(r), w.state.ReceivingData?);
            && Written(w.cur) == Record(w.fmt, old(Written(w.cur)), p)
            && PutDecided(w.fmt, w.Chan(), old(w.cur), old(w.Now()), p, w.Now())
    ensures Blames(w.io.schedule, old(w.io.clock), w.io.clock, r)
  {
    hide Text, WellFormedEntries, Concat, Written, Record, ZeroPadded, PadLen, Buf.Buffered, WholeLength,
      CutsFirst, Blames, PutDecided, ArchiveWriter.EntryDecided;
    ghost var c, q := w.cur, w.Now();
    StateOfPhase(w.fmt, w.cur.at);
    r := w.PollWriteEntry(bufs, current);
    PutRecorded(w, c, bufs, r);
    PutIsDecided(w, c, q, bufs, r);
    StateOfPhase(w.fmt, w.cur.at);
  }

  method PollAdd(w: ArchiveWriter, header: seq<byte>, current: seq<byte>) returns (r: Poll<()>)
    requires w.Valid() && ZeroPadded(w.cur) && Begun(w.cur.at, current)
    requires MayPoll(w.state, Add(header), current, w.Passes(BLOCK_SIZE))
    modifies w`state, w`cur, w.buf, w.buf.data, w.io`clock, w.io`received
    ensures w.Valid() && ZeroPadded(w.cur)
    ensures Begun(w.cur.at, if old(InEntryState(w.state)) then current else header)
    ensures Text(old(w.cur)) <= Text(w.cur) && w.cur.done == old(w.cur).done
    ensures Written(w.cur) == if r.Ready? then old(Written(w.cur)) + [File(header, [])] else old(Written(w.cur))
    ensures Outcome(r, w.Now()) == AddOutcome(w.fmt, w.Chan(), old(w.Now()), old(w.cur).at, header)
    ensures Blames(w.io.schedule, old(w.io.clock), w.io.clock, r)
  {
    hide Text, WellFormedEntries, ZeroPadded, FilesOf, GoodPhase, StateAt, Buf.Buffered, Handed, Blames,
      AddOutcome;
    PhaseOfPoll(w, Add(header), current);
    StateOfPhase(w.fmt, w.cur.at);
    r := w.PollWriteHeader(header);
  }

  lemma TextOfDone(c: Cursor)
    ensures c.at.Done? ==> Text(c) == Archive(c.done)
  {
    if c.at.Done? { TextOfArchive(c); }
  }

  method PollFinishing(w: ArchiveWriter, rounds: nat) returns (r: Option<Poll<()>>)
    requires w.Valid() && ZeroPadded(w.cur) && Finishing(w.cur.at)
    modifies w`state, w`cur, w.buf, w.buf.data, w.io`clock, w.io`received, w.io`closed
    ensures w.Valid() && ZeroPadded(w.cur) && Finishing(w.cur.at) && w.cur.done == old(w.cur).done
    ensures Text(old(w.cur)) <= Text(w.cur) && Written(w.cur) == old(Written(w.cur))
    ensures FinishRounds(w.Chan(), old(w.Now()), ZerosMissing(old(w.cur).at), rounds)
      == if r.Some? then Some(Outcome(r.value, w.Now())) else None
    ensures r.Some? && r.value.Ready? ==>
      w.Now().queued == 0 && w.cur.at.Done? && w.io.closed == Some(|Text(w.cur)|)
    ensures r.Some? ==> Blames(w.io.schedule, old(w.io.clock), w.io.clock, r.value)
  {
    hide Text, WellFormedEntries, ZeroPadded, FilesOf, GoodPhase, StateAt, Buf.Buffered, FinishRounds;
    r := w.FinishFor(rounds);
    TextOfDone(w.cur);
  }

  method PollClose(w: ArchiveWriter, current: seq<byte>) returns (r: Poll<()>)
    requires w.Valid() && ZeroPadded(w.cur) && InFinish(w.cur.at, current)
    modifies w`state, w`cur, w.buf, w.buf.data, w.io`clock, w.io`received, w.io`flushed
    ensures w.Valid() && ZeroPadded(w.cur) && Begun(w.cur.at, current)
    ensures Text(old(w.cur)) <= Text(w.cur) && old(w.cur).done <= w.cur.done
    ensures Written(w.cur) == old(Written(w.cur))
    ensures Outcome(r, w.Now()) == Shut(w.Chan(), old(w.Now()), PadDue(old(w.cur)))
    ensures r.Ready? ==>
      w.Now().queued == 0 && w.cur == Finished(old(w.cur)) && w.io.flushed == Some(|Text(w.cur)|)
    ensures Blames(w.io.schedule, old(w.io.clock), w.io.clock, r)
  {
    hide Text, WellFormedEntries, ZeroPadded, Written, GoodPhase, StateAt, Buf.Buffered;
    WrittenFinished(w.cur);
    r := w.PollShutdown(current);
  }

  method StepAdd(w: ArchiveWriter, header: seq<byte>, current: seq<byte>) returns (current': seq<byte>, p: Polled)
    requires w.Valid() && ZeroPadded(w.cur) && Begun(w.cur.at, current)
    requires MayPoll(w.state, Add(header), current, w.Passes(BLOCK_SIZE))
    modifies w`state, w`cur, w.buf, w.buf.data, w.io
    ensures w.Valid() && ZeroPadded(w.cur) && Begun(w.cur.at, current') && p.op == Add(header)
    ensures Stepped(w.fmt, w.Chan(), old(MomentOf(w, current)), p, MomentOf(w, current'))
  {
    hide Text, WellFormedEntries, ZeroPadded, Written, GoodPhase, StateAt, Buf.Buffered, Begun, MayPoll, Blames,
      AddOutcome;
    current' := if InEntryState(w.state) then current else header;
    var r := PollAdd(w, header, current);
    p := Polled(Add(header), Some(Told(r)), w.state.ReceivingData?);
    BlamesTold(w.io.schedule, old(w.io.clock), w.io.clock, r);
  }

  method StepPut(w: ArchiveWriter, bufs: seq<seq<byte>>, current: seq<byte>) returns (p: Polled)
    requires w.Valid() && ZeroPadded(w.cur) && Begun(w.cur.at, current)
    requires MayPoll(w.state, Put(bufs), current, w.Passes(BLOCK_SIZE))
    modifies w`state, w`cur, w.buf, w.buf.data, w.io
    ensures w.Valid() && ZeroPadded(w.cur) && Begun(w.cur.at, current) && p.op == Put(bufs)
    ensures Stepped(w.fmt, w.Chan(), old(MomentOf(w, current)), p, MomentOf(w, current))
  {
    hide Text, WellFormedEntries, ZeroPadded, Written, GoodPhase, StateAt, Buf.Buffered, Begun, MayPoll, Blames,
      PutDecided, Record;
    PhaseOfPoll(w, Put(bufs), current);
    var r := PollPut(w, bufs, current);
    p := Polled(Put(bufs), Some(r), w.state.ReceivingData?);
  }

  method StepClose(w: ArchiveWriter, current: seq<byte>) returns (p: Polled)
    requires w.Valid() && ZeroPadded(w.cur) && Begun(w.cur.at, current)
    requires MayPoll(w.state, Close, current, w.Passes(BLOCK_SIZE))
    modifies w`state, w`cur, w.buf, w.buf.data, w.io
    ensures w.Valid() && ZeroPadded(w.cur) && Begun(w.cur.at, current) && p.op == Close
    ensures Stepped(w.fmt, w.Chan(), old(MomentOf(w, current)), p, MomentOf(w, current))
  {
    hide Text, WellFormedEntries, ZeroPadded, Written, GoodPhase, StateAt, Buf.Buffered, Begun, MayPoll, Blames,
      Shut, Finished, PadDue;
    PhaseOfPoll(w, Close, current);
    var r := PollClose(w, current);
    p := Polled(Close, Some(Told(r)), w.state.ReceivingData?);
    BlamesTold(w.io.schedule, old(w.io.clock), w.io.clock, r);
  }

  method StepFlush(w: ArchiveWriter, current: seq<byte>) returns (p: Polled)
    requires w.Valid() && ZeroPadded(w.cur) && Begun(w.cur.at, current)
    modifies w`state, w`cur, w.buf, w.buf.data, w.io
    ensures w.Valid() && ZeroPadded(w.cur) && Begun(w.cur.at, current) && p.op == Flush
    ensures Stepped(w.fmt, w.Chan(), old(MomentOf(w, current)), p, MomentOf(w, current))
  {
    hide Text, WellFormedEntries, ZeroPadded, Written, GoodPhase, StateAt, Buf.Buffered, Begun, Blames, Sent;
    var r := w.PollFlush();
    p := Polled(Flush, Some(Told(r)), w.state.ReceivingData?);
    BlamesTold(w.io.schedule, old(w.io.clock), w.io.clock, r);
  }

  method StepFinish(w: ArchiveWriter, rounds: nat, current: seq<byte>) returns (p: Polled)
    requires w.Valid() && ZeroPadded(w.cur) && Begun(w.cur.at, current)
    requires MayPoll(w.state, Finish(rounds), current, w.Passes(BLOCK_SIZE))
    modifies w`state, w`cur, w.buf, w.buf.data, w.io
    ensures w.Valid() && ZeroPadded(w.cur) && Begun(w.cur.at, current) && p.op == Finish(rounds)
    ensures Stepped(w.fmt, w.Chan(), old(MomentOf(w, current)), p, MomentOf(w, current))
  {
    hide Text, WellFormedEntries, ZeroPadded, Written, GoodPhase, StateAt, Buf.Buffered, Begun, MayPoll, Blames,
      FinishRounds, ZerosMissing;
    PhaseOfPoll(w, Finish(rounds), current);
    var r := PollFinishing(w, rounds);
    FinishingBegun(w.cur.at, current);
    p := Polled(Finish(rounds), if r.Some? then Some(Told(r.value)) else None, w.state.ReceivingData?);
    if r.Some? { BlamesTold(w.io.schedule, old(w.io.clock), w.io.clock, r.value); }
  }

  lemma BlamesTold(schedule: Schedule, from: nat, clock: nat, r: Poll<()>)
    requires Blames(schedule, from, clock, r)
    ensures Blames(schedule, from, clock, Told(r))
  {
  }

  /** One poll of an operation, if it may be polled at all; whatever it answers. */
  method PollOnce(w: ArchiveWriter, op: WriteOp, current: seq<byte>) returns (current': seq<byte>, p: Polled)
    requires w.Valid() && ZeroPadded(w.cur) && Begun(w.cur.at, current)
    modifies w`state, w`cur, w.buf, w.buf.data, w.io
    ensures w.Valid() && ZeroPadded(w.cur) && Begun(w.cur.at, current')
    ensures p.op == op
    ensures Stepped(w.fmt, w.Chan(), old(MomentOf(w, current)), p, MomentOf(w, current'))
  {
    hide Text, ZeroPadded, GoodPhase, StateAt, Begun, Buf.Buffered, Stepped, MayPoll;
    current' := current;
    if !MayPoll(w.state, op, current, w.Passes(BLOCK_SIZE)) {
      p := Polled(op, None, w.state.ReceivingData?);
      NotPolled(w, p, current);
      return;
    }
    match op
    case Add(header) => current', p := StepAdd(w, header, current);
    case Put(bufs) => p := StepPut(w, bufs, current);
    case Close => p := StepClose(w, current);
    case Flush => p := StepFlush(w, current);
    case Finish(rounds) => p := StepFinish(w, rounds, current);
  }

  lemma NotPolled(w: ArchiveWriter, p: Polled, current: seq<byte>)
    requires w.Valid() && p == Polled(p.op, None, w.state.ReceivingData?)
    requires !MayPoll(w.state, p.op, current, w.Passes(BLOCK_SIZE))
    ensures Stepped(w.fmt, w.Chan(), MomentOf(w, current), p, MomentOf(w, current))
  {
    hide Text, Written, GoodPhase, StateAt, MayPoll, WellFormedEntries;
  }

  lemma FinishingBegun(at: Phase, current: seq<byte>)
    ensures Finishing(at) ==> Begun(at, current)
  {
  }

  /** A run starts with nothing handed over. */
  lemma NothingWritten()
    ensures Written(START) == [] && ZeroPadded(START) && Begun(Between, [])
  {
  }

  /** Past the trailer, the stream is the reference encoding of what was handed over. */
  lemma WholeRun(fmt: Format, c: Cursor)
    requires WellFormed(fmt, c) && ZeroPadded(c) && StateAt(fmt, c.at) == ReceivedEof
    ensures Text(c) == Reference(Written(c))
    ensures IsArchive(fmt, Text(c)) && Accepts(fmt, Text(c))
  {
    hide Verdict, EntriesOf, Reference;
    assert c.at.Done? by { StateOfPhase(fmt, c.at); }
    TextOfArchive(c);
    EntriesOfFiles(fmt, c.done);
    ReferenceIsArchive(FilesOf(c.done));
    assert Written(c) == FilesOf(c.done);
    VerdictIsExact(fmt, Text(c));
  }

  /** The automaton, run over the whole stream, is at the end of an archive. */
  predicate Accepts(fmt: Format, stream: seq<byte>) {
    var v := Verdict(fmt, stream);
    v.Ok? && v.state == ReceivedEof
  }

  lemma LogOfNext(fmt: Format, history: seq<Polled>, p: Polled)
    ensures LogOf(fmt, history + [p]) == Record(fmt, LogOf(fmt, history), p)
  {
    assert (history + [p])[..|history|] == history;
  }

  /** Where a run is. */
  ghost function MomentOf(w: ArchiveWriter, current: seq<byte>): Moment
    reads w, w.buf, w.io
    requires w.buf.Valid()
  {
    Moment(w.cur, current, w.Now(), w.io.flushed, w.io.closed)
  }

  /** The polls of a run, from one moment to the next. */
  ghost predicate IsRun(fmt: Format, ch: Channel, trace: seq<Moment>, history: seq<Polled>) {
    && |trace| == |history| + 1
    && forall i :: 0 <= i < |history| ==> Stepped(fmt, ch, trace[i], history[i], trace[i + 1])
  }

  lemma OneMoreStep(fmt: Format, ch: Channel, trace: seq<Moment>, history: seq<Polled>, p: Polled, m: Moment)
    requires IsRun(fmt, ch, trace, history) && Stepped(fmt, ch, trace[|history|], p, m)
    ensures IsRun(fmt, ch, trace + [m], history + [p])
  {
    hide Stepped;
    var trace', history' := trace + [m], history + [p];
    forall i | 0 <= i < |history'| ensures Stepped(fmt, ch, trace'[i], history'[i], trace'[i + 1]) {
      if i < |history| {
        assert trace'[i] == trace[i] && history'[i] == history[i] && trace'[i + 1] == trace[i + 1];
      }
    }
  }

  /**
    Any run of a writer, from the start and on any sink. Every poll that the library allows is made
    and has an answer that the events of the poll account for. At every moment the sink and the
    buffer hold exactly the text of a well-formed position with zero alignment, and its entries are
    the headers and the bytes that the client handed over, in order. Once the trailer is complete and
    flushed the sink holds the reference encoding of these files. The client's own count of the data
    is short by exactly the bytes taken under Pending.
  */
  method AnyWriteRun(w: ArchiveWriter, ops: seq<WriteOp>) returns (history: seq<Polled>, ghost trace: seq<Moment>)
    requires w.Valid() && w.cur == START
    modifies w`state, w`cur, w.buf, w.buf.data, w.io
    ensures |history| == |ops| && forall i :: 0 <= i < |ops| ==> history[i].op == ops[i]
    ensures w.buf.Valid() && IsRun(w.fmt, w.Chan(), trace, history)
    ensures trace[0] == old(MomentOf(w, [])) && trace[|ops|] == MomentOf(w, trace[|ops|].current)
    ensures WellFormed(w.fmt, w.cur) && ZeroPadded(w.cur) && w.state == StateAt(w.fmt, w.cur.at)
    ensures w.io.received + w.buf.Buffered() == Text(w.cur)
    ensures Written(w.cur) == LogOf(w.fmt, history)
    ensures w.state == ReceivedEof && w.buf.Buffered() == [] ==>
      && w.io.received == Reference(LogOf(w.fmt, history))
      && IsArchive(w.fmt, w.io.received) && Accepts(w.fmt, w.io.received)
    ensures DataBytes(Written(w.cur)) == DataBytes(CountOf(history)) + Hidden(w.fmt, history)
    ensures Written(w.cur) == CountOf(history) <==> Hidden(w.fmt, history) == 0
  {
    hide Text, GoodPhase, StateAt, Accepts, IsArchive, Written, Record, LogOf, Reference, Begun, ZeroPadded, IsRun,
      HasAnswer, PutDecided, Blames, CountOf, Hidden, DataBytes, Buf.Buffered;
    var current: seq<byte> := [];
    history := [];
    trace := [MomentOf(w, current)];
    NothingWritten();
    NothingLogged(w.fmt);
    assert IsRun(w.fmt, w.Chan(), trace, history) by { NoStep(w.fmt, w.Chan(), trace[0]); }
    for i := 0 to |ops|
      invariant w.Valid() && ZeroPadded(w.cur) && Begun(w.cur.at, current)
      invariant |history| == i && forall j :: 0 <= j < i ==> history[j].op == ops[j]
      invariant Written(w.cur) == LogOf(w.fmt, history)
      invariant |trace| == i + 1 && IsRun(w.fmt, w.Chan(), trace, history)
      invariant trace[0] == old(MomentOf(w, [])) && trace[i] == MomentOf(w, current)
    {
      var p;
      current, p := PollOnce(w, ops[i], current);
      LogOfNext(w.fmt, history, p);
      OneMoreStep(w.fmt, w.Chan(), trace, history, p, MomentOf(w, current));
      trace := trace + [MomentOf(w, current)];
      history := history + [p];
    }
    Accounts(w.fmt, history);
    if w.state == ReceivedEof && w.buf.Buffered() == [] {
      assert w.io.received + [] == w.io.received;
      WholeRun(w.fmt, w.cur);
    }
  }

  lemma NoStep(fmt: Format, ch: Channel, m: Moment)
    ensures IsRun(fmt, ch, [m], [])
  {
  }

  lemma NothingLogged(fmt: Format)
    ensures LogOf(fmt, []) == []
  {
  }
}
