/**
  Safety over whole runs of a reader: a client that does anything the library allows, in any order,
  one poll at a time, and goes on after waits and failures.
*/
module ReadRuns {
  import opened Bytes
  import opened Format
  import opened Automaton
  import opened Position
  import opened Grammar
  import opened Buffer
  import opened Io
  import opened ReaderSteps
  import opened Reader
  import opened ReferenceEncoding

  /**
    One poll by a reading client. `Lend` looks at the data that is buffered and consumes up to the
    given amount of it, if any.
  */
  datatype ReadOp = Ask | Take(room: nat) | Lend(amt: Option<nat>) | SkipRest

  datatype Given = Header(header: Option<seq<byte>>) | Bytes(bytes: seq<byte>) | Passed

  /** The answer to a poll, if the operation could be polled at all. */
  datatype Polled = Polled(op: ReadOp, answer: Option<Poll<Given>>) {
    /** The bytes that the client consumed. */
    function Consumed(): seq<byte> {
      if answer.None? || !answer.value.Ready? || !answer.value.value.Bytes? then []
      else
        var bytes := answer.value.value.bytes;
        match op
        case Take(_) => bytes
        case Lend(Some(n)) => Clip(bytes, n)
        case _ => []
    }

    function Begun(): Option<seq<byte>> {
      if answer.Some? && answer.value.Ready? && answer.value.value.Header? then answer.value.value.header else None
    }
  }

  /** What a poll added to the files that were handed out. */
  function Record(log: seq<File>, p: Polled): seq<File> {
    if p.Begun().Some? then log + [File(p.Begun().value, [])]
    else if log == [] then log
    else Append(log, p.Consumed())
  }

  /** The files that were handed out in a run, by the answers. */
  function LogOf(history: seq<Polled>): seq<File> {
    if history == [] then []
    else Record(LogOf(history[..|history| - 1]), history[|history| - 1])
  }

  lemma LogOfNext(history: seq<Polled>, p: Polled)
    ensures LogOf(history + [p]) == Record(LogOf(history), p)
  {
    assert (history + [p])[..|history|] == history;
  }

  /** What was handed out of each entry agrees with the position: its header, and a part of its data. */
  ghost predicate Logged(c: Cursor, log: seq<File>) {
    && |log| == |c.done| + (if c.at.Body? || c.at.Pad? then 1 else 0)
    && (forall i :: 0 <= i < |c.done| ==> log[i].header == c.done[i].header && log[i].data <= c.done[i].data)
    && (c.at.Body? || c.at.Pad? ==> log[|c.done|].header == c.at.h && log[|c.done|].data <= c.at.d)
  }

  /** Unless the current entry is being skipped, the log has all of its data that was passed so far. */
  ghost predicate UpToDate(c: Cursor, log: seq<File>, skipping: bool) {
    && Logged(c, log)
    && (!skipping && (c.at.Body? || c.at.Pad?) ==> log[|c.done|].data == c.at.d)
  }

  lemma RecordNothing(log: seq<File>, p: Polled)
    requires p.Begun().None? && p.Consumed() == []
    ensures Record(log, p) == log
  {
    if log != [] { AppendNothing(log, []); }
  }

  lemma LoggedRead(fmt: Format, c: Cursor, c': Cursor, log: seq<File>, bytes: seq<byte>, room: nat)
    requires (c.at.Body? || c.at.Pad?) && UpToDate(c, log, false)
    requires ReadGives(fmt, c, c', bytes, room)
    ensures UpToDate(c', Append(log, bytes), false)
  {
    if bytes == [] { AppendNothing(log, bytes); }
  }

  lemma LoggedNext(c: Cursor, c': Cursor, log: seq<File>, skipping: bool)
    requires SameEntries(c, c') && !c.at.Body? && UpToDate(c, log, skipping)
    ensures if c'.at.Body? then c'.at.d == [] ==> UpToDate(c', log + [File(c'.at.h, [])], false)
            else UpToDate(c', log, skipping)
  {
  }

  lemma LoggedSkip(c: Cursor, c': Cursor, log: seq<File>)
    requires (c.at.Body? || c.at.Pad?) && Logged(c, log)
    requires || (c'.at.Between? && Skipped(c, c'.done))
             || ((c'.at.Body? || c'.at.Pad?) && c'.done == c.done && c'.at.h == c.at.h && c.at.d <= c'.at.d)
    ensures UpToDate(c', log, true)
  {
  }

  /** Passing alignment only. */
  lemma LoggedWait(c: Cursor, c': Cursor, log: seq<File>)
    requires (c.at.Body? || c.at.Pad?) && UpToDate(c, log, false)
    requires
      || c' == c
      || (c.at.Pad? && c'.at.Pad? && SameEntries(c, c'))
      || (c.at.Pad? && (c'.at.Between? || c'.at.Head?) && Completed(c, c'.done))
    ensures UpToDate(c', log, false)
  {
  }

  lemma LoggedLend(fmt: Format, c: Cursor, c': Cursor, log: seq<File>, bytes: seq<byte>)
    requires c.at.Body? && UpToDate(c, log, false)
    requires c' == Settle(AfterData(fmt, c, bytes))
    ensures UpToDate(c', Append(log, bytes), false)
  {
  }

  lemma LoggedHeader(c: Cursor, log: seq<File>, skipping: bool)
    requires UpToDate(c, log, skipping) && (c.at.Body? || c.at.Pad?)
    ensures Logged(c, log) && log != [] && LastHeader(log) == c.at.h
  {
  }

  function LastHeader(log: seq<File>): seq<byte> {
    if log == [] then [] else log[|log| - 1].header
  }

  /** What was handed out is a part of what the archive holds: the same headers in order, and prefixes of the data. */
  ghost predicate PartOf(log: seq<File>, es: seq<Entry>) {
    && |log| <= |es|
    && forall i :: 0 <= i < |log| ==> log[i].header == es[i].header && log[i].data <= es[i].data
  }

  lemma LoggedIsPart(c: Cursor, log: seq<File>, es: seq<Entry>)
    requires Logged(c, log) && Within(c, es, Zeros(BLOCK_SIZE))
    ensures PartOf(log, es)
  {
    assert forall i :: 0 <= i < |c.done| ==> c.done[i] == es[i];
  }

  lemma LoggedEntered(c: Cursor, log: seq<File>)
    requires Logged(c, log)
    ensures |log| == Entered(c)
  {
  }

  /**
    Whether a poll may be made in a state; the library panics on asking while data is due and has no
    entry to read from between entries. A client does not go back to reading what it skips.
  */
  predicate MayPoll(s: State, op: ReadOp, skipping: bool) {
    match op
    case Ask => !s.ReceivingData?
    case SkipRest => s.ReceivingData? || s.AligningData?
    case _ => !skipping && (s.ReceivingData? || s.AligningData?)
  }

  /** The states after a look ahead that make an operation panic. */
  predicate Panics(next: State, op: ReadOp) {
    match op
    case Ask => next.ExpectingHeader? || next.ReceivingData? || next.ReceivedData?
    case _ => !next.ReceivingData? && !next.ReceivedData? && !next.AligningData? && !next.AlignedData?
  }

  /** Exactly the polls whose first look ahead would panic are not allowed, besides reading what is being skipped. */
  lemma AllowedUnlessPanic(fmt: Format, c: Cursor, bytes: seq<byte>, op: ReadOp, skipping: bool)
    requires WellFormed(fmt, c) && Settled(c.at) && (bytes != [] || c.at.Done?)
    requires skipping ==> op.Ask? || op.SkipRest?
    ensures
      var s, hdr := StateAt(fmt, c.at), if op.Ask? then None else if c.at.HasHeader() then Some(c.at.h) else None;
      Next(fmt, s, bytes, hdr).Ok? ==>
        (MayPoll(s, op, skipping) <==> (op.Ask? && s.IsTerminal()) || !Panics(Next(fmt, s, bytes, hdr).state, op))
  {
    hide AllZero, PadLen;
  }

  /**
    What asking for the next entry at `c` answers, and how a poll can fail. The answer to asking is
    the one the data calls for; entry data only ends early where the data does; and only skipping
    an empty entry panics.
  */
  ghost predicate Accounted(fmt: Format, data: seq<byte>, c: Cursor, c': Cursor, p: Polled) {
    p.answer.Some? ==>
      match p.answer.value
      case Ready(Header(h)) =>
        p.op.Ask? && NextResult(fmt, data, Boundary(fmt, c)) == Ready(h) && (h.None? ==> c'.at.Done?)
      case Failed(e) =>
        || e == Device
        || (p.op.Ask? && !c.at.Done? && NextResult(fmt, data, Boundary(fmt, c)) == Failed(e))
        || (!p.op.Ask? && e == UnexpectedEof && !c'.at.Done? && Text(c') == data)
        || (p.op.SkipRest? && e == Panic && c.at.Body? && SizeOf(fmt, c.at.h) == Some(0))
      case _ => true
  }

  /**
    How much entry data a poll hands out: as much as there is room for, or all that is due, or all
    that was pulled from the source.
  */
  ghost predicate AsMuch(fmt: Format, c: Cursor, c': Cursor, pulled: nat, p: Polled) {
    c.at.Body? && p.answer.Some? && p.answer.value.Ready? ==>
      match (p.op, p.answer.value.value)
      case (Take(room), Bytes(bytes)) =>
        |bytes| == room || SizeOf(fmt, c.at.h) == Some(|c.at.d| + |bytes|) || |Text(c')| == pulled
      case (Lend(_), Bytes(bytes)) =>
        SizeOf(fmt, c.at.h) == Some(|c.at.d| + |bytes|) || |Text(c)| + |bytes| == pulled
      case _ => true
  }

  /** A poll only waits, and only fails because the source does, when all that was pulled was consumed. */
  ghost predicate OnlyIfEmpty(c': Cursor, pulled: nat, p: Polled) {
    p.answer.Some? && !Decided(p.answer.value) ==> |Text(c')| == pulled
  }

  lemma WholeSlice(s: seq<byte>)
    ensures s[..|s|] == s
  {
  }

  method PollAsk(rd: ArchiveReader, ghost log: seq<File>, ghost skipping: bool) returns (p: Polled)
    requires rd.Valid() && rd.Aligned() && UpToDate(rd.cur, log, skipping) && !rd.cur.at.Body?
    modifies rd`state, rd`cur, rd.buf, rd.buf.data, rd.io`clock, rd.io`off
    ensures rd.Valid() && rd.Aligned() && p.op == Ask && p.answer.Some?
    ensures UpToDate(rd.cur, Record(log, p), skipping && p.Begun().None?)
    ensures p.Begun().Some? ==> ValidHeader(rd.fmt, p.Begun().value)
    ensures Accounted(rd.fmt, rd.io.data, old(rd.cur), rd.cur, p)
    ensures AsMuch(rd.fmt, old(rd.cur), rd.cur, rd.io.off, p)
    ensures OnlyIfEmpty(rd.cur, rd.io.off, p)
    ensures Blames(rd.io.schedule, old(rd.io.clock), rd.io.clock, p.answer.value)
  {
    hide Text, GoodPhase, StateAt, WholeBlocks, SameEntries, UpToDate, Append, Buf.Buffered, NextResult, Boundary;
    WholeSlice(rd.io.data);
    ghost var c := rd.cur;
    var r, late := rd.PollNextEntry();
    LoggedNext(c, rd.cur, log, skipping);
    p := Polled(Ask, Some(if r.Ready? then Ready(Header(r.value)) else r.PropagateFailure()));
    if p.Begun().None? { RecordNothing(log, p); }
  }

  method PollTake(rd: ArchiveReader, room: nat, header: seq<byte>, ghost log: seq<File>) returns (p: Polled)
    requires rd.Valid() && rd.Aligned() && UpToDate(rd.cur, log, false)
    requires (rd.cur.at.Body? || rd.cur.at.Pad?) && rd.cur.at.h == header && log != []
    modifies rd`state, rd`cur, rd.buf, rd.buf.data, rd.io`clock, rd.io`off
    ensures rd.Valid() && rd.Aligned() && p.op == Take(room) && p.answer.Some? && p.Begun().None?
    ensures UpToDate(rd.cur, Record(log, p), false)
    ensures Accounted(rd.fmt, rd.io.data, old(rd.cur), rd.cur, p)
    ensures AsMuch(rd.fmt, old(rd.cur), rd.cur, rd.io.off, p)
    ensures OnlyIfEmpty(rd.cur, rd.io.off, p)
    ensures Blames(rd.io.schedule, old(rd.io.clock), rd.io.clock, p.answer.value)
  {
    hide Text, GoodPhase, StateAt, WholeBlocks, SameEntries, UpToDate, ReadGives, Append, Buf.Buffered, NextResult,
      Boundary;
    WholeSlice(rd.io.data);
    ghost var c := rd.cur;
    var r := rd.PollRead(room, header);
    p := Polled(Take(room), Some(if r.Ready? then Ready(Bytes(r.value)) else r.PropagateFailure()));
    if r.Ready? {
      LoggedRead(rd.fmt, c, rd.cur, log, r.value, room);
    } else {
      LoggedWait(c, rd.cur, log);
      RecordNothing(log, p);
    }
  }

  /** Consumes up to `amt` of the bytes that were looked at. */
  method ConsumeLent(rd: ArchiveReader, bytes: seq<byte>, amt: nat, header: seq<byte>)
    requires rd.Valid() && rd.Aligned()
    requires if rd.cur.at.Body? then
               && rd.cur.at.h == header && SizeOf(rd.fmt, header).Some?
               && |rd.cur.at.d| <= SizeOf(rd.fmt, header).value
               && bytes == Clip(rd.buf.Buffered(), SizeOf(rd.fmt, header).value - |rd.cur.at.d|)
             else rd.cur.at.Between? && bytes == []
    modifies rd`state, rd`cur, rd.buf
    ensures rd.Valid() && rd.Aligned()
    ensures rd.cur == Settle(AfterData(rd.fmt, old(rd.cur), Clip(bytes, amt)))
  {
    hide Text, GoodPhase, StateAt, WholeBlocks, NeverZero, Buf.Buffered, AfterData, Settle, Checked, IsBlocks,
      WellFormedEntries, Boundary;
    var n := Min(amt, |bytes|);
    if rd.cur.at.Body? { ClipShorter(rd.buf.Buffered(), n, SizeOf(rd.fmt, header).value - |rd.cur.at.d|); }
    rd.ConsumeEntry(n, header);
  }

  method PollLend(rd: ArchiveReader, amt: Option<nat>, header: seq<byte>, ghost log: seq<File>) returns (p: Polled)
    requires rd.Valid() && rd.Aligned() && UpToDate(rd.cur, log, false)
    requires (rd.cur.at.Body? || rd.cur.at.Pad?) && rd.cur.at.h == header && log != []
    modifies rd`state, rd`cur, rd.buf, rd.buf.data, rd.io`clock, rd.io`off
    ensures rd.Valid() && rd.Aligned() && p.op == Lend(amt) && p.answer.Some? && p.Begun().None?
    ensures UpToDate(rd.cur, Record(log, p), false)
    ensures Accounted(rd.fmt, rd.io.data, old(rd.cur), rd.cur, p)
    ensures AsMuch(rd.fmt, old(rd.cur), rd.cur, rd.io.off, p)
    ensures OnlyIfEmpty(rd.cur, rd.io.off, p)
    ensures Blames(rd.io.schedule, old(rd.io.clock), rd.io.clock, p.answer.value)
  {
    hide Text, GoodPhase, StateAt, WholeBlocks, SameEntries, UpToDate, Append, Boundary, Completed, NeverZero,
      Buf.Buffered, AfterData, Settle, NextResult, Checked, IsBlocks, WellFormedEntries, Logged;
    WholeSlice(rd.io.data);
    ghost var c := rd.cur;
    StateOfSettled(rd.fmt, c.at);
    var r := rd.PollReadEntry(header);
    assert c.at.Body? && r.Ready? ==>
      SizeOf(rd.fmt, header) == Some(|c.at.d| + |r.value|) || |Text(c)| + |r.value| == rd.io.off;
    p := Polled(Lend(amt), Some(if r.Ready? then Ready(Bytes(r.value)) else r.PropagateFailure()));
    if r.Ready? && amt.Some? {
      if rd.cur.at.Between? { NothingBetween(rd.fmt, rd.cur); }
      ConsumeLent(rd, r.value, amt.value, header);
    }
    if c.at.Body? && r.Ready? && amt.Some? {
      LoggedLend(rd.fmt, c, rd.cur, log, p.Consumed());
    } else {
      LoggedWait(c, rd.cur, log);
      RecordNothing(log, p);
    }
  }

  method PollSkipRest(rd: ArchiveReader, header: seq<byte>, ghost log: seq<File>) returns (p: Polled)
    requires rd.Valid() && rd.Aligned() && Logged(rd.cur, log)
    requires (rd.cur.at.Body? || rd.cur.at.Pad?) && rd.cur.at.h == header
    modifies rd`state, rd`cur, rd.buf, rd.buf.data, rd.io`clock, rd.io`off
    ensures rd.Valid() && rd.Aligned() && p.op == SkipRest && p.answer.Some? && p.Begun().None?
    ensures UpToDate(rd.cur, Record(log, p), true)
    ensures Accounted(rd.fmt, rd.io.data, old(rd.cur), rd.cur, p)
    ensures AsMuch(rd.fmt, old(rd.cur), rd.cur, rd.io.off, p)
    ensures OnlyIfEmpty(rd.cur, rd.io.off, p)
    ensures Blames(rd.io.schedule, old(rd.io.clock), rd.io.clock, p.answer.value)
  {
    hide Text, GoodPhase, StateAt, WholeBlocks, UpToDate, Append, Buf.Buffered, NextResult, Boundary;
    WholeSlice(rd.io.data);
    ghost var c := rd.cur;
    var r := rd.PollSkip(header);
    LoggedSkip(c, rd.cur, log);
    p := Polled(SkipRest, Some(if r.Ready? then Ready(Passed) else r.PropagateFailure()));
    RecordNothing(log, p);
  }

  /**
    A point of a run: the position, whether its entry is being skipped, the next event, how many bytes
    were pulled from the source, and the record.
  */
  datatype Moment = Moment(c: Cursor, skipping: bool, clock: nat, pulled: nat, log: seq<File>)

  /** One poll, whatever it answers. */
  ghost predicate Stepped(
    fmt: Format, schedule: Schedule, data: seq<byte>, m: Moment, p: Polled, m': Moment)
  {
    && WellFormed(fmt, m.c) && Settled(m.c.at) && Text(m.c) <= data && Checked(fmt, m.c)
    && WellFormed(fmt, m'.c) && Settled(m'.c.at) && Text(m'.c) <= data && Checked(fmt, m'.c)
    && |Text(m.c)| <= m.pulled <= |data| && |Text(m'.c)| <= m'.pulled <= |data|
    && (p.answer.Some? <==> MayPoll(StateAt(fmt, m.c.at), p.op, m.skipping))
    && (p.answer.None? ==> m' == m)
    && (p.answer.Some? ==> Blames(schedule, m.clock, m'.clock, p.answer.value))
    && Accounted(fmt, data, m.c, m'.c, p)
    && AsMuch(fmt, m.c, m'.c, m'.pulled, p) && OnlyIfEmpty(m'.c, m'.pulled, p)
    && (p.Begun().Some? ==> ValidHeader(fmt, p.Begun().value))
    && m'.log == Record(m.log, p) && UpToDate(m'.c, m'.log, m'.skipping)
    && (m'.skipping <==> p.Begun().None? && (m.skipping || (p.op.SkipRest? && p.answer.Some?)))
  }

  /** One poll of an operation, if it may be polled at all; whatever it answers. */
  method PollOnce(rd: ArchiveReader, op: ReadOp, header: seq<byte>, skipping: bool, ghost log: seq<File>)
    returns (p: Polled, skipping': bool)
    requires rd.Valid() && rd.Aligned() && UpToDate(rd.cur, log, skipping)
    requires rd.cur.at.Body? || rd.cur.at.Pad? ==> rd.cur.at.h == header
    modifies rd`state, rd`cur, rd.buf, rd.buf.data, rd.io`clock, rd.io`off
    ensures rd.Valid() && rd.Aligned() && p.op == op
    ensures Stepped(rd.fmt, rd.io.schedule, rd.io.data,
                    Moment(old(rd.cur), skipping, old(rd.io.clock), old(rd.io.off), log), p,
                    Moment(rd.cur, skipping', rd.io.clock, rd.io.off, Record(log, p)))
  {
    hide Text, GoodPhase, StateAt, WholeBlocks, Append, Record, Buf.Buffered, NextResult, Boundary, UpToDate, Accounted,
      AsMuch, OnlyIfEmpty, Checked, Blames, NeverZero, IsBlocks, Settled, WellFormedEntries;
    p, skipping' := Polled(op, None), skipping;
    StateOfPhase(rd.fmt, rd.cur.at);
    if !MayPoll(rd.state, op, skipping) {
      NotPolled(rd, p, skipping, log);
      return;
    }
    if !op.Ask? { LoggedHeader(rd.cur, log, skipping); }
    match op
    case Ask =>
      p := PollAsk(rd, log, skipping);
      skipping' := skipping && p.Begun().None?;
    case Take(room) =>
      p := PollTake(rd, room, header, log);
    case Lend(amt) =>
      p := PollLend(rd, amt, header, log);
    case SkipRest =>
      p := PollSkipRest(rd, header, log);
      skipping' := true;
  }

  lemma NotPolled(rd: ArchiveReader, p: Polled, skipping: bool, log: seq<File>)
    requires rd.Valid() && UpToDate(rd.cur, log, skipping)
    requires p.answer.None? && !MayPoll(rd.state, p.op, skipping)
    ensures var m := Moment(rd.cur, skipping, rd.io.clock, rd.io.off, log);
            Record(log, p) == log && Stepped(rd.fmt, rd.io.schedule, rd.io.data, m, p, m)
  {
    hide Text, GoodPhase, StateAt, UpToDate, Checked, Record, Buf.Buffered, NextResult, Boundary;
    RecordNothing(log, p);
  }

  lemma LoggedStart()
    ensures UpToDate(START, [], false) && LogOf([]) == []
  {
  }

  /** The polls of a run, from one moment to the next. */
  ghost predicate IsRun(
    fmt: Format, schedule: Schedule, data: seq<byte>, trace: seq<Moment>, history: seq<Polled>)
  {
    && |trace| == |history| + 1
    && forall i :: 0 <= i < |history| ==> Stepped(fmt, schedule, data, trace[i], history[i], trace[i + 1])
  }

  lemma NoStep(fmt: Format, schedule: Schedule, data: seq<byte>, m: Moment)
    ensures IsRun(fmt, schedule, data, [m], [])
  {
  }

  lemma OneMoreStep(
    fmt: Format, schedule: Schedule, data: seq<byte>, trace: seq<Moment>, history: seq<Polled>, p: Polled, m: Moment)
    requires IsRun(fmt, schedule, data, trace, history)
    requires Stepped(fmt, schedule, data, trace[|history|], p, m)
    ensures IsRun(fmt, schedule, data, trace + [m], history + [p])
  {
    hide Stepped;
    var trace', history' := trace + [m], history + [p];
    forall i | 0 <= i < |history'| ensures Stepped(fmt, schedule, data, trace'[i], history'[i], trace'[i + 1]) {
      if i < |history| {
        assert trace'[i] == trace[i] && history'[i] == history[i] && trace'[i + 1] == trace[i + 1];
      }
    }
  }

  /**
    What the answers mean on an archive that may be cut off. A header handed out is that of the next
    entry, which comes before the first bad one; the end is reported only of a complete archive of
    good headers. A failure is the source's own, or the data is short, or the first bad header was
    reached, or an empty entry is skipped.
  */
  ghost predicate Explained(fmt: Format, data: seq<byte>, es: seq<Entry>, c: Cursor, p: Polled) {
    p.answer.Some? ==>
      match p.answer.value
      case Ready(Header(None)) => |data| >= |Archive(es)| && FirstBad(fmt, es) == |es|
      case Ready(Header(Some(h))) => Entered(c) < FirstBad(fmt, es) && h == es[Entered(c)].header
      case Failed(e) =>
        || e == Device
        || (e == UnexpectedEof && |data| < Needed(fmt, es))
        || (e == InvalidHeader && p.op.Ask? && |data| >= Needed(fmt, es) && Entered(c) == FirstBad(fmt, es) < |es|)
        || (e == Panic && p.op.SkipRest? && c.at.Body? && SizeOf(fmt, c.at.h) == Some(0))
      case _ => true
  }

  lemma StepExplained(
    fmt: Format, schedule: Schedule, data: seq<byte>, es: seq<Entry>, m: Moment, p: Polled, m': Moment)
    requires WellFormedEntries(fmt, es) && Agree(data, Archive(es))
    requires Stepped(fmt, schedule, data, m, p, m')
    ensures Explained(fmt, data, es, m.c, p)
  {
    hide Text, NextResult, Boundary, Agree, Archive, GoodPhase, StateAt, UpToDate, Record, Within, Settled, Checked,
      FirstBad, Needed, Entered;
    if p.answer.Some? {
      match p.answer.value {
        case Ready(Header(h)) =>
          AnswerIn(fmt, m.c, es, data, h);
        case Failed(e) =>
          if p.op.Ask? && !m.c.at.Done? && NextResult(fmt, data, Boundary(fmt, m.c)) == Failed(e) {
            FailureIn(fmt, m.c, es, data, e);
          } else if !p.op.Ask? && e == UnexpectedEof {
            FailureIn(fmt, m'.c, es, data, e);
          }
        case _ =>
      }
    }
  }

  lemma AnswerIn(fmt: Format, c: Cursor, es: seq<Entry>, data: seq<byte>, h: Option<seq<byte>>)
    requires WellFormed(fmt, c) && Settled(c.at) && WellFormedEntries(fmt, es)
    requires Checked(fmt, c) && Text(c) <= data && Agree(data, Archive(es))
    requires NextResult(fmt, data, Boundary(fmt, c)) == Ready(h)
    ensures
      match h
      case None => |data| >= |Archive(es)| && FirstBad(fmt, es) == |es|
      case Some(header) => Entered(c) < FirstBad(fmt, es) && header == es[Entered(c)].header
  {
    hide Archive, Text, GoodPhase, NextResult, Boundary, Agree, Checked, Within, StartOf;
    LocatedIn(fmt, c, es, data);
    CheckedWithin(fmt, c, es);
    BoundaryInArchive(fmt, c, es);
    NextIn(fmt, es, data, Entered(c));
  }

  /**
    Any run of a reader, from the start, over data that is an archive, cut off anywhere or followed
    by anything. Every poll that the library allows is made and has an answer that its events account
    for. At every moment the reader is synchronised with the data, and what was handed out is the
    headers in order, up to the first one that fails the checksum test, each with the beginning of its
    data. No failure and no end is reported without cause.
  */
  method AnyReadRun(rd: ArchiveReader, ops: seq<ReadOp>, ghost es: seq<Entry>)
    returns (history: seq<Polled>, ghost trace: seq<Moment>)
    requires rd.Valid() && rd.Aligned() && rd.cur == START
    requires WellFormedEntries(rd.fmt, es) && Agree(rd.io.data, Archive(es))
    modifies rd`state, rd`cur, rd.buf, rd.buf.data, rd.io`clock, rd.io`off
    ensures |history| == |ops| && forall i :: 0 <= i < |ops| ==> history[i].op == ops[i]
    ensures IsRun(rd.fmt, rd.io.schedule, rd.io.data, trace, history)
    ensures trace[0] == Moment(START, false, old(rd.io.clock), old(rd.io.off), [])
    ensures trace[|ops|].c == rd.cur && trace[|ops|].clock == rd.io.clock && trace[|ops|].log == LogOf(history)
    ensures rd.Valid() && Logged(rd.cur, LogOf(history)) && PartOf(LogOf(history), es)
    ensures |LogOf(history)| <= FirstBad(rd.fmt, es)
    ensures Within(rd.cur, es, Zeros(BLOCK_SIZE))
    ensures forall i :: 0 <= i < |history| ==> Explained(rd.fmt, rd.io.data, es, trace[i].c, history[i])
  {
    hide Text, GoodPhase, StateAt, WholeBlocks, Agree, Archive, Logged, LogOf, Record, Buf.Buffered, IsRun, Accounted,
      Explained, Blames, Checked, FirstBad, Needed;
    var log: seq<File> := [];
    var skipping := false;
    history := [];
    trace := [Moment(rd.cur, false, rd.io.clock, rd.io.off, [])];
    LoggedStart();
    NoStep(rd.fmt, rd.io.schedule, rd.io.data, trace[0]);
    for i := 0 to |ops|
      invariant rd.Valid() && rd.Aligned() && UpToDate(rd.cur, log, skipping) && log == LogOf(history)
      invariant |history| == i && forall j :: 0 <= j < i ==> history[j].op == ops[j]
      invariant |trace| == i + 1 && IsRun(rd.fmt, rd.io.schedule, rd.io.data, trace, history)
      invariant trace[0] == Moment(START, false, old(rd.io.clock), old(rd.io.off), [])
      invariant trace[i] == Moment(rd.cur, skipping, rd.io.clock, rd.io.off, log)
      invariant forall j :: 0 <= j < i ==> Explained(rd.fmt, rd.io.data, es, trace[j].c, history[j])
    {
      var p;
      if rd.cur.at.Body? || rd.cur.at.Pad? { LoggedHeader(rd.cur, log, skipping); }
      ghost var m := trace[i];
      p, skipping := PollOnce(rd, ops[i], LastHeader(log), skipping, log);
      ghost var m' := Moment(rd.cur, skipping, rd.io.clock, rd.io.off, Record(log, p));
      LogOfNext(history, p);
      OneMoreStep(rd.fmt, rd.io.schedule, rd.io.data, trace, history, p, m');
      StepExplained(rd.fmt, rd.io.schedule, rd.io.data, es, m, p, m');
      log, history, trace := Record(log, p), history + [p], trace + [m'];
    }
    assert Text(rd.cur) <= rd.io.data;
    LocatedIn(rd.fmt, rd.cur, es, rd.io.data);
    LoggedIsPart(rd.cur, log, es);
    LoggedEntered(rd.cur, log);
    CheckedWithin(rd.fmt, rd.cur, es);
  }
}
