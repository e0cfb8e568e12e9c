/** A client that writes an archive, and the refinement of the reference encoding. */
module WriteClient {
  import opened Bytes
  import opened Format
  import opened Automaton
  import opened Position
  import opened Buffer
  import opened Io
  import opened Outcomes
  import opened Slices
  import opened WriterSteps
  import opened Writer
  import opened ReferenceEncoding

  /** A sink that always accepts something. */
  ghost predicate Willing(schedule: Schedule) {
    forall i :: EventAt(schedule, i).Move? && EventAt(schedule, i).n > 0
  }

  lemma WillingNeverBlames<T>(schedule: Schedule, from: nat, clock: nat, r: Poll<T>)
    requires Willing(schedule) && Blames(schedule, from, clock, r)
    ensures !r.Pending? && (r.Failed? ==> r.error != Device) && NeverZero(schedule)
  {
    assert clock > 0 ==> EventAt(schedule, clock - 1).Move?;
  }

  /** Slices of the given lengths, cut from the front of `s` as far as it goes. */
  function Chop(s: seq<byte>, lens: seq<nat>): (slices: seq<seq<byte>>)
    ensures Concat(slices) <= s
    ensures lens != [] && lens[0] > 0 && s != [] ==> Concat(slices) != []
  {
    if lens == [] then []
    else
      var n := Min(lens[0], |s|);
      assert s == s[..n] + s[n..];
      [s[..n]] + Chop(s[n..], lens[1..])
  }

  /**
    How data is offered, by the lengths of the slices of each write; which entries are shut down; and
    after how many rounds of its loop a poll of `finish` is given up.
  */
  datatype Plan = Plan(slices: nat -> seq<nat>, shut: nat -> bool, rounds: nat)

  function SlicesAt(plan: Plan, i: nat): seq<nat> {
    (plan.slices)(i)
  }

  predicate ShutsAt(plan: Plan, i: nat) {
    (plan.shut)(i)
  }

  ghost predicate Offers(plan: Plan) {
    plan.rounds >= 5 && forall i :: SlicesAt(plan, i) != [] && SlicesAt(plan, i)[0] > 0
  }

  /** Adds an entry, polling as long as that is of use and the budget lasts. */
  method AddEntry(w: ArchiveWriter, header: seq<byte>, polls: nat) returns (ok: bool, left: nat)
    requires w.Valid() && ZeroPadded(w.cur) && w.cur.at.Between?
    requires w.CanAdd(header) && SizeOf(w.fmt, header).Some?
    modifies w`state, w`cur, w.buf, w.buf.data, w.io
    ensures w.Valid() && ZeroPadded(w.cur) && left <= polls
    ensures ok ==> w.cur == Cursor(old(w.cur).done, Body(header, []))
    ensures Willing(w.io.schedule) && polls > 0 ==> ok && left == polls - 1
  {
    hide Text, GoodPhase, StateAt, WellFormedEntries, ZeroPadded, AllZero, Buf.Buffered;
    left := polls;
    while left > 0
      invariant left <= polls
      invariant w.Valid() && ZeroPadded(w.cur)
      invariant w.cur.done == old(w.cur).done && Adding(w.cur.at, header)
      invariant Willing(w.io.schedule) ==> left == polls
      decreases left
    {
      left := left - 1;
      ghost var clock := w.io.clock;
      var r := w.PollWriteHeader(header);
      if Willing(w.io.schedule) { WillingNeverBlames(w.io.schedule, clock, w.io.clock, r); }
      if r.Ready? {
        return true, left;
      }
      if r.Failed? {
        return false, left;
      }
    }
    ok := false;
  }

  /** The data of a file is all in the stream: the entry is finished, or waits for its alignment. */
  ghost predicate DataSent(done: seq<Entry>, f: File, c: Cursor) {
    || c == Cursor(done + [EntryOf(f)], Between)
    || c == Cursor(done, Pad(f.header, f.data, []))
  }

  lemma WrittenPart(done: seq<Entry>, f: File, sent: nat, part: seq<byte>, n: nat)
    requires sent <= |f.data| && part <= f.data[sent..] && n <= |part|
    ensures f.data[..sent] + part[..n] == f.data[..sent + n]
    ensures |f.data| == sent + |part| ==> f.data[..sent] + part == f.data
    ensures Finished(Cursor(done, BodyDone(f.header, f.data))) == Cursor(done + [EntryOf(f)], Between)
  {
    assert f.data[sent..][..n] == part[..n];
  }

  lemma ClipAll(s: seq<byte>, n: nat)
    requires |s| <= n
    ensures Clip(s, n) == s
  {
  }

  /** One write of the data of a file, offering some slices of what is left of it. */
  method SendPart(w: ArchiveWriter, f: File, sent: nat, bufs: seq<seq<byte>>) returns (r: Poll<nat>)
    requires w.Valid() && ZeroPadded(w.cur) && Describes(w.fmt, f)
    requires sent <= |f.data| && w.cur.at == Body(f.header, f.data[..sent])
    requires Concat(bufs) <= f.data[sent..]
    modifies w`state, w`cur, w.buf, w.buf.data, w.io
    ensures w.Valid() && ZeroPadded(w.cur)
    ensures r.Ready? && w.cur.at.Body? ==>
      sent + r.value <= |f.data| && w.cur == old(w.cur).(at := Body(f.header, f.data[..sent + r.value]))
    ensures w.cur.at.Body? || DataSent(old(w.cur).done, f, w.cur)
    ensures !r.Ready? && w.cur.at.Body? ==> w.cur == old(w.cur)
    ensures Willing(w.io.schedule) ==> r.Ready? && (Concat(bufs) == [] || r.value > 0)
    ensures f.data == [] && r.Ready? ==> !w.cur.at.Body?
  {
    hide Next, Text, GoodPhase, StateAt, Concat, PadLen, AllZero, WellFormed, ZeroPadded, Finished, Buf.Buffered,
      Handed, ArchiveWriter.EntryDecided, WholeLength, CutsFirst, Clip;
    ghost var part := Concat(bufs);
    ClipAll(part, |f.data| - sent);
    WholeOfAll(bufs, |f.data| - sent);
    NothingWhole(bufs, |f.data| - sent);
    ghost var clock := w.io.clock;
    r := w.PollWriteEntry(bufs, f.header);
    WrittenPart(old(w.cur).done, f, sent, part, if r.Ready? then r.value else |part|);
    if !r.Ready? {
      if Willing(w.io.schedule) && r.Pending? { WillingNeverBlames(w.io.schedule, clock, w.io.clock, r); }
    }
  }

  /**
    Writes the data of a file in whatever pieces the plan cuts it into. An empty file takes one
    empty write. When a write is Pending although its bytes were taken, it is not repeated.
  */
  method SendData(w: ArchiveWriter, f: File, plan: Plan, polls: nat) returns (ok: bool, left: nat)
    requires w.Valid() && ZeroPadded(w.cur) && w.cur.at == Body(f.header, [])
    requires Describes(w.fmt, f)
    modifies w`state, w`cur, w.buf, w.buf.data, w.io
    ensures w.Valid() && ZeroPadded(w.cur) && left <= polls
    ensures ok ==> DataSent(old(w.cur).done, f, w.cur)
    ensures Willing(w.io.schedule) && Offers(plan) && polls > |f.data| ==> ok && left + |f.data| + 1 >= polls
  {
    hide Next, Text, GoodPhase, StateAt, ZeroPadded, Buf.Buffered, Chop, Concat,
      PadLen, AllZero, WellFormedEntries, EntryOf;
    left := polls;
    var sent: nat := 0;
    assert f.data[..0] == [];
    StateOfPhase(w.fmt, w.cur.at);
    while w.state.ReceivingData? && left > 0
      invariant left <= polls && sent <= |f.data|
      invariant w.Valid() && ZeroPadded(w.cur)
      invariant w.state.ReceivingData? <==> w.cur.at.Body?
      invariant w.cur == old(w.cur).(at := Body(f.header, f.data[..sent])) || DataSent(old(w.cur).done, f, w.cur)
      invariant Willing(w.io.schedule) && Offers(plan) ==>
        polls <= left + if w.cur.at.Body? then sent else |f.data| + 1
      decreases left
    {
      left := left - 1;
      var r := SendPart(w, f, sent, Chop(f.data[sent..], SlicesAt(plan, left)));
      StateOfPhase(w.fmt, w.cur.at);
      if r.Failed? {
        return false, left;
      }
      if r.Ready? && w.state.ReceivingData? {
        sent := sent + r.value;
      }
    }
    ok := !w.state.ReceivingData?;
  }

  /** Finishes an entry whose data was sent. */
  method CloseEntry(w: ArchiveWriter, f: File, polls: nat) returns (ok: bool, left: nat)
    requires w.Valid() && ZeroPadded(w.cur)
    requires InFinish(w.cur.at, f.header)
    modifies w`state, w`cur, w.buf, w.buf.data, w.io
    ensures w.Valid() && ZeroPadded(w.cur) && left <= polls
    ensures ok ==> w.cur == Finished(old(w.cur))
    ensures ok ==> w.io.received == Text(w.cur) && w.io.flushed == Some(|w.io.received|)
    ensures Willing(w.io.schedule) && polls > 0 ==> ok && left == polls - 1
  {
    hide Text, GoodPhase, StateAt, WellFormedEntries, ZeroPadded, PadLen, AllZero, Willing, Buf.Buffered;
    left := polls;
    while left > 0
      invariant left <= polls
      invariant w.Valid() && ZeroPadded(w.cur) && InFinish(w.cur.at, f.header)
      invariant Finished(w.cur) == Finished(old(w.cur))
      invariant Willing(w.io.schedule) ==> left == polls
      decreases left
    {
      left := left - 1;
      ghost var clock := w.io.clock;
      var r := w.PollShutdown(f.header);
      if Willing(w.io.schedule) { WillingNeverBlames(w.io.schedule, clock, w.io.clock, r); }
      if r.Ready? {
        return true, left;
      }
      if r.Failed? {
        return false, left;
      }
    }
    ok := false;
  }

  /** Polls `finish` to its end, giving up on a poll that does not end within some rounds. */
  method Finish(w: ArchiveWriter, rounds: nat, polls: nat) returns (ok: bool)
    requires w.Valid() && ZeroPadded(w.cur) && Finishing(w.cur.at)
    modifies w`state, w`cur, w.buf, w.buf.data, w.io
    ensures w.Valid()
    ensures ok ==> w.io.received == Archive(old(w.cur).done) && w.io.closed == Some(|w.io.received|)
    ensures Willing(w.io.schedule) && rounds >= 5 && polls > 0 ==> ok
  {
    hide Text, GoodPhase, StateAt, WellFormedEntries, ZeroPadded, AllZero, Buf.Buffered, Drained, RoundsNeeded;
    var left := polls;
    while left > 0
      invariant left <= polls
      invariant w.Valid() && ZeroPadded(w.cur) && Finishing(w.cur.at) && w.cur.done == old(w.cur).done
      invariant Willing(w.io.schedule) && rounds >= 5 ==> left == polls
      decreases left
    {
      left := left - 1;
      ghost var clock := w.io.clock;
      if Willing(w.io.schedule) && rounds >= 5 { FinishesSoon(w, rounds); }
      var r := w.FinishFor(rounds);
      if r.Some? && Willing(w.io.schedule) {
        WillingNeverBlames(w.io.schedule, clock, w.io.clock, r.value);
      }
      if r.None? || r.value.Failed? {
        return false;
      }
      if r.value.Ready? {
        return true;
      }
    }
    ok := false;
  }

  lemma FinishesSoon(w: ArchiveWriter, rounds: nat)
    requires w.Valid() && Finishing(w.cur.at) && Willing(w.io.schedule) && rounds >= 5
    ensures FinishRounds(w.Chan(), w.Now(), ZerosMissing(w.cur.at), rounds).Some?
  {
    hide Text;
    FinishingStates(w.fmt, w.cur.at);
    EndsSoon(w.Chan(), w.Now(), ZerosMissing(w.cur.at), rounds);
  }

  /**
    Writes one file. The entry is only shut down if the caller wants that or if its alignment has to
    wait; otherwise its bytes may still be queued when the next entry begins.
  */
  method WriteFile(w: ArchiveWriter, f: File, plan: Plan, shut: bool, polls: nat) returns (ok: bool, left: nat)
    requires w.Valid() && ZeroPadded(w.cur) && w.cur.at.Between?
    requires Describes(w.fmt, f) && w.CanAdd(f.header)
    modifies w`state, w`cur, w.buf, w.buf.data, w.io
    ensures w.Valid() && ZeroPadded(w.cur) && left <= polls
    ensures ok ==> w.cur == Cursor(old(w.cur).done + [EntryOf(f)], Between)
    ensures Willing(w.io.schedule) && Offers(plan) && polls >= |f.data| + 3 ==>
      ok && left + |f.data| + 3 >= polls
  {
    hide Text, GoodPhase, StateAt, WellFormedEntries, ZeroPadded, PadLen, AllZero, Willing, Offers,
      Buf.Buffered;
    ok, left := AddEntry(w, f.header, polls);
    if ok {
      ok, left := SendData(w, f, plan, left);
      if ok {
        StateOfPhase(w.fmt, w.cur.at);
        if shut || !w.state.ExpectingHeader? {
          ok, left := CloseEntry(w, f, left);
        }
      }
    }
  }

  /** A number of polls that is always enough on a willing sink. */
  function Enough(files: seq<File>): nat {
    if files == [] then 1 else |files[|files| - 1].data| + 3 + Enough(files[..|files| - 1])
  }

  /**
    Writer refinement. For every list of files, every way of cutting the data into writes and
    slices and of shutting entries down or leaving them queued, every capacity, every kind of sink
    and every schedule of short writes and waits: if this client finishes, the sink has exactly the
    reference encoding of the files, and was shut down after that.
  */
  method WriteArchive(w: ArchiveWriter, files: seq<File>, plan: Plan, polls: nat) returns (ok: bool)
    requires w.Valid() && w.cur == START
    requires forall i :: 0 <= i < |files| ==> Describes(w.fmt, files[i]) && w.CanAdd(files[i].header)
    modifies w`state, w`cur, w.buf, w.buf.data, w.io
    ensures w.Valid()
    ensures ok ==> w.io.received == Reference(files) && w.io.closed == Some(|w.io.received|)
    ensures Willing(w.io.schedule) && Offers(plan) && polls >= Enough(files) ==> ok
  {
    hide Text, GoodPhase, StateAt, WellFormed, Describes, Reference, Archive, EntryOf, IsHeader,
      ZeroPadded, WellFormedEntries, Willing, EntriesOf, Buf.Buffered;
    var left: nat := polls;
    StartZeroPadded();
    for i := 0 to |files|
      invariant w.Valid() && ZeroPadded(w.cur)
      invariant w.cur == Cursor(EntriesOf(files)[..i], Between)
      invariant Willing(w.io.schedule) && Offers(plan) && polls >= Enough(files) ==>
        left + Enough(files[..i]) >= Enough(files) + 1
    {
      EnoughStep(files, i);
      EntriesStep(files, i);
      ok, left := WriteFile(w, files[i], plan, ShutsAt(plan, i), left);
      if !ok {
        return;
      }
    }
    assert files[..|files|] == files && EntriesOf(files)[..|files|] == EntriesOf(files);
    ReferenceIsArchive(files);
    ok := Finish(w, plan.rounds, left);
  }

  lemma {:induction false} EnoughStep(files: seq<File>, i: nat)
    requires i < |files|
    ensures Enough(files[..i + 1]) == Enough(files[..i]) + |files[i].data| + 3
    ensures Enough(files) >= Enough(files[..i + 1])
    decreases |files|
  {
    assert files[..i + 1][..i] == files[..i];
    if i + 1 < |files| {
      var front := files[..|files| - 1];
      EnoughStep(front, i);
      assert front[..i + 1] == files[..i + 1];
    } else {
      assert files[..i + 1] == files;
    }
  }

  /** A sink that takes everything at its first event and then has to be waited for. */
  function OnceThenWait(): Schedule {
    i => if i == 0 then Move(2048) else NotReady
  }

  lemma SecondWriteWaits()
    ensures var ch := Channel(OnceThenWait(), false, 1024);
            AlignmentAnswer(ch, Queue(0, 612, 412), 1000, 0, PadLen(1100)) == Some(Pending)
  {
    var schedule := OnceThenWait();
    assert EventAt(schedule, 0) == Move(2048) && EventAt(schedule, 1) == NotReady;
    DrainedAtOnce(schedule, 0, 612);
  }

  lemma FillTwice()
    ensures var ch := Channel(OnceThenWait(), false, 1024);
            && Handed(ch, Queue(0, 0, 1024), BLOCK_SIZE, 0) == Outcome(Ready(BLOCK_SIZE), Queue(0, 512, 512))
            && forall pad: nat :: EntryOutcome(ch, Queue(0, 512, 512), 100, 0, false, pad)
                 == Outcome(Ready(100), Queue(0, 612, 412))
  {
  }

  /** A new archive on a sink that takes the first header whole. */
  method BeginEntry(fmt: Format, capacity: nat, sink: Sink, header: seq<byte>) returns (w: ArchiveWriter)
    requires capacity > 0 && sink.received == [] && sink.closed.None? && IsHeader(header) && SizeOf(fmt, header).Some?
    requires header[0] != 0 || capacity > 1 || !sink.vectored
    requires var cap := capacity * BLOCK_SIZE;
             Handed(Channel(sink.schedule, sink.vectored, cap), Queue(sink.clock, 0, cap), BLOCK_SIZE, 0).answer
               == Ready(BLOCK_SIZE)
    modifies sink
    ensures fresh(w) && fresh(w.buf) && fresh(w.buf.data) && w.io == sink && w.fmt == fmt
    ensures w.Valid() && ZeroPadded(w.cur) && w.cur == Cursor([], Body(header, []))
    ensures var cap := capacity * BLOCK_SIZE;
            var ch := Channel(sink.schedule, sink.vectored, cap);
            w.Chan() == ch && w.Now() == Handed(ch, Queue(old(sink.clock), 0, cap), BLOCK_SIZE, 0).q
  {
    hide Text, GoodPhase, StateAt, Handed, AllZero, ZeroPadded, Buf.Buffered, WellFormedEntries;
    w := new ArchiveWriter(fmt, capacity, sink);
    StartZeroPadded();
    var added := w.PollWriteHeader(header);
  }

  /** Two blocks of buffer that hold a header and the first 100 of its 1100 bytes of data. */
  method Queue612(fmt: Format, header: seq<byte>) returns (w: ArchiveWriter)
    requires IsHeader(header) && SizeOf(fmt, header) == Some(1100)
    ensures fresh(w) && fresh(w.buf) && fresh(w.buf.data) && fresh(w.io)
    ensures w.Valid() && ZeroPadded(w.cur) && w.fmt == fmt && w.cur.at == Body(header, Zeros(100))
    ensures w.Chan() == Channel(OnceThenWait(), false, 1024) && w.Now() == Queue(0, 612, 412)
  {
    hide Text, GoodPhase, StateAt, Handed, EntryOutcome, AlignmentAnswer, AllZero, ZeroPadded, Zeros, Buf.Buffered,
      Concat, WholeLength, CutsFirst, PadLen, WellFormedEntries;
    var sink := new Sink(false, OnceThenWait());
    FillTwice();
    w := BeginEntry(fmt, 2, sink, header);
    ConcatOne(Zeros(100));
    WholeOfAll([Zeros(100)], 1100);
    assert [] + Zeros(100) == Zeros(100);
    var n := w.PollWriteEntry([Zeros(100)], header);
  }

  /**
    A write that reports Pending although all its bytes were taken: a buffer of two blocks that
    holds 612 bytes, 1000 bytes to complete an entry of 1100, and a sink that takes what is queued
    and then has to be waited for. The entry is past its data, so the write cannot be repeated.
  */
  method PendingAfterTaking(fmt: Format, header: seq<byte>) returns (w: ArchiveWriter, r: Poll<nat>)
    requires IsHeader(header) && SizeOf(fmt, header) == Some(1100)
    ensures w.Valid() && r.Pending?
    ensures w.cur.at == Pad(header, Zeros(1100), []) && !w.state.ReceivingData?
  {
    hide Text, GoodPhase, StateAt, Handed, EntryOutcome, AlignmentAnswer, PadLen, AllZero, ZeroPadded, Zeros,
      Buf.Buffered, Concat, WholeLength, CutsFirst;
    w := Queue612(fmt, header);
    ConcatOne(Zeros(1000));
    WholeOfAll([Zeros(1000)], 1000);
    ZerosAppend(100, 1000);
    SecondWriteWaits();
    r := w.PollWriteEntry([Zeros(1000)], header);
    StateOfPhase(fmt, w.cur.at);
  }

  /** A sink that always takes a block, but has to be waited for once. */
  function WaitAt(t: nat): Schedule {
    i => if i == t then NotReady else Move(BLOCK_SIZE)
  }

  lemma NothingOf(s: seq<byte>, max: nat)
    requires |s| > max
    ensures WholeLength([s], max) == 0 && |Clip(s, max)| == max
  {
  }

  lemma RemainderWaits()
    ensures NeverZero(WaitAt(3))
    ensures var ch := Channel(WaitAt(3), true, BLOCK_SIZE);
            && Handed(ch, Queue(0, 0, BLOCK_SIZE), BLOCK_SIZE, 0)
                 == Outcome(Ready(BLOCK_SIZE), Queue(2, 0, BLOCK_SIZE))
            && forall pad: nat :: EntryOutcome(ch, Queue(2, 0, BLOCK_SIZE), 0, 1000, true, pad)
                 == Outcome(Ready(0), Queue(4, 0, BLOCK_SIZE))
  {
    var schedule := WaitAt(3);
    assert forall i: nat :: EventAt(schedule, i) == if i == 3 then NotReady else Move(BLOCK_SIZE);
  }

  /**
    A write of one slice of 2000 bytes to an entry that still takes 1000, on a sink that takes slices
    and a buffer of one block: the sink has to be waited for, and the answer is that 0 bytes were
    written, although this sink never accepts nothing.
  */
  method WaitReportedAsNothing(fmt: Format, header: seq<byte>) returns (w: ArchiveWriter, r: Poll<nat>)
    requires IsHeader(header) && header[0] != 0 && SizeOf(fmt, header) == Some(1000)
    ensures w.Valid() && NeverZero(w.io.schedule)
    ensures r == Ready(0) && w.cur.at == Body(header, [])
  {
    hide Text, GoodPhase, StateAt, Handed, PadLen, AllZero, ZeroPadded, Zeros, Buf.Buffered, Concat, NeverZero,
      AlignmentAnswer, Finished, WellFormedEntries, EntryOutcome, WholeLength,
      CutsFirst;
    var sink := new Sink(true, WaitAt(3));
    RemainderWaits();
    w := BeginEntry(fmt, 1, sink, header);
    ConcatOne(Zeros(2000));
    NothingOf(Zeros(2000), 1000);
    r := w.PollWriteEntry([Zeros(2000)], header);
    assert w.cur.at.d == [];
  }

  /** A sink that accepts nothing at all, as a full cursor does. */
  function Full(): Schedule {
    i => Move(0)
  }

  /** A buffer of one block in front of such a sink: `finish` has not ended after any number of rounds. */
  method NeverFinished(fmt: Format, rounds: nat) returns (r: Option<Poll<()>>)
    ensures r.None?
  {
    hide Text, GoodPhase, StateAt, FinishRounds, ZeroPadded, Buf.Buffered;
    var sink := new Sink(true, Full());
    var w := new ArchiveWriter(fmt, 1, sink);
    StartZeroPadded();
    assert forall i: nat :: EventAt(Full(), i) == Move(0);
    StuckForEver(w.Chan(), w.Now(), 2 * BLOCK_SIZE, rounds);
    r := w.FinishFor(rounds);
  }

  lemma StartZeroPadded()
    ensures ZeroPadded(START)
  {
  }

  lemma ConcatOne(s: seq<byte>)
    ensures Concat([s]) == s && Clip(s, |s|) == s
  {
    assert Concat([s]) == s + [];
  }

  lemma ZerosAppend(m: nat, n: nat)
    ensures Zeros(m) + Zeros(n) == Zeros(m + n)
  {
  }
}
