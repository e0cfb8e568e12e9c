/** The resumable write engine (src/write/mod.rs). */
module Writer {
  import opened Bytes
  import opened Format
  import opened Automaton
  import opened Position
  import opened Slices
  import opened Buffer
  import opened Io
  import opened Outcomes
  import opened WriterSteps

  class ArchiveWriter {
    const fmt: Format
    const buf: Buf
    const io: Sink
    var state: State
    /** The accepted stream, entry by entry. */
    ghost var cur: Cursor

    /**
      The stream invariant: what the sink has plus what is buffered is exactly the accepted
      stream, and the automaton is in the state that stream leads to.
    */
    ghost predicate Valid()
      reads this, buf, buf.data, io
    {
      && buf.Valid() && buf.data.Length >= BLOCK_SIZE
      && WellFormed(fmt, cur) && state == StateAt(fmt, cur.at)
      && Text(cur) == Logical()
      // The sink is shut down only after everything was sent.
      && (io.closed.Some? ==> cur.at.Done? && buf.pos == buf.cap && io.closed == Some(|io.received|))
    }

    ghost function Logical(): seq<byte>
      reads buf, buf.data, io
      requires buf.Valid()
    {
      io.received + buf.Buffered()
    }

    constructor (fmt: Format, capacity: nat, io: Sink)
      requires capacity > 0 && io.received == [] && io.closed.None?
      ensures Valid() && fresh(buf) && fresh(buf.data)
      ensures this.fmt == fmt && this.io == io && cur == START
      ensures buf.Free() == buf.data.Length == capacity * BLOCK_SIZE && buf.Buffered() == []
    {
      this.fmt, this.io := fmt, io;
      buf := new Buf(capacity * BLOCK_SIZE);
      state := ExpectingHeader;
      cur := START;
      new;
      hide Text, WellFormed, StateAt, Buf.Buffered;
      AtStart(fmt);
    }

    /** What the outcome of a write depends on: the sink and the capacity, and how far they are used. */
    ghost function Chan(): Channel {
      Channel(io.schedule, io.vectored, buf.data.Length)
    }

    ghost function Now(): Queue
      reads buf, io
      requires buf.Valid()
    {
      Queue(io.clock, buf.cap - buf.pos, buf.Free())
    }

    /** Whether `k` bytes go to the sink unbuffered. */
    predicate Passes(k: nat) {
      k >= buf.data.Length && io.vectored
    }

    /** A partial write of this header can be told from the trailer, or there is no partial write of it. */
    predicate CanAdd(header: seq<byte>) {
      IsHeader(header) && (header[0] != 0 || !Passes(BLOCK_SIZE))
    }

    /** Sends what is buffered, in order, under any short writes; what is left stays buffered. */
    method PollFlushBuffered() returns (r: Poll<()>)
      requires buf.Valid()
      modifies buf, io`clock, io`received
      ensures buf.Valid() && Logical() == old(Logical()) && old(io.received) <= io.received
      ensures r.Ready? ==> buf.Buffered() == [] && io.received == old(Logical())
      ensures Outcome(r, Now()) == Flushed(Chan(), old(Now()))
      ensures Blames(io.schedule, old(io.clock), io.clock, r)
      ensures r.Failed? ==> r.error == Device || (r.error == WriteZero && !NeverZero(io.schedule))
    {
      hide Drained, Buf.Buffered, NeverZero;
      while buf.pos < buf.cap
        invariant old(io.clock) <= io.clock
        invariant buf.Valid() && Logical() == old(Logical()) && buf.cap == old(buf.cap)
        invariant old(io.received) <= io.received
        invariant Drained(io.schedule, io.clock, buf.cap - buf.pos)
          == Drained(io.schedule, old(io.clock), old(buf.cap - buf.pos))
        decreases buf.cap - buf.pos
      {
        ghost var sent := io.received;
        var bytes := buf.BufferedBytes();
        DrainedOnce(io.schedule, io.clock, |bytes|);
        var n :- io.PollWrite(bytes);
        if n == 0 {
          return Failed(WriteZero);
        }
        buf.CommitRead(n);
        MoveAcross(sent, bytes, n);
      }
      NothingToDrain(io.schedule, io.clock);
      assert Logical() == io.received;
      buf.Clear();
      assert Logical() == io.received;
      r := Ready(());
    }

    /**
      Passes slices through unbuffered. Neither an error nor Pending from the write of the remainder
      is reported, even if there was no whole slice before it and nothing was written.
    */
    method PassThrough(p: Prefix) returns (r: Poll<nat>)
      requires buf.Valid() && buf.Buffered() == []
      modifies io`clock, io`received
      ensures Outcome(r, Now()) == Passed(Chan(), old(Now()), |Concat(p.slices)|, |p.remainder|)
      // The slices at one event, and the remainder, if they were taken whole, at the next.
      ensures
        var first, second := EventAt(io.schedule, old(io.clock)), EventAt(io.schedule, old(io.clock) + 1);
        var whole, rest := |Concat(p.slices)|, |p.remainder|;
        match first
        case NotReady => r == Pending
        case Failure => r == Failed(Device)
        case Move(k) => r == Ready(if k < whole then k else whole + if second.Move? then Min(second.n, rest) else 0)
      ensures old(io.received) <= io.received
      ensures r.Ready? ==> io.received == old(Logical()) + PrefixBytes(p)[..r.value]
      ensures r.Ready? ==> r.value <= |PrefixBytes(p)| && Logical() == old(Logical()) + PrefixBytes(p)[..r.value]
      ensures !r.Ready? ==> Logical() == old(Logical())
      ensures Blames(io.schedule, old(io.clock), io.clock, r) && (r.Failed? ==> r.error == Device)
    {
      hide Concat, Buf.Buffered;
      ghost var sent := io.received;
      assert sent + buf.Buffered() == sent;
      var slicesLen := |Concat(p.slices)|;
      var n :- io.PollWriteVectored(p.slices);
      if n == slicesLen {
        var q := io.PollWrite(p.remainder);
        if q.Ready? {
          n := n + q.value;
        }
      }
      assert io.received == sent + PrefixBytes(p)[..n];
      assert Logical() == io.received;
      r := Ready(n);
    }

    /** Fills the buffer with as much data from the slices as fits. */
    method Enqueue(p: Prefix) returns (n: nat)
      requires buf.Valid()
      modifies buf`cap, buf.data
      ensures buf.Valid()
      ensures n == Min(|PrefixBytes(p)|, old(buf.Free())) && buf.Free() == old(buf.Free()) - n
      ensures Logical() == old(Logical()) + PrefixBytes(p)[..n]
    {
      hide Concat, Buf.Buffered;
      ghost var sent, queued := io.received, buf.Buffered();
      BuffersBytes(p, Suffix([], []));
      n := buf.FillFromSlices(p.Buffers());
      assert sent + (queued + PrefixBytes(p)[..n]) == sent + queued + PrefixBytes(p)[..n];
    }

    /**
      Bytes that fit are taken without asking the sink. Before any others are, everything accepted
      before (`logical`) has reached the sink; then as many are taken as an empty buffer holds, or
      they go to the sink themselves.
    */
    ghost predicate InOrder(
      w: seq<byte>, room: nat, sent: seq<byte>, logical: seq<byte>, clock: nat, r: Poll<nat>)
      reads io
    {
      if !Passes(|w|) && |w| <= room then r == Ready(|w|) && io.clock == clock && io.received == sent
      else
        r.Ready? ==>
          if Passes(|w|) then r.value <= |w| && io.received == logical + w[..r.value]
          else r.value == Min(|w|, buf.data.Length) && io.received == logical
    }

    /** Hands the bytes to the sink or to the buffer, after making room or draining it first. */
    method Transfer(prefix: Prefix) returns (r: Poll<nat>)
      requires buf.Valid() && buf.data.Length > 0
      modifies buf, buf.data, io`clock, io`received
      ensures buf.Valid()
      ensures !r.Ready? ==> Logical() == old(Logical())
      ensures r.Ready? ==>
        var w := PrefixBytes(prefix);
        r.value <= |w| && Logical() == old(Logical()) + w[..r.value]
      ensures Outcome(r, Now()) == Handed(Chan(), old(Now()), |Concat(prefix.slices)|, |prefix.remainder|)
      ensures old(io.received) <= io.received
      ensures InOrder(PrefixBytes(prefix), old(buf.Free()), old(io.received), old(Logical()), old(io.clock), r)
      ensures Blames(io.schedule, old(io.clock), io.clock, r)
    {
      hide Concat, Drained, Flushed, Passed, Buf.Buffered;
      var prefixLen := |PrefixBytes(prefix)|;
      BytesOfSlices(prefix);
      var canPassThrough := prefixLen >= buf.data.Length && io.vectored;
      if canPassThrough || prefixLen > buf.Free() {
        // Keep the order when passing through; make room otherwise.
        var _ :- PollFlushBuffered();
        Emptied(old(Now()));
      }
      if canPassThrough {
        r := PassThrough(prefix);
      } else {
        var n := Enqueue(prefix);
        r := Ready(n);
      }
    }

    lemma NothingQueued(q: Queue)
      requires q.queued == 0
      ensures Flushed(Chan(), q) == Outcome(Ready(()), Queue(q.clock, 0, buf.data.Length))
    {
    }

    lemma Emptied(q: Queue)
      ensures Flushed(Chan(), q).answer.Ready? ==>
        Flushed(Chan(), q).q.queued == 0 && Flushed(Chan(), q).q.free == buf.data.Length
    {
    }

    method PollWriteVectored(bufs: seq<seq<byte>>, max: nat, hdr: Option<seq<byte>>) returns (r: Poll<nat>)
      requires Valid() && Supplied(cur.at, hdr)
      requires var w := Clip(Concat(bufs), max);
               var q := Run(fmt, STOP, state, w, hdr);
               q.Ok? ==> q.taken == |w|
      modifies this`state, this`cur, buf, buf.data, io`clock, io`received
      ensures Valid()
      ensures !r.Ready? ==> state == old(state) && cur == old(cur) && Logical() == old(Logical())
      ensures var w := Clip(Concat(bufs), max);
              var q := Run(fmt, STOP, old(state), w, hdr);
              if q.Err? then r == Failed(Data(q.error)) && Now() == old(Now())
              else
                && HandedOver(WholeLength(bufs, max), |w|, old(Now()), r)
                && InOrder(w, old(buf.Free()), old(io.received), old(Logical()), old(io.clock), r)
      ensures old(io.received) <= io.received
      ensures r.Ready? ==>
        var w := Clip(Concat(bufs), max);
        && r.value <= |w|
        && cur == FollowRun(fmt, old(cur), w[..r.value], hdr)
        && Logical() == old(Logical()) + w[..r.value]
      ensures Blames(io.schedule, old(io.clock), io.clock, r)
    {
      hide Next, Run, FollowRun, GoodPhase, StateAt, Text, Concat, Handed, WholeLength, Buf.Buffered;
      var prefix := TakePrefix(bufs, max);
      BuffersBytes(prefix, Suffix([], []));
      BytesOfSlices(prefix);
      // The bytes must be valid before any of them is written.
      var next := TakeSlices(fmt, state, prefix.Buffers(), hdr);
      if next.Err? {
        return Failed(Data(next.error));
      }
      NotDone(fmt, cur.at, PrefixBytes(prefix), hdr);
      assert next.taken == |PrefixBytes(prefix)|;
      ghost var before := Logical();
      var written :- Transfer(prefix);
      Advance(prefix, next, written, hdr, before);
      r := Ready(written);
    }

    /** How `k` bytes were handed over, the first `whole` of them in whole slices. */
    ghost predicate HandedOver(whole: nat, k: nat, q: Queue, r: Poll<nat>)
      reads buf, io
      requires buf.Valid()
    {
      whole <= k && Outcome(r, Now()) == Handed(Chan(), q, whole, k - whole)
    }

    /** Moves the automaton over the bytes that were really accepted. */
    method Advance(prefix: Prefix, next: Step, written: nat, hdr: Option<seq<byte>>, ghost before: seq<byte>)
      requires buf.Valid() && buf.data.Length >= BLOCK_SIZE
      requires WellFormed(fmt, cur) && state == StateAt(fmt, cur.at) && Supplied(cur.at, hdr)
      requires next == Run(fmt, STOP, state, PrefixBytes(prefix), hdr)
      requires next.Ok? && next.taken == |PrefixBytes(prefix)|
      requires written <= |PrefixBytes(prefix)|
      requires Text(cur) == before && Logical() == before + PrefixBytes(prefix)[..written]
      requires io.closed.None?
      modifies this`state, this`cur
      ensures Valid()
      ensures cur == FollowRun(fmt, old(cur), PrefixBytes(prefix)[..written], hdr)
      ensures Text(cur) == before + PrefixBytes(prefix)[..written]
    {
      hide Next, Run, FollowRun, GoodPhase, Text, Buf.Buffered, StateAt, Concat;
      ghost var w := PrefixBytes(prefix);
      ReplayIsSafe(fmt, state, w, written, hdr);
      RunTracks(fmt, cur, w[..written], hdr);
      cur := FollowRun(fmt, cur, w[..written], hdr);
      if written == |PrefixBytes(prefix)| {
        assert w[..written] == w;
        state := next.state;
      } else {
        var taken, _ := PrefixSplitAtByteOffset(prefix, written);
        BuffersBytes(taken, Suffix([], []));
        var replay := TakeSlices(fmt, state, taken.Buffers(), hdr);
        assert replay.Ok? && replay.taken == written;
        state := replay.state;
      }
    }

    method PollWriteData(data: seq<byte>, hdr: Option<seq<byte>>) returns (r: Poll<nat>)
      requires Valid() && Supplied(cur.at, hdr)
      requires var q := Run(fmt, STOP, state, data, hdr); q.Ok? && q.taken == |data|
      modifies this`state, this`cur, buf, buf.data, io`clock, io`received
      ensures Valid()
      ensures !r.Ready? ==> state == old(state) && cur == old(cur) && Logical() == old(Logical())
      ensures r.Ready? ==>
        && r.value <= |data|
        && cur == FollowRun(fmt, old(cur), data[..r.value], hdr)
        && Logical() == old(Logical()) + data[..r.value]
      ensures HandedOver(|data|, |data|, old(Now()), r) && old(io.received) <= io.received
      ensures InOrder(data, old(buf.Free()), old(io.received), old(Logical()), old(io.clock), r)
      ensures r.Failed? ==> r.error == Device || (r.error == WriteZero && !NeverZero(io.schedule))
      ensures Blames(io.schedule, old(io.clock), io.clock, r)
    {
      hide Next, Run, FollowRun, GoodPhase, StateAt, Text, Handed, WholeLength, Buf.Buffered;
      var slices := [data];
      assert Concat(slices) == data + [] == data;
      assert Clip(Concat(slices), |data|) == data;
      WholeOfAll(slices, |data|);
      HandedFails(Chan(), Now(), |data|, 0);
      r := PollWriteVectored(slices, |data|, hdr);
    }

    /** Writes the header from `pos` on. */
    method WriteHeaderFrom(header: seq<byte>, pos: nat) returns (r: Poll<nat>)
      requires Valid() && ZeroPadded(cur)
      requires IsHeader(header) && (cur.at.Between? ==> CanAdd(header))
      requires Adding(cur.at, header) && !cur.at.Headed? && pos == HeadLength(cur.at)
      modifies this`state, this`cur, buf, buf.data, io`clock, io`received
      ensures Valid() && ZeroPadded(cur) && cur.done == old(cur).done
      ensures old(Logical()) <= Logical()
      ensures !r.Ready? ==> cur == old(cur)
      ensures r.Ready? && r.value > 0 ==>
        !cur.at.Between? && Adding(cur.at, header) && HeaderLeft(cur.at) < HeaderLeft(old(cur).at)
      ensures r == Ready(BLOCK_SIZE - pos) ==> cur.at == Headed(header)
      ensures r.Ready? && !Passes(BLOCK_SIZE) && pos == 0 ==> r == Ready(BLOCK_SIZE)
      ensures
        HeaderOutcome(Chan(), old(Now()), HeaderDue(old(cur).at)) ==
          if !r.Ready? then Outcome(r.PropagateFailure(), Now())
          else if r.value == 0 then Outcome(Failed(WriteZero), Now())
          else HeaderOutcome(Chan(), Now(), HeaderDue(cur.at))
      ensures r == Ready(0) ==>
        && !NeverZero(io.schedule) && Blames<()>(io.schedule, old(io.clock), io.clock, Failed(WriteZero))
        && if old(cur).at.Head? then cur == old(cur) else cur.at == Head([])
      ensures r.Failed? ==> r.error == Device || (r.error == WriteZero && !NeverZero(io.schedule))
      ensures Blames(io.schedule, old(io.clock), io.clock, r)
    {
      hide Next, Run, FollowRun, GoodPhase, StateAt, Text, AllZero, Handed, Buf.Buffered;
      hide HeaderTo, ZeroPadded, HeaderLeft;
      ghost var c := cur;
      StateOfPhase(fmt, c.at);
      HeaderPart(fmt, c, header, BLOCK_SIZE - pos);
      HandedFails(Chan(), Now(), BLOCK_SIZE - pos, 0);
      ghost var h := Handed(Chan(), Now(), BLOCK_SIZE - pos, 0);
      if h.answer == Ready(0) { NothingMoved(Chan(), Now(), BLOCK_SIZE - pos); }
      r := PollWriteData(header[pos..], Some(header));
      if r.Ready? {
        HeaderPart(fmt, c, header, r.value);
        HeaderProgress(c.at, header, r.value);
        StillZeroPadded(c, HeaderTo(c.at, header, r.value));
      }
    }

    /** The same; a write that takes nothing is an error. */
    method WriteMoreHeader(header: seq<byte>, pos: nat) returns (r: Poll<()>)
      requires Valid() && ZeroPadded(cur)
      requires IsHeader(header) && (cur.at.Between? ==> CanAdd(header))
      requires Adding(cur.at, header) && !cur.at.Headed? && pos == HeadLength(cur.at)
      modifies this`state, this`cur, buf, buf.data, io`clock, io`received
      ensures Valid() && ZeroPadded(cur) && cur.done == old(cur).done
      ensures old(Logical()) <= Logical()
      ensures r.Ready? ==>
        !cur.at.Between? && Adding(cur.at, header) && HeaderLeft(cur.at) < HeaderLeft(old(cur).at)
      ensures !r.Ready? ==> cur == old(cur) || (cur.at == Head([]) && r == Failed(WriteZero))
      ensures HeaderOutcome(Chan(), old(Now()), HeaderDue(old(cur).at))
        == if r.Ready? then HeaderOutcome(Chan(), Now(), HeaderDue(cur.at)) else Outcome(r, Now())
      ensures r.Failed? ==> r.error == Device || (r.error == WriteZero && !NeverZero(io.schedule))
      ensures Blames(io.schedule, old(io.clock), io.clock, r)
    {
      hide GoodPhase, StateAt, Text, AllZero, HeaderOutcome, HeaderDue, ZeroPadded, HeaderLeft, NeverZero, Buf.Buffered;
      var n :- WriteHeaderFrom(header, pos);
      r := if n == 0 then Failed(WriteZero) else Ready(());
    }

    /** Moves past a complete header, if its size decodes. */
    method BeginData(header: seq<byte>) returns (r: Poll<()>)
      requires Valid() && ZeroPadded(cur) && cur.at == Headed(header)
      modifies this`state, this`cur
      ensures Valid() && ZeroPadded(cur)
      ensures r == if SizeOf(fmt, header).Some? then Ready(()) else Failed(Data(BadSize))
      ensures cur == if r.Ready? then old(cur).(at := Body(header, [])) else old(cur)
    {
      hide Next, GoodPhase, StateAt, Text, Buf.Buffered;
      HeaderMarker(fmt, cur, header);
      var next := Next(fmt, state, [], Some(header));
      if next.Err? {
        return Failed(Data(next.error));
      }
      state := next.state;
      cur := cur.(at := Body(header, []));
      r := Ready(());
    }

    /** Writes what is left of the header. Resumable after Pending and after an I/O failure. */
    method PollWriteHeader(header: seq<byte>) returns (r: Poll<()>)
      requires Valid() && ZeroPadded(cur)
      requires Adding(cur.at, header) || InEntry(cur.at)
      requires IsHeader(header) && (cur.at.Between? ==> CanAdd(header))
      modifies this`state, this`cur, buf, buf.data, io`clock, io`received
      ensures Valid() && ZeroPadded(cur)
      ensures old(Logical()) <= Logical()
      ensures r.Ready? ==> cur == Cursor(old(cur).done, Body(header, [])) && Adding(old(cur).at, header)
      ensures InEntry(old(cur).at) <==> r.Failed? && r.error == OverlappingEntry
      ensures InEntry(old(cur).at) ==> cur == old(cur) && Logical() == old(Logical())
      ensures !r.Ready? && !InEntry(old(cur).at) ==>
        && cur.done == old(cur).done
        && (Adding(cur.at, header) || (cur.at == Head([]) && r == Failed(WriteZero)))
        && (cur.at.Between? ==> cur == old(cur))
      ensures r == Failed(Data(BadSize)) <==> cur.at == Headed(header) && SizeOf(fmt, header).None?
      ensures r.Failed? ==>
        || r.error == Device || r.error == OverlappingEntry || r.error == Data(BadSize)
        || (r.error == WriteZero && !NeverZero(io.schedule))
      ensures Outcome(r, Now()) == AddOutcome(fmt, Chan(), old(Now()), old(cur).at, header)
      ensures Blames(io.schedule, old(io.clock), io.clock, r)
    {
      hide Next, Run, FollowRun, GoodPhase, StateAt, Text, AllZero, IsHeader, ZeroPadded, NeverZero, Buf.Buffered,
        WellFormedEntries, HeaderLeft, Handed, Chan, HeaderOutcome, HeaderDue;
      ghost var h := HeaderOutcome(Chan(), Now(), HeaderDue(cur.at));
      while true
        invariant old(io.clock) <= io.clock
        invariant Valid() && ZeroPadded(cur) && cur.done == old(cur).done && old(Logical()) <= Logical()
        invariant if InEntry(old(cur).at) then cur == old(cur) && Logical() == old(Logical())
                  else Adding(cur.at, header)
        invariant cur.at.Between? ==> cur == old(cur)
        invariant if InEntry(old(cur).at) then Now() == old(Now())
                  else HeaderOutcome(Chan(), Now(), HeaderDue(cur.at)) == h
        decreases HeaderLeft(cur.at)
      {
        StateOfPhase(fmt, cur.at);
        match state
        case ExpectingHeader =>
          var _ :- WriteMoreHeader(header, 0);
        case ReceivingHeader(rem, false) =>
          var _ :- WriteMoreHeader(header, BLOCK_SIZE - rem);
        case ReceivedHeader =>
          NoHeaderLeft(cur.at, Chan(), Now());
          r := BeginData(header);
          return;
        case ReceivingData(_) | ReceivedData | AligningData(_) | AlignedData =>
          return Failed(OverlappingEntry);
        case _ =>
          assert false;
      }
    }

    /** Writes all of the alignment that is due, at once. */
    method WritePadding(header: seq<byte>, rem: nat) returns (r: Poll<nat>)
      requires Valid() && ZeroPadded(cur)
      requires cur.at.Pad? && cur.at.h == header && rem == PadLen(|cur.at.d|) - |cur.at.z|
      modifies this`state, this`cur, buf, buf.data, io`clock, io`received
      ensures Valid() && ZeroPadded(cur)
      ensures old(Logical()) <= Logical()
      ensures r.Ready? ==> cur.at.Padded? && cur.at.h == header && Finished(cur) == Finished(old(cur))
      ensures !r.Ready? ==> cur == old(cur) && rem > buf.Free() == old(buf.Free())
      ensures Outcome(r, Now()) == Handed(Chan(), old(Now()), rem, 0) && old(io.received) <= io.received
      ensures r.Failed? ==> r.error == Device || (r.error == WriteZero && !NeverZero(io.schedule))
      ensures Blames(io.schedule, old(io.clock), io.clock, r)
    {
      hide Next, Run, FollowRun, GoodPhase, StateAt, Text, Finished, ZeroPadded, PadLen, AllZero, Drained, Buf.Buffered;
      AllPadding(fmt, cur);
      HandedFails(Chan(), Now(), rem, 0);
      r := PollWriteData(Zeros(rem), Some(header));
      if r.Ready? {
        assert Zeros(rem)[..r.value] == Zeros(rem);
      }
    }

    /** Writes the alignment of an entry whose data is complete. Resumable. */
    method PollFinishEntry(header: seq<byte>) returns (r: Poll<()>)
      requires Valid() && ZeroPadded(cur)
      requires InFinish(cur.at, header)
      modifies this`state, this`cur, buf, buf.data, io`clock, io`received
      ensures Valid() && ZeroPadded(cur)
      ensures old(Logical()) <= Logical()
      ensures r.Ready? ==> cur == Finished(old(cur))
      ensures !r.Ready? ==>
        cur == AwaitingPad(old(cur)) && cur.at.Pad? && PadDue(cur) > buf.Free() == old(buf.Free())
      ensures Outcome(r, Now()) == Plain(Handed(Chan(), old(Now()), PadDue(old(cur)), 0))
      ensures old(io.received) <= io.received
      ensures r.Failed? ==> r.error == Device || (r.error == WriteZero && !NeverZero(io.schedule))
      ensures Blames(io.schedule, old(io.clock), io.clock, r)
    {
      hide Next, Run, FollowRun, GoodPhase, StateAt, Text, Handed, PadLen, ZeroPadded, Buf.Buffered,
        WellFormedEntries, NeverZero, AllZero, PadDue, Finished, AwaitingPad;
      ghost var outcome := Plain(Handed(Chan(), Now(), PadDue(cur), 0));
      NothingHanded(Now());
      PadDues(fmt, cur);
      while true
        invariant old(io.clock) <= io.clock
        invariant Valid() && ZeroPadded(cur) && old(Logical()) <= Logical() && old(io.received) <= io.received
        invariant InFinish(cur.at, header) && Finished(cur) == Finished(old(cur))
        invariant cur.at.BodyDone? || cur.at.Pad? ==>
          AwaitingPad(cur) == AwaitingPad(old(cur)) && PadDue(cur) == PadDue(old(cur)) && Now() == old(Now())
        invariant cur.at.Padded? || cur.at.Between? ==> Outcome(Ready(()), Now()) == outcome
        decreases FinishRank(cur.at)
      {
        StateOfPhase(fmt, cur.at);
        FinishMarkers(fmt, cur);
        PadDues(fmt, cur);
        match state
        case ReceivedData =>
          var next := Next(fmt, state, [], Some(header));
          state := next.state;
          cur := cur.(at := Pad(header, cur.at.d, []));
        case AligningData(rem) =>
          var n :- WritePadding(header, rem);
        case AlignedData =>
          var next := Next(fmt, state, [], None);
          state := next.state;
          cur := Finished(cur);
          return Ready(());
        case ExpectingHeader =>
          return Ready(());
        case _ =>
          assert false;
      }
    }

    lemma NothingHanded(q: Queue)
      requires buf.data.Length > 0
      ensures Handed(Chan(), q, 0, 0) == Outcome(Ready(0), q)
    {
    }

    /**
      Writes entry data. Bytes beyond the size of the entry are not taken. When the data becomes
      complete the alignment is written too; if that has to wait, Pending is reported although the
      bytes were taken, and if it fails the failure is not reported. The outcome is a function of
      the schedule and of the queue at the start.
    */
    method PollWriteEntry(bufs: seq<seq<byte>>, header: seq<byte>) returns (r: Poll<nat>)
      requires Valid() && ZeroPadded(cur)
      requires cur.at.Body? && cur.at.h == header
      modifies this`state, this`cur, buf, buf.data, io`clock, io`received
      ensures Valid() && ZeroPadded(cur)
      ensures old(Logical()) <= Logical()
      ensures
        var rem := SizeOf(fmt, header).value - |old(cur).at.d|;
        var w := Clip(Concat(bufs), rem);
        && EntryWritten(old(cur), w, r)
        && EntryDecided(old(cur), w, WholeLength(bufs, rem), old(Now()), r)
        && (r.Ready? ==> EntryInOrder(w, old(buf.Free()), old(Logical()), r.value))
      ensures r == Ready(0) && NeverZero(io.schedule) ==>
        var rem := SizeOf(fmt, header).value - |old(cur).at.d|;
        Clip(Concat(bufs), rem) == [] || (CutsFirst(bufs, rem) && Passes(rem))
      ensures Blames(io.schedule, old(io.clock), io.clock, r)
    {
      hide Next, Run, FollowRun, GoodPhase, StateAt, Text, Concat, Handed, PadLen, WholeLength,
        ZeroPadded, NeverZero, Finished, Buf.Buffered;
      StateOfPhase(fmt, cur.at);
      var rem := state.drem;
      ghost var q := Now();
      var n :- WriteBody(bufs, header, rem);
      if n == rem {
        assert state == ReceivedData by { StateOfPhase(fmt, cur.at); }
        HandedFails(Chan(), Now(), PadLen(|cur.at.d|), 0);
        var res := PollFinishEntry(header);
        if res.Pending? {
          return Pending;
        }
      }
      r := Ready(n);
    }

    /** How many bytes are taken, and what has reached the sink before them. */
    ghost predicate EntryInOrder(w: seq<byte>, room: nat, logical: seq<byte>, n: nat)
      reads io
    {
      if Passes(|w|) then n <= |w| && logical + w[..n] <= io.received
      else if |w| <= room then n == |w|
      else n == Min(|w|, buf.data.Length) && logical <= io.received
    }

    /** Writes entry data, and leaves the alignment to be written. */
    method WriteBody(bufs: seq<seq<byte>>, header: seq<byte>, rem: nat) returns (r: Poll<nat>)
      requires Valid() && ZeroPadded(cur)
      requires cur.at.Body? && cur.at.h == header && state == ReceivingData(rem)
      requires SizeOf(fmt, header) == Some(|cur.at.d| + rem)
      modifies this`state, this`cur, buf, buf.data, io`clock, io`received
      ensures Valid() && ZeroPadded(cur)
      ensures old(Logical()) <= Logical()
      ensures !r.Ready? ==> cur == old(cur)
      ensures var w := Clip(Concat(bufs), rem);
              && (r.Ready? ==>
                    && r.value <= |w|
                    && cur == old(cur).(at := BodyPhase(fmt, header, old(cur).at.d + w[..r.value]))
                    && (r.value == |w| ==> w[..r.value] == w))
              && HandedOver(WholeLength(bufs, rem), |w|, old(Now()), r)
              && InOrder(w, old(buf.Free()), old(io.received), old(Logical()), old(io.clock), r)
      ensures r == Ready(0) && NeverZero(io.schedule) ==>
        Clip(Concat(bufs), rem) == [] || (CutsFirst(bufs, rem) && Passes(rem))
      ensures r.Failed? ==> r.error == Device || (r.error == WriteZero && !NeverZero(io.schedule))
      ensures Blames(io.schedule, old(io.clock), io.clock, r)
    {
      hide Next, Run, FollowRun, GoodPhase, StateAt, Text, Concat, Handed, WholeLength, CutsFirst, Buf.Buffered;
      ghost var w, c, q := Clip(Concat(bufs), rem), cur, Now();
      ghost var whole := WholeLength(bufs, rem);
      BodyPart(fmt, c, w);
      r := PollWriteVectored(bufs, rem, Some(header));
      HandedFails(Chan(), q, whole, |w| - whole);
      if r.Ready? {
        BodyPart(fmt, c, w[..r.value]);
        if r.value == 0 && NeverZero(io.schedule) && w != [] {
          NothingTaken(Chan(), q, whole, |w| - whole);
          NothingWhole(bufs, rem);
        }
      }
    }

    /** What a write of `w`, which does not exceed the entry, did when it was polled at `c`. */
    ghost predicate EntryWritten(c: Cursor, w: seq<byte>, r: Poll<nat>)
      reads this`cur, buf
      requires c.at.Body? && buf.Valid()
    {
      var complete := SizeOf(fmt, c.at.h) == Some(|c.at.d| + |w|);
      match r
      case Ready(n) =>
        && n <= |w|
        && if complete && n == |w| then
             cur == Finished(c.(at := BodyDone(c.at.h, c.at.d + w))) || AlignmentWaits(c, c.at.d + w)
           else
             cur == c.(at := Body(c.at.h, c.at.d + w[..n]))
      case Pending => cur == c || (complete && AlignmentWaits(c, c.at.d + w))
      case Failed(e) => cur == c && (e == Device || (e == WriteZero && !NeverZero(io.schedule)))
    }

    /**
      The outcome of a write that offered `w`, the first `whole` bytes of it in whole slices, is
      decided by the schedule and the queue at the start; and so is whether the alignment was left
      waiting behind bytes that were taken.
    */
    ghost predicate EntryDecided(c: Cursor, w: seq<byte>, whole: nat, q: Queue, r: Poll<nat>)
      reads this`cur, buf, io
      requires c.at.Body? && buf.Valid()
    {
      var completes, pad := SizeOf(fmt, c.at.h) == Some(|c.at.d| + |w|), PadLen(|c.at.d| + |w|);
      && whole <= |w|
      && Outcome(r, Now()) == EntryOutcome(Chan(), q, whole, |w| - whole, completes, pad)
      && (completes ==>
            match AlignmentAnswer(Chan(), q, whole, |w| - whole, pad)
            case None => (!r.Ready? ==> cur == c) && (r.Ready? ==> r.value < |w|)
            case Some(Ready(_)) => r == Ready(|w|) && cur == Finished(c.(at := BodyDone(c.at.h, c.at.d + w)))
            case Some(Pending) => r == Pending && AlignmentWaits(c, c.at.d + w)
            case Some(Failed(_)) => r == Ready(|w|) && AlignmentWaits(c, c.at.d + w))
    }

    /** All data of the entry is in the stream, but its alignment did not fit the buffer. */
    ghost predicate AlignmentWaits(c: Cursor, data: seq<byte>)
      reads this`cur, buf
      requires c.at.Body? && buf.Valid()
    {
      cur == c.(at := Pad(c.at.h, data, [])) && PadLen(|data|) > buf.Free()
    }

    /** Sends what is buffered, then flushes the sink itself. */
    method PollFlush() returns (r: Poll<()>)
      requires Valid()
      modifies buf, io`clock, io`received, io`flushed
      ensures Valid() && Logical() == old(Logical())
      ensures r.Ready? ==> buf.Buffered() == [] && buf.Free() == buf.data.Length && io.received == Text(cur)
      ensures r.Ready? ==> io.flushed == Some(|io.received|)
      ensures !r.Ready? ==> io.flushed == old(io.flushed)
      ensures r.Failed? ==> r.error == Device || (r.error == WriteZero && !NeverZero(io.schedule))
      ensures Outcome(r, Now()) == Sent(Chan(), old(Now()))
      ensures old(Now()).queued == 0 ==> LastEvent(old(io.clock), r)
      ensures Blames(io.schedule, old(io.clock), io.clock, r)
    {
      hide Text, GoodPhase, StateAt, Drained, Buf.Buffered;
      if Now().queued == 0 { NothingQueued(Now()); }
      var _ :- PollFlushBuffered();
      Emptied(old(Now()));
      assert io.received + [] == io.received;
      r := io.PollFlush();
    }

    /** Finishes an entry explicitly, and flushes. */
    method PollShutdown(header: seq<byte>) returns (r: Poll<()>)
      requires Valid() && ZeroPadded(cur) && InFinish(cur.at, header)
      modifies this`state, this`cur, buf, buf.data, io`clock, io`received, io`flushed
      ensures Valid() && ZeroPadded(cur)
      ensures old(Logical()) <= Logical()
      ensures cur == Finished(old(cur)) || (!r.Ready? && cur == AwaitingPad(old(cur)) && cur.at.Pad?)
      ensures r.Ready? ==> buf.Buffered() == [] && io.received == Text(cur) && io.flushed == Some(|io.received|)
      ensures !r.Ready? ==> io.flushed == old(io.flushed)
      ensures Outcome(r, Now()) == Shut(Chan(), old(Now()), PadDue(old(cur)))
      ensures old(cur).at.Between? && old(Now()).queued == 0 ==> LastEvent(old(io.clock), r)
      ensures r.Failed? ==> r.error == Device || (r.error == WriteZero && !NeverZero(io.schedule))
      ensures Blames(io.schedule, old(io.clock), io.clock, r)
    {
      hide Text, GoodPhase, StateAt, Handed, Sent, Buf.Buffered;
      if cur.at.Between? { NothingHanded(Now()); }
      var _ :- PollFinishEntry(header);
      r := PollFlush();
    }

    /** Writes some of the zeros that are due. */
    method WriteZeros(due: nat) returns (r: Poll<nat>)
      requires Valid() && ZeroPadded(cur) && Finishing(cur.at) && !cur.at.Done?
      requires due == ZerosOffered(ZerosMissing(cur.at)) > 0
      modifies this`state, this`cur, buf, buf.data, io`clock, io`received
      ensures Valid() && ZeroPadded(cur) && Finishing(cur.at) && cur.done == old(cur).done
      ensures old(Logical()) <= Logical()
      ensures Outcome(r, Now()) == Handed(Chan(), old(Now()), due, 0)
      ensures r.Ready? ==> r.value <= due && ZerosMissing(cur.at) == ZerosMissing(old(cur).at) - r.value
      ensures !r.Ready? ==> cur == old(cur)
      ensures r.Failed? ==> r.error == Device || (r.error == WriteZero && !NeverZero(io.schedule))
      ensures Blames(io.schedule, old(io.clock), io.clock, r)
    {
      hide Next, Run, FollowRun, GoodPhase, StateAt, Text, Handed, Buf.Buffered;
      ghost var c := cur;
      TrailerPart(fmt, c, due);
      r := PollWriteData(Zeros(due), None);
      if r.Ready? {
        ZeroRun(Zeros(due)[..r.value]);
        TrailerPart(fmt, c, r.value);
      }
    }

    /** One round of the loop of `finish`. None if the loop goes on. */
    method FinishOnce() returns (r: Option<Poll<()>>)
      requires Valid() && ZeroPadded(cur) && Finishing(cur.at)
      modifies this`state, this`cur, buf, buf.data, io`clock, io`received, io`closed
      ensures Valid() && ZeroPadded(cur) && Finishing(cur.at) && cur.done == old(cur).done
      ensures old(Logical()) <= Logical()
      ensures FinishRound(Chan(), old(Now()), ZerosMissing(old(cur).at))
        == if r.Some? then Answers(Outcome(r.value, Now())) else GoesOn(Now(), ZerosMissing(cur.at))
      ensures r.Some? && r.value.Ready? ==>
        cur.at.Done? && buf.Buffered() == [] && io.received == Archive(cur.done) && io.closed == Some(|io.received|)
      ensures r.None? || !r.value.Ready? ==> io.closed == old(io.closed)
      ensures r.Some? && r.value.Failed? ==>
        r.value.error == Device || (r.value.error == WriteZero && !NeverZero(io.schedule))
      ensures old(cur).at.Done? && old(buf.Buffered()) == [] ==> r.Some? && LastEvent(old(io.clock), r.value)
      ensures if r.Some? then Blames(io.schedule, old(io.clock), io.clock, r.value) else old(io.clock) <= io.clock
    {
      hide Next, Run, FollowRun, GoodPhase, StateAt, Text, Flushed, Handed, ZeroPadded, AllZero, Finishing, NeverZero,
        ZerosOffered, Buf.Buffered;
      FinishingStates(fmt, cur.at);
      var sent;
      match state {
        case ReceivedEof =>
          TextOfArchive(cur);
          if buf.Buffered() == [] { NothingQueued(Now()); }
          var sentAll := PollFlushBuffered();
          if !sentAll.Ready? {
            return Some(sentAll);
          }
          Emptied(old(Now()));
          assert io.received + [] == io.received;
          var closed := io.PollShutdown();
          return Some(closed);
        case ExpectingHeader =>
          sent := WriteZeros(BLOCK_SIZE);
        case ReceivingHeader(rem, true) =>
          sent := WriteZeros(rem);
        case ReceivingEof(rem) =>
          sent := WriteZeros(rem);
        case _ =>
          assert false;
      }
      r := if sent.Ready? then None else Some(sent.PropagateFailure());
    }

    /** The answer is that of the sink itself, at one event. */
    ghost predicate LastEvent(clock: nat, r: Poll<()>)
      reads io`clock
    {
      && io.clock == clock + 1
      && match EventAt(io.schedule, clock)
         case Move(_) => r == Ready(())
         case NotReady => r == Pending
         case Failure => r == Failed(Device)
    }

    /** The loop of `finish` ends on this sink, from here. */
    ghost predicate CanFinish()
      reads this, buf, io
      requires buf.Valid()
    {
      FinishEnds(Chan(), Now(), ZerosMissing(cur.at))
    }

    /** Writes the two zero blocks, sends everything that is buffered, and shuts the sink down. */
    method PollFinish() returns (r: Poll<()>)
      requires Valid() && ZeroPadded(cur) && Finishing(cur.at) && CanFinish()
      modifies this`state, this`cur, buf, buf.data, io`clock, io`received, io`closed
      ensures Valid() && ZeroPadded(cur) && Finishing(cur.at) && cur.done == old(cur).done
      ensures old(Logical()) <= Logical()
      ensures exists n: nat ::
        FinishRounds(Chan(), old(Now()), ZerosMissing(old(cur).at), n) == Some(Outcome(r, Now()))
      ensures r.Ready? ==>
        cur.at.Done? && buf.Buffered() == [] && io.received == Archive(cur.done) && io.closed == Some(|io.received|)
      ensures !r.Ready? ==> io.closed == old(io.closed)
      ensures old(cur).at.Done? && old(buf.Buffered()) == [] ==> LastEvent(old(io.clock), r)
      ensures r.Failed? ==> r.error == Device || (r.error == WriteZero && !NeverZero(io.schedule))
      ensures Blames(io.schedule, old(io.clock), io.clock, r)
    {
      hide FinishRound, ZeroPadded, Finishing, NeverZero, Archive, Text, GoodPhase, StateAt, Buf.Buffered;
      ghost var q, left := Now(), ZerosMissing(cur.at);
      ghost var n: nat :| FinishRounds(Chan(), q, left, n).Some?;
      ghost var all := n;
      while true
        invariant Valid() && old(io.clock) <= io.clock && old(Logical()) <= Logical()
        invariant ZeroPadded(cur) && Finishing(cur.at) && cur.done == old(cur).done && io.closed == old(io.closed)
        invariant old(cur).at.Done? && old(buf.Buffered()) == [] ==>
          cur == old(cur) && buf.Buffered() == [] && io.clock == old(io.clock)
        invariant FinishRounds(Chan(), Now(), ZerosMissing(cur.at), n) == FinishRounds(Chan(), q, left, all)
        invariant FinishRounds(Chan(), q, left, all).Some?
        decreases n
      {
        var round := FinishOnce();
        if round.Some? {
          return round.value;
        }
        n := n - 1;
      }
    }

    /** The same loop, given up after `n` rounds. None if it has not ended by then. */
    method FinishFor(n: nat) returns (r: Option<Poll<()>>)
      requires Valid() && ZeroPadded(cur) && Finishing(cur.at)
      modifies this`state, this`cur, buf, buf.data, io`clock, io`received, io`closed
      ensures Valid() && ZeroPadded(cur) && Finishing(cur.at) && cur.done == old(cur).done
      ensures old(Logical()) <= Logical()
      ensures FinishRounds(Chan(), old(Now()), ZerosMissing(old(cur).at), n)
        == if r.Some? then Some(Outcome(r.value, Now())) else None
      ensures old(cur).at.Done? && old(buf.Buffered()) == [] && n > 0 ==> r.Some? && LastEvent(old(io.clock), r.value)
      ensures r.Some? && r.value.Ready? ==>
        cur.at.Done? && buf.Buffered() == [] && io.received == Archive(cur.done) && io.closed == Some(|io.received|)
      ensures r.None? || !r.value.Ready? ==> io.closed == old(io.closed)
      ensures r.Some? && r.value.Failed? ==>
        r.value.error == Device || (r.value.error == WriteZero && !NeverZero(io.schedule))
      ensures if r.Some? then Blames(io.schedule, old(io.clock), io.clock, r.value) else old(io.clock) <= io.clock
    {
      hide FinishRound, ZeroPadded, Finishing, NeverZero, Archive, Text, GoodPhase, StateAt, Buf.Buffered;
      for i := 0 to n
        invariant Valid() && old(io.clock) <= io.clock && old(Logical()) <= Logical()
        invariant ZeroPadded(cur) && Finishing(cur.at) && cur.done == old(cur).done && io.closed == old(io.closed)
        invariant old(cur).at.Done? && old(buf.Buffered()) == [] ==>
          cur == old(cur) && buf.Buffered() == [] && io.clock == old(io.clock) && i == 0
        invariant FinishRounds(Chan(), old(Now()), ZerosMissing(old(cur).at), n)
          == FinishRounds(Chan(), Now(), ZerosMissing(cur.at), n - i)
      {
        var round := FinishOnce();
        if round.Some? {
          return round;
        }
      }
      r := None;
    }
  }
}
