/** The peek-and-commit read engine (src/read/mod.rs). */
module Reader {
  import opened Bytes
  import opened Format
  import opened Automaton
  import opened Position
  import opened Buffer
  import opened Io
  import opened ReaderSteps

  class ArchiveReader {
    const fmt: Format
    const buf: Buf
    const io: Source
    var state: State
    /** The stream read so far, entry by entry. */
    ghost var cur: Cursor

    /** The bytes pulled from the source and not yet consumed are the ones buffered. */
    ghost predicate BufferValid()
      reads buf, buf.data, io
    {
      && buf.Valid() && buf.data.Length > 0 && IsBlocks(buf.data.Length)
      // A read of nothing means the end of the data.
      && NeverZero(io.schedule)
      && |buf.Buffered()| <= io.off <= |io.data|
      && buf.Buffered() == io.data[Offset()..io.off]
      // An empty buffered region has been reset, so a refill is offered the whole capacity.
      && (buf.Buffered() == [] ==> buf.cap == 0)
    }

    /** Bytes pulled minus bytes buffered. */
    ghost function Offset(): nat
      reads buf, buf.data, io
      requires buf.Valid() && |buf.Buffered()| <= io.off
    {
      io.off - |buf.Buffered()|
    }

    /** What is left of the data. */
    ghost function Left(): nat
      reads buf, buf.data, io
    {
      if buf.Valid() && |buf.Buffered()| <= io.off <= |io.data| then |io.data| - Offset() else 0
    }

    /** Synchronisation: the state is the automaton's state at the offset. */
    ghost predicate Valid()
      reads this, buf, buf.data, io
    {
      && BufferValid()
      && WellFormed(fmt, cur) && Settled(cur.at) && state == StateAt(fmt, cur.at)
      && Text(cur) == io.data[..Offset()]
      && Checked(fmt, cur)
    }

    /** The source delivers whole blocks, so no refill splits a header. */
    ghost predicate Aligned()
      reads this, buf, io
    {
      && WholeBlocks(io.schedule)
      && (IsBlocks(io.off) || io.off == |io.data|)
      && (cur.at.Head? && cur.at.x != [] ==> buf.pos == buf.cap)
    }

    constructor (fmt: Format, capacity: nat, io: Source)
      requires capacity > 0 && io.off == 0 && NeverZero(io.schedule)
      ensures Valid() && fresh(buf) && fresh(buf.data)
      ensures WholeBlocks(io.schedule) ==> Aligned()
      ensures this.fmt == fmt && this.io == io && cur == START
      ensures buf.data.Length == capacity * BLOCK_SIZE && buf.Buffered() == []
    {
      this.fmt, this.io := fmt, io;
      buf := new Buf(capacity * BLOCK_SIZE);
      state := ExpectingHeader;
      cur := START;
      new;
      hide WholeBlocks, NeverZero, IsBlocks, Text, WellFormed, StateAt, Buf.Buffered;
      BlocksMany(capacity);
      BlocksMany(0);
      AtStart(fmt);
      EmptySlices(io.data);
    }

    /** An empty buffer was offered to the source in full, and any other was left alone. */
    ghost predicate Refilled(clock: nat, off: nat, buffered: nat)
      reads io
    {
      if buffered > 0 then io.clock == clock && io.off == off
      else
        && off <= |io.data|
        && var r := Answer(EventAt(io.schedule, clock), Min(buf.data.Length, |io.data| - off));
           io.clock == clock + 1 && io.off == off + if r.Ready? then r.value else 0
    }

    /** How the header at `b` will be split, if it is not complete yet. */
    ghost function SplitAt(b: nat): Option<Split>
      reads this`cur, buf, buf.data, io
      requires BufferValid()
    {
      HeaderSplit(io.schedule, io.clock, io.off, buf.data.Length, |io.data|, b, HeadLength(cur.at))
    }

    /** Refills an empty buffer. A read of nothing can only mean the end of the source. */
    method PollFillBuf() returns (r: Poll<()>)
      requires BufferValid()
      modifies buf, buf.data, io`clock, io`off
      ensures BufferValid() && Offset() == old(Offset())
      ensures old(buf.Buffered()) != [] ==> r.Ready? && buf.Buffered() == old(buf.Buffered())
      ensures Refilled(old(io.clock), old(io.off), old(|buf.Buffered()|))
      ensures r.Ready? ==> buf.Buffered() != [] || state.IsTerminal()
      ensures !r.Ready? ==> buf.Buffered() == []
      ensures old(Aligned()) ==>
        && (IsBlocks(io.off) || io.off == |io.data|)
        && (old(buf.Buffered()) == [] && buf.Buffered() != [] ==> IsBlocks(Offset()))
      ensures r.Failed? ==>
        || r.error == Device
        || (r.error == UnexpectedEof && Offset() == |io.data| && !state.IsTerminal())
      ensures Blames(io.schedule, old(io.clock), io.clock, r)
    {
      hide IsBlocks, WholeBlocks, Buf.Buffered;
      var bytes := buf.BufferedBytes();
      if bytes == [] {
        if old(Aligned()) && EventAt(io.schedule, io.clock).Move? {
          PulledBlocks(io.schedule, io.clock, buf.data.Length, io.off, |io.data|);
        }
        var n :- io.PollRead(buf.data, buf.cap);
        if n == 0 {
          assert buf.cap < buf.data.Length;
          if !state.IsTerminal() {
            return Failed(UnexpectedEof);
          }
        }
        buf.CommitWrite(n);
      }
      r := Ready(());
    }

    /** Fills the buffer if it is empty, then looks one transition ahead without committing to it. */
    method PollNextState(hdr: Option<seq<byte>>) returns (r: Poll<(State, nat)>)
      requires Valid()
      modifies buf, buf.data, io`clock, io`off
      ensures Valid() && Offset() == old(Offset())
      ensures old(buf.Buffered()) != [] ==> buf.Buffered() == old(buf.Buffered())
      ensures Refilled(old(io.clock), old(io.off), old(|buf.Buffered()|))
      ensures r.Ready? ==>
        && Next(fmt, state, buf.Buffered(), hdr) == Ok(r.value.0, r.value.1)
        && (buf.Buffered() != [] || state.IsTerminal())
      ensures r.Failed? ==>
        || r.error == Device
        || (r.error == UnexpectedEof && Offset() == |io.data| && !state.IsTerminal())
        || (r.error.Data? && Next(fmt, state, buf.Buffered(), hdr) == Err(r.error.cause))
      ensures old(Aligned()) ==> Aligned()
      ensures !Decided(r) ==> buf.Buffered() == []
      ensures Blames(io.schedule, old(io.clock), io.clock, r)
    {
      hide Next, GoodPhase, StateAt, Text, WholeBlocks, NeverZero, IsBlocks, Buf.Buffered;
      if cur.at.Head? && cur.at.x != [] {
        PartialHeader(fmt, cur);
      }
      var _ :- PollFillBuf();
      var bytes := buf.BufferedBytes();
      var next := Next(fmt, state, bytes, hdr);
      if next.Err? {
        return Failed(Data(next.error));
      }
      r := Ready((next.state, next.taken));
    }

    /** Drops `amt` bytes from the buffer, and resets it once it is empty. */
    method Discard(amt: nat)
      requires BufferValid() && amt <= |buf.Buffered()|
      modifies buf
      ensures BufferValid()
      ensures buf.Buffered() == old(buf.Buffered())[amt..] && Offset() == old(Offset()) + amt
      ensures io.data[..Offset()] == old(io.data[..Offset()] + buf.Buffered()[..amt])
    {
      WindowShrinks(io.data, Offset(), amt, io.off);
      buf.CommitRead(amt);
      if buf.pos == buf.cap {
        buf.Clear();
      }
    }

    /** Replays the step over `w` and takes the eager transition that may follow. */
    method Replay(w: seq<byte>, hdr: Option<seq<byte>>) returns (settled: State, taken: nat, panics: bool)
      requires WellFormed(fmt, cur) && Settled(cur.at) && state == StateAt(fmt, cur.at)
      requires Consumes(fmt, cur, w, hdr)
      ensures taken == |w|
      ensures Committed(fmt, state, w, hdr) == if panics then None else Some(settled)
      ensures var next := Follow(fmt, cur, w);
              HeaderAtHand(next.at, hdr) ==>
                && (panics <==> next.at.Headed? && SizeOf(fmt, next.at.h).None?)
                && (!panics ==>
                      && WellFormed(fmt, Settle(next)) && Settled(Settle(next).at)
                      && settled == StateAt(fmt, Settle(next).at)
                      && Text(Settle(next)) == Text(cur) + w)
    {
      hide Next, Run, GoodPhase, StateAt, Text, Follow, Eager, HeaderAtHand, IsBlocks, NeverZero, WholeBlocks,
        Buf.Buffered;
      var slices := [w];
      assert Concat(slices) == w + [] == w;
      RunOfOneStep(fmt, cur, w, hdr);
      var q := TakeSlices(fmt, state, slices, hdr);
      assert q.Ok?;
      settled, taken, panics := q.state, q.taken, false;
      if Eager(settled) {
        var eager := Next(fmt, settled, [], hdr);
        if eager.Err? {
          panics := true;
        } else {
          settled := eager.state;
        }
      }
      if HeaderAtHand(Follow(fmt, cur, w).at, hdr) {
        CommittedTracks(fmt, cur, w, hdr);
      }
    }

    /**
      Commits to `amt` bytes of one transition. `panics` reports that the eager transition, which
      is unwrapped, has failed. With the right header synchronisation is kept.
    */
    method Consume(amt: nat, hdr: Option<seq<byte>>) returns (panics: bool)
      requires Valid() && amt <= |buf.Buffered()|
      requires Consumes(fmt, cur, buf.Buffered()[..amt], hdr)
      requires cur.at.Head? ==> amt == Min(BLOCK_SIZE - |cur.at.x|, |buf.Buffered()|)
      modifies this`state, this`cur, buf
      ensures BufferValid()
      ensures Committed(fmt, old(state), old(buf.Buffered()[..amt]), hdr) == if panics then None else Some(state)
      ensures panics ==> Valid() && cur == old(cur) && buf.Buffered() == old(buf.Buffered())
      ensures !panics ==> buf.Buffered() == old(buf.Buffered())[amt..] && Offset() == old(Offset()) + amt
      ensures var next := Follow(fmt, old(cur), old(buf.Buffered()[..amt]));
              HeaderAtHand(next.at, hdr) && (next.at.Headed? ==> ValidHeader(fmt, next.at.h)) ==>
                && Valid()
                && (panics <==> next.at.Headed? && SizeOf(fmt, next.at.h).None?)
                && (!panics ==> cur == Settle(next))
      ensures old(Aligned()) ==> Aligned()
    {
      hide Next, Run, GoodPhase, StateAt, Text, Follow, Consumes, Committed, HeaderAtHand, WholeBlocks, IsBlocks,
        NeverZero, Buf.Buffered, Checked, Settle;
      var bytes := buf.BufferedBytes();
      assert amt <= |bytes|;
      ghost var w, c := bytes[..amt], cur;
      var settled, taken, failed := Replay(bytes[..amt], hdr);
      if failed {
        return true;
      }
      assert taken == amt;
      state := settled;
      Discard(amt);
      panics := false;
      HeadGrows(fmt, c, w);
      ghost var next := Follow(fmt, c, w);
      if HeaderAtHand(next.at, hdr) && (next.at.Headed? ==> ValidHeader(fmt, next.at.h)) {
        StillChecked(fmt, c, w);
        cur := Settle(Follow(fmt, c, w));
      }
    }

    /** A look ahead from outside entry data, with what it says about the data if it fails. */
    method PeekEntry() returns (r: Poll<(State, nat)>)
      requires Valid() && !cur.at.Body? && !cur.at.Done?
      modifies buf, buf.data, io`clock, io`off
      ensures Valid() && Offset() == old(Offset())
      ensures Decided(r) && r.Failed? ==> NextResult(fmt, io.data, Boundary(fmt, cur)) == Failed(r.error)
      ensures r.Ready? ==>
        buf.Buffered() != [] && Next(fmt, state, buf.Buffered(), None) == Ok(r.value.0, r.value.1)
      ensures r.Ready? && r.value.0 == ReceivedHeader ==> cur.at.Head?
      ensures Left() == old(Left())
      ensures r.Failed? ==> r.error == Device || r.error == UnexpectedEof || r.error.Data?
      ensures r.Ready? && !cur.at.Trailer? ==> SplitAt(Boundary(fmt, cur)) == old(SplitAt(Boundary(fmt, cur)))
      ensures old(Aligned()) ==> Aligned()
      ensures !Decided(r) ==> buf.Buffered() == []
      ensures Blames(io.schedule, old(io.clock), io.clock, r)
    {
      hide Next, GoodPhase, StateAt, Text, Follow, Boundary, NextResult, Aligned, WholeBlocks, NeverZero,
        AllZero, IsBlocks, Buf.Buffered, HeaderSplit;
      TerminalPhase(fmt, cur);
      ghost var clock, off := io.clock, io.off;
      r := PollNextState(None);
      PeekOutsideData(fmt, cur, buf.Buffered());
      if r.Failed? && r.error != Device {
        PeekFails(fmt, cur, io.data, Offset(), io.off, r.error);
      }
      if r.Ready? && !cur.at.Trailer? && io.off > off {
        HeadAtRefill(fmt, cur);
        SplitAfterRefill(io.schedule, clock, off, buf.data.Length, |io.data|, Boundary(fmt, cur),
                         HeadLength(cur.at), io.off - off);
      }
    }

    lemma AtEnd()
      requires Valid() && cur.at.Done?
      ensures NextResult(fmt, io.data, Boundary(fmt, cur)) == Ready(None)
    {
      hide NextResult, Boundary, Buf.Buffered;
      ResultAtDone(fmt, cur, io.data);
    }

    /** The answer to a header at `b` of which `late` bytes were consumed before the rest was buffered. */
    ghost predicate SplitAnswer(b: nat, late: nat, r: Poll<Option<seq<byte>>>)
      reads this, buf, buf.data, io
    {
      && late < BLOCK_SIZE && b + late <= io.off <= |io.data|
      && r == FrontHeader(fmt, io.data[b + late..io.off])
      && (r.Ready? ==>
            && r.value.Some? && BufferValid()
            && state == ReceivingData(SizeOf(fmt, r.value.value).value) && Offset() == b + BLOCK_SIZE)
    }

    /**
      Parses the block at the front of the buffer and commits to it. It is the header if no byte of
      the header was consumed before. Otherwise it is whatever lies that many bytes later, and if
      it passes for a header, synchronisation is lost.
    */
    method ReceiveHeader(amt: nat) returns (r: Poll<Option<seq<byte>>>)
      requires Valid() && cur.at.Head?
      requires Next(fmt, state, buf.Buffered(), None) == Ok(ReceivedHeader, amt)
      modifies this`state, this`cur, buf
      ensures !r.Pending? && (r.Failed? ==> r.error in {InvalidHeader, Panic}) && (r.Ready? ==> r.value.Some?)
      ensures !r.Ready? ==> Valid() && cur == old(cur)
      ensures SplitAnswer(Boundary(fmt, old(cur)), |old(cur).at.x|, r)
      ensures old(SplitAt(Boundary(fmt, cur))) == Some(Split(|old(cur).at.x|, io.off))
      ensures r.Ready? ==> ValidHeader(fmt, r.value.value) && SizeOf(fmt, r.value.value).Some?
      ensures old(Aligned()) ==> old(cur).at == Head([])
      ensures old(cur).at == Head([]) ==>
        && Valid() && r == NextResult(fmt, io.data, Boundary(fmt, old(cur)))
        && (r.Ready? ==> cur == old(cur).(at := Body(r.value.value, [])))
      ensures old(Aligned()) ==> Aligned()
    {
      hide Next, Follow, GoodPhase, StateAt, Text, Boundary, NextResult, Consumes, Committed, NeverZero, IsBlocks,
        WholeBlocks, Buf.Buffered;
      var bytes := buf.BufferedBytes();
      HeadOffset(fmt, cur);
      assert bytes == io.data[Boundary(fmt, cur) + |cur.at.x|..io.off];
      if cur.at == Head([]) {
        WholeHeader(fmt, cur, io.data, Offset(), io.off, amt);
      }
      HeaderStep(fmt, cur, bytes, amt, None);
      if |bytes| < BLOCK_SIZE {
        // Slicing the header off the buffer fails.
        return Failed(Panic);
      }
      var block := bytes[..BLOCK_SIZE];
      if !ValidHeader(fmt, block) {
        return Failed(InvalidHeader);
      }
      HeaderStep(fmt, cur, bytes, amt, Some(block));
      var panics := Consume(amt, Some(block));
      if panics {
        return Failed(Panic);
      }
      r := Ready(Some(block));
    }

    /** Commits to a step outside entry data that is not the end of a header. */
    method ConsumeOutsideData(next: State, amt: nat)
      requires Valid() && !cur.at.Body? && !cur.at.Done? && buf.Buffered() != []
      requires Next(fmt, state, buf.Buffered(), None) == Ok(next, amt) && next != ReceivedHeader
      modifies this`state, this`cur, buf
      ensures Valid() && !cur.at.Body?
      ensures SameEntries(old(cur), cur) && Boundary(fmt, cur) == Boundary(fmt, old(cur))
      ensures cur.at.Done? <==> next == ReceivedEof
      ensures Left() < old(Left()) || (Left() == old(Left()) && IdleRank(cur.at) < IdleRank(old(cur).at))
      ensures !cur.at.Trailer? && !cur.at.Done? ==>
        SplitAt(Boundary(fmt, cur)) == old(SplitAt(Boundary(fmt, cur)))
      ensures old(cur).at.Trailer? ==> cur.at.Trailer? || cur.at.Done?
      ensures old(Aligned()) ==> Aligned()
    {
      hide Next, GoodPhase, StateAt, Text, Follow, SameEntries, Consumes, Boundary, Committed, Aligned, IsBlocks,
        NeverZero, WholeBlocks, Buf.Buffered, RefillTo;
      ghost var bytes := buf.Buffered();
      PeekOutsideData(fmt, cur, bytes);
      StepOutsideData(fmt, cur, bytes);
      ReplayStep(fmt, cur, bytes);
      if !cur.at.Trailer? && io.off >= Boundary(fmt, cur) + BLOCK_SIZE {
        HeadAfterStep(fmt, cur, bytes);
      }
      var panics := Consume(amt, None);
    }

    /**
      Reads up to the next header or the end of the archive. Once decided, the answer is a function
      of the data and of where the entry before it ends.

      The exception is a header that was completed by a refill after `late` of its bytes had been
      consumed, which a source that delivers whole blocks never causes: then a block that lies
      `late` bytes later in the data is taken for the header. Which refill that is, is decided by the
      schedule and by how far the data was pulled before.
    */
    method PollNextEntry() returns (r: Poll<Option<seq<byte>>>, ghost late: nat)
      requires Valid() && !cur.at.Body?
      modifies this`state, this`cur, buf, buf.data, io`clock, io`off
      ensures old(Aligned()) ==> late == 0 && Aligned()
      ensures late == 0 ==> Valid()
      ensures late == 0 && Decided(r) ==> r == NextResult(fmt, io.data, Boundary(fmt, old(cur)))
      ensures late == 0 ==> SameEntries(old(cur), cur)
      ensures late == 0 && r.Ready? && r.value.Some? ==>
        cur.at == Body(r.value.value, []) && |Encode(cur.done)| == Boundary(fmt, old(cur))
      ensures late == 0 && r.Ready? && r.value.None? ==> cur.at.Done?
      ensures !r.Ready? ==>
        Valid() && !cur.at.Body? && !cur.at.Done? && Boundary(fmt, cur) == Boundary(fmt, old(cur))
      ensures late > 0 ==> SplitAnswer(Boundary(fmt, old(cur)), late, r)
      ensures r.Ready? && r.value.Some? ==> ValidHeader(fmt, r.value.value) && SizeOf(fmt, r.value.value).Some?
      ensures IsVerdict(r) ==> old(SplitAt(Boundary(fmt, cur))) == Some(Split(late, io.off))
      ensures old(cur).at.Done? ==>
        late == 0 && r == Ready(None) && cur == old(cur) && Offset() == old(Offset()) && io.clock == old(io.clock)
      ensures !Decided(r) ==> buf.Buffered() == []
      ensures Blames(io.schedule, old(io.clock), io.clock, r)
    {
      hide Next, GoodPhase, StateAt, Text, Follow, NextResult, SameEntries, Consumes, Boundary, SplitAnswer, IsBlocks,
        NeverZero, WholeBlocks, Buf.Buffered,
        IdleRank, AllZero, Encode, WellFormedEntries, Aligned, Settled, HeaderSplit, SplitAt, BufferValid, Left,
        Checked;
      late := 0;
      TerminalPhase(fmt, cur);
      SameEntriesReflexive(cur);
      if state.IsTerminal() {
        AtEnd();
        return Ready(None), 0;
      }
      while true
        invariant old(io.clock) <= io.clock
        invariant Valid() && !cur.at.Body? && !cur.at.Done? && (old(Aligned()) ==> Aligned())
        invariant SameEntries(old(cur), cur) && Boundary(fmt, cur) == Boundary(fmt, old(cur))
        invariant !cur.at.Trailer? ==> SplitAt(Boundary(fmt, cur)) == old(SplitAt(Boundary(fmt, cur)))
        decreases Left(), IdleRank(cur.at)
      {
        var peek :- PeekEntry();
        var next, amt := peek.0, peek.1;
        ghost var c := cur;
        match next
        case ReceivedHeader =>
          late := |c.at.x|;
          r := ReceiveHeader(amt);
          if late == 0 {
            SameEntriesHeader(fmt, old(cur), c, cur);
          }
          return;
        case ReceivedEof =>
          ConsumeOutsideData(next, amt);
          SameEntriesTransitive(old(cur), c, cur);
          AtEnd();
          return Ready(None), 0;
        case _ =>
          ConsumeOutsideData(next, amt);
          SameEntriesTransitive(old(cur), c, cur);
      }
    }

    /** Commits to alignment bytes. */
    method ConsumePadding(amt: nat, hdr: Option<seq<byte>>)
      requires Valid() && cur.at.Pad? && Supplied(cur.at, hdr) && buf.Buffered() != []
      requires Next(fmt, state, buf.Buffered(), None).Ok? && Next(fmt, state, buf.Buffered(), None).taken == amt
      modifies this`state, this`cur, buf
      ensures Valid() && Offset() == old(Offset()) + amt
      ensures SameEntries(old(cur), cur) && Boundary(fmt, cur) == Boundary(fmt, old(cur))
      ensures var next := old(Next(fmt, state, buf.Buffered(), None).state);
              if next.AlignedData? then cur.at.Between?
              else next.AligningData? && amt > 0 && cur.at.Pad? && cur.at.h == old(cur).at.h
      ensures old(Aligned()) ==> Aligned()
    {
      hide Next, GoodPhase, StateAt, Text, Follow, Boundary, Aligned, IsBlocks, NeverZero, WholeBlocks, Buf.Buffered;
      ghost var bytes := buf.Buffered();
      PeekInEntry(fmt, cur, bytes);
      PeekOutsideData(fmt, cur, bytes);
      StepOutsideData(fmt, cur, bytes);
      ReplayStep(fmt, cur, bytes);
      PeekInEntry(fmt, cur, bytes[..amt]);
      var panics := Consume(amt, hdr);
    }

    /**
      Looks for entry data, passing over the alignment if the data is complete. Entry data is
      returned without being consumed.
    */
    method PollReadEntry(header: seq<byte>) returns (r: Poll<seq<byte>>)
      requires Valid() && (cur.at.Body? || cur.at.Pad?) && cur.at.h == header
      modifies this`state, this`cur, buf, buf.data, io`clock, io`off
      ensures Valid()
      ensures old(cur).at.Body? ==> cur == old(cur) && Offset() == old(Offset())
      ensures r.Ready? && old(cur).at.Body? ==>
        var due := SizeOf(fmt, header).value - |cur.at.d|;
        r.value == Clip(buf.Buffered(), due) && (due > 0 ==> r.value != [])
      ensures old(cur).at.Body? ==> Refilled(old(io.clock), old(io.off), old(|buf.Buffered()|))
      ensures r.Ready? && old(cur).at.Pad? ==> r.value == [] && cur.at.Between? && Completed(old(cur), cur.done)
      ensures !r.Ready? && old(cur).at.Pad? ==> cur.at.Pad? && SameEntries(old(cur), cur)
      ensures Boundary(fmt, cur) == Boundary(fmt, old(cur))
      ensures r.Failed? ==> r.error == Device || (r.error == UnexpectedEof && Offset() == |io.data|)
      ensures old(Aligned()) ==> Aligned()
      ensures !Decided(r) ==> buf.Buffered() == []
      ensures Blames(io.schedule, old(io.clock), io.clock, r)
    {
      hide Next, GoodPhase, StateAt, Text, Follow, SameEntries, Consumes, Boundary, Aligned, IsBlocks, NeverZero,
        WholeBlocks, Buf.Buffered,
        WellFormed, Settled, Completed, Refilled;
      SameEntriesReflexive(cur);
      while true
        invariant old(Aligned()) ==> Aligned()
        invariant old(io.clock) <= io.clock
        invariant Valid() && (cur.at.Body? || cur.at.Pad?) && cur.at.h == header
        invariant old(cur).at.Body? ==> cur == old(cur) && Offset() == old(Offset())
        invariant old(cur).at.Body? ==>
          buf.Buffered() == old(buf.Buffered()) && io.clock == old(io.clock) && io.off == old(io.off)
        invariant old(cur).at.Pad? ==> cur.at.Pad? && SameEntries(old(cur), cur)
        invariant Boundary(fmt, cur) == Boundary(fmt, old(cur))
        decreases |io.data| - Offset()
      {
        TerminalPhase(fmt, cur);
        PeekInEntry(fmt, cur, []);
        var peek := PollNextState(Some(header));
        PeekInEntry(fmt, cur, buf.Buffered());
        if !peek.Ready? {
          return peek.PropagateFailure();
        }
        var next, amt := peek.value.0, peek.value.1;
        match next
        case ReceivingData(_) =>
          var bytes := buf.BufferedBytes();
          return Ready(bytes[..amt]);
        case ReceivedData =>
          var bytes := buf.BufferedBytes();
          return Ready(bytes[..amt]);
        case AligningData(_) =>
          ghost var c := cur;
          ConsumePadding(amt, None);
          SameEntriesTransitive(old(cur), c, cur);
        case AlignedData =>
          ghost var c := cur;
          ConsumePadding(amt, Some(header));
          SameEntriesTransitive(old(cur), c, cur);
          SameEntriesPad(old(cur), cur);
          return Ready([]);
        case _ =>
          assert false;
      }
    }

    /** Commits to entry data, or to nothing once the entry is over. */
    method ConsumeEntry(amt: nat, header: seq<byte>)
      requires Valid() && amt <= |buf.Buffered()|
      requires if cur.at.Body? then cur.at.h == header && |cur.at.d| + amt <= SizeOf(fmt, header).value
               else cur.at.Between? && amt == 0
      modifies this`state, this`cur, buf
      ensures Valid() && Offset() == old(Offset()) + amt
      ensures cur == Settle(AfterData(fmt, old(cur), old(buf.Buffered()[..amt])))
      ensures Boundary(fmt, cur) == Boundary(fmt, old(cur))
      ensures old(Aligned()) ==> Aligned()
    {
      hide Next, GoodPhase, StateAt, Text, Follow, Aligned, IsBlocks, NeverZero, WholeBlocks, Buf.Buffered;
      ghost var w := buf.Buffered()[..amt];
      DataStep(fmt, cur, w, header);
      var panics := Consume(amt, Some(header));
    }

    /** Reads entry data into a caller's buffer with `room` bytes left. */
    method PollRead(room: nat, header: seq<byte>) returns (r: Poll<seq<byte>>)
      requires Valid() && (cur.at.Body? || cur.at.Pad?) && cur.at.h == header
      modifies this`state, this`cur, buf, buf.data, io`clock, io`off
      ensures Valid() && Boundary(fmt, cur) == Boundary(fmt, old(cur))
      ensures r.Ready? ==> ReadGives(fmt, old(cur), cur, r.value, room)
      // As much as there is room for, or all that is due, or all that is buffered.
      ensures r.Ready? && old(cur).at.Body? ==>
        || |r.value| == room || SizeOf(fmt, header) == Some(|old(cur).at.d| + |r.value|) || buf.Buffered() == []
      ensures room == 0 ==> r == Ready([]) && io.clock == old(io.clock)
      ensures room > 0 && old(cur).at.Body? ==> Refilled(old(io.clock), old(io.off), old(|buf.Buffered()|))
      ensures !r.Ready? ==> if old(cur).at.Body? then cur == old(cur) else cur.at.Pad? && SameEntries(old(cur), cur)
      ensures r.Failed? ==> r.error == Device || (r.error == UnexpectedEof && Offset() == |io.data|)
      ensures old(Aligned()) ==> Aligned()
      ensures !Decided(r) ==> buf.Buffered() == []
      ensures Blames(io.schedule, old(io.clock), io.clock, r)
    {
      hide Next, GoodPhase, StateAt, Text, Follow, SameEntries, Boundary, Aligned, IsBlocks, NeverZero, WholeBlocks;
      hide AfterData, Settle, Completed, Buf.Buffered;
      if room == 0 {
        assert ReadGives(fmt, cur, cur, [], 0);
        return Ready([]);
      }
      StateOfSettled(fmt, cur.at);
      ghost var c := cur;
      var bytes :- PollReadEntry(header);
      ghost var c1 := cur;
      var len := Min(|bytes|, room);
      assert bytes[..len] == buf.Buffered()[..len];
      ConsumeEntry(len, header);
      RoomTaken(fmt, c, c1, bytes, room);
      r := Ready(bytes[..len]);
    }

    /**
      Consumes all remaining entry data and the alignment. On an entry that is empty and fresh the
      assertion that it ended between entries fails.
    */
    method PollSkip(header: seq<byte>) returns (r: Poll<()>)
      requires Valid() && (cur.at.Body? || cur.at.Pad?) && cur.at.h == header
      modifies this`state, this`cur, buf, buf.data, io`clock, io`off
      ensures Valid() && Boundary(fmt, cur) == Boundary(fmt, old(cur))
      ensures r.Ready? ==> cur.at.Between? && Skipped(old(cur), cur.done)
      ensures !r.Ready? ==>
        && (if old(cur).at.Pad? then cur.at.Pad? else cur.at.Body? || cur.at.Pad?)
        && cur.done == old(cur).done && cur.at.h == header && old(cur).at.d <= cur.at.d
      ensures old(cur).at.Body? && SizeOf(fmt, header) == Some(0) ==> !r.Ready?
      ensures r.Failed? ==>
        || r.error == Device || (r.error == UnexpectedEof && Offset() == |io.data|)
        || (r.error == Panic && old(cur).at.Body? && SizeOf(fmt, header) == Some(0))
      ensures old(Aligned()) ==> Aligned()
      ensures !Decided(r) ==> buf.Buffered() == []
      ensures Blames(io.schedule, old(io.clock), io.clock, r)
    {
      hide Next, GoodPhase, StateAt, Text, Follow, SameEntries, Boundary, Aligned, IsBlocks, NeverZero, WholeBlocks,
        AfterData, Settle, Buf.Buffered;
      while true
        invariant old(Aligned()) ==> Aligned()
        invariant old(io.clock) <= io.clock
        invariant Valid() && (cur.at.Body? || cur.at.Pad?) && cur.at.h == header
        invariant Boundary(fmt, cur) == Boundary(fmt, old(cur))
        invariant cur.done == old(cur).done && old(cur).at.d <= cur.at.d
        invariant old(cur).at.Pad? ==> cur.at.Pad?
        invariant old(cur).at.Body? && SizeOf(fmt, header) == Some(0) ==> cur == old(cur)
        decreases |io.data| - Offset()
      {
        StateOfSettled(fmt, cur.at);
        ghost var c := cur;
        var bytes := PollReadEntry(header);
        if !bytes.Ready? {
          if c.at.Pad? { SameEntriesWithin(c, cur); }
          return bytes.PropagateFailure();
        }
        StateOfSettled(fmt, cur.at);
        var amt := |bytes.value|;
        if amt == 0 {
          if state != ExpectingHeader {
            return Failed(Panic);
          }
          return Ready(());
        }
        DataOnward(fmt, cur, bytes.value);
        ConsumeEntry(amt, header);
      }
    }
  }
}
