/** The moves of the reader, and what its results must be as functions of the data alone. */
module ReaderSteps {
  import opened Bytes
  import opened Format
  import opened Automaton
  import opened Position
  import opened Io

  /** The states in which the reader waits between operations. */
  predicate Settled(at: Phase) {
    at.Between? || at.Head? || at.Body? || at.Pad? || at.Trailer? || at.Done?
  }

  /** The states `consume` never stays in. */
  predicate Eager(s: State) {
    match s
    case ReceivingHeader(rem, empty) => rem == 0 && !empty
    case ReceivedHeader => true
    case ReceivingData(rem) => rem == 0
    case ReceivedData => true
    case AligningData(rem) => rem == 0
    case AlignedData => true
    case ReceivingEof(rem) => rem == 0
    case _ => false
  }

  /** Where the eager transition leads. */
  function Settle(c: Cursor): Cursor {
    match c.at
    case Headed(h) => c.(at := Body(h, []))
    case BodyDone(h, d) => c.(at := Pad(h, d, []))
    case Padded(h, d, z) => Cursor(c.done + [Entry(h, d, z)], Between)
    case _ => c
  }

  /** One step over the bytes consumed. */
  ghost predicate Consumes(fmt: Format, c: Cursor, w: seq<byte>, hdr: Option<seq<byte>>)
    requires WellFormed(fmt, c)
  {
    && Supplied(c.at, hdr)
    && var r := Next(fmt, StateAt(fmt, c.at), w, hdr);
       r.Ok? && r.taken == |w|
  }

  /** The eager transition has the header it needs. */
  predicate HeaderAtHand(at: Phase, hdr: Option<seq<byte>>) {
    at.Headed? || at.BodyDone? ==> hdr == Some(at.h)
  }

  /** The state after one step over `w` and the eager transition that may follow, unless that fails. */
  function Committed(fmt: Format, s: State, w: seq<byte>, hdr: Option<seq<byte>>): Option<State> {
    var r := Next(fmt, s, w, hdr);
    if r.Err? then None
    else if !Eager(r.state) then Some(r.state)
    else
      var eager := Next(fmt, r.state, [], hdr);
      if eager.Err? then None else Some(eager.state)
  }

  lemma SettleTracks(fmt: Format, c: Cursor, w: seq<byte>, hdr: Option<seq<byte>>)
    requires WellFormed(fmt, c) && Settled(c.at) && Consumes(fmt, c, w, hdr)
    ensures var c1 := Follow(fmt, c, w);
            var s1 := Next(fmt, StateAt(fmt, c.at), w, hdr).state;
            && WellFormed(fmt, c1)
            && s1 == StateAt(fmt, c1.at)
            && Text(c1) == Text(c) + w
            && (Eager(s1) <==> c1.at.Headed? || c1.at.BodyDone? || c1.at.Padded?)
            && (!Eager(s1) ==> Settled(c1.at) && Settle(c1) == c1)
  {
    NextTracks(fmt, c, w, hdr);
    assert w[..|w|] == w;
  }

  lemma EagerTracks(fmt: Format, c: Cursor, hdr: Option<seq<byte>>)
    requires WellFormed(fmt, c) && HeaderAtHand(c.at, hdr)
    requires c.at.Headed? || c.at.BodyDone? || c.at.Padded?
    ensures var r := Next(fmt, StateAt(fmt, c.at), [], hdr);
            if r.Err? then c.at.Headed? && SizeOf(fmt, c.at.h).None?
            else
              && (c.at.Headed? ==> SizeOf(fmt, c.at.h).Some?)
              && WellFormed(fmt, Settle(c)) && Settled(Settle(c).at)
              && r.state == StateAt(fmt, Settle(c).at)
              && Text(Settle(c)) == Text(c)
  {
    if !c.at.Padded? || hdr == Some(c.at.h) {
      NextTracks(fmt, c, [], hdr);
    } else {
      NextTracks(fmt, c, [], None);
    }
    assert Next(fmt, StateAt(fmt, c.at), [], hdr).Ok? ==> Follow(fmt, c, []) == Settle(c);
  }

  /** With the right header, committing moves the position; only the size of a new header can make it fail. */
  lemma CommittedTracks(fmt: Format, c: Cursor, w: seq<byte>, hdr: Option<seq<byte>>)
    requires WellFormed(fmt, c) && Settled(c.at) && Consumes(fmt, c, w, hdr)
    requires HeaderAtHand(Follow(fmt, c, w).at, hdr)
    ensures var next, s := Follow(fmt, c, w), Committed(fmt, StateAt(fmt, c.at), w, hdr);
            && (s.None? <==> next.at.Headed? && SizeOf(fmt, next.at.h).None?)
            && (s.Some? ==>
                  && WellFormed(fmt, Settle(next)) && Settled(Settle(next).at)
                  && s.value == StateAt(fmt, Settle(next).at)
                  && Text(Settle(next)) == Text(c) + w)
  {
    hide Next, Follow, GoodPhase, StateAt, Text, Eager, Settle;
    SettleTracks(fmt, c, w, hdr);
    if Eager(Next(fmt, StateAt(fmt, c.at), w, hdr).state) {
      EagerTracks(fmt, Follow(fmt, c, w), hdr);
    }
  }

  /** A header that is still incomplete after a step took all the step could take. */
  lemma HeadGrows(fmt: Format, c: Cursor, w: seq<byte>)
    requires WellFormed(fmt, c) && Settled(c.at)
    ensures var c1 := Follow(fmt, c, w);
            Settle(c1).at.Head? && Settle(c1).at.x != [] ==>
              c.at.Head? && |w| < BLOCK_SIZE - |c.at.x|
  {
  }

  /** Inside a header the offset is not a block boundary. */
  lemma PartialHeader(fmt: Format, c: Cursor)
    requires WellFormed(fmt, c) && c.at.Head? && c.at.x != []
    ensures !IsBlocks(|Text(c)|)
  {
    hide Text, AllZero, WellFormedEntries;
    BlockAlignment(fmt, c);
  }

  /** The bytes an entry of `n` data bytes occupies. */
  function EntryLength(n: nat): nat {
    BLOCK_SIZE + n + PadLen(n)
  }

  /** The offset at which the next header is expected once the current entry, if any, is over. */
  function Boundary(fmt: Format, c: Cursor): nat {
    |Encode(c.done)| +
    match c.at
    case Body(h, _) => if SizeOf(fmt, h).Some? then EntryLength(SizeOf(fmt, h).value) else 0
    case Pad(_, d, _) => EntryLength(|d|)
    case _ => 0
  }

  /** The bytes of `data` from `a` up to `b`, or up to its end. */
  function Slice(data: seq<byte>, a: nat, b: nat): seq<byte> {
    if a <= b && a <= |data| then data[a..Min(b, |data|)] else []
  }

  /** The verdict on a block that is not all zeros and is taken for a header. */
  function HeaderVerdict(fmt: Format, block: seq<byte>): Poll<Option<seq<byte>>> {
    if !ValidHeader(fmt, block) then Failed(InvalidHeader)
    else if SizeOf(fmt, block).None? then Failed(Panic)
    else Ready(Some(block))
  }

  /** An answer that follows from looking at a header. */
  predicate IsVerdict(r: Poll<Option<seq<byte>>>) {
    (r.Ready? && r.value.Some?) || r == Failed(InvalidHeader) || r == Failed(Panic)
  }

  /** What asking for the next entry at an offset must answer, whatever the timing of the reads. */
  function NextResult(fmt: Format, data: seq<byte>, b: nat): Poll<Option<seq<byte>>> {
    if |data| < b + BLOCK_SIZE then Failed(UnexpectedEof)
    else
      var block := data[b..b + BLOCK_SIZE];
      if !AllZero(block) then HeaderVerdict(fmt, block)
      else if !AllZero(Slice(data, b + BLOCK_SIZE, b + 2 * BLOCK_SIZE)) then Failed(Data(ExpectingEmptyBlock))
      else if |data| < b + 2 * BLOCK_SIZE then Failed(UnexpectedEof)
      else Ready(None)
  }

  /** Whether a whole block of the data starts at `b`, and what can be found in it. */
  ghost predicate BlockAt(data: seq<byte>, b: nat, block: seq<byte>) {
    b + BLOCK_SIZE <= |data| && data[b..b + BLOCK_SIZE] == block
  }

  /**
    What the answers mean, each in both directions. A header is handed out exactly if the block is
    not all zeros, passes the checksum test, and has a size.
  */
  lemma NextResultMeans(fmt: Format, data: seq<byte>, b: nat)
    ensures var r := NextResult(fmt, data, b);
            var whole := b + BLOCK_SIZE <= |data|;
            var header := whole && !AllZero(data[b..b + BLOCK_SIZE]);
            var valid := header && ValidHeader(fmt, data[b..b + BLOCK_SIZE]);
            var sized := header && SizeOf(fmt, data[b..b + BLOCK_SIZE]).Some?;
            var second := Slice(data, b + BLOCK_SIZE, b + 2 * BLOCK_SIZE);
            && (forall h :: r == Ready(Some(h)) <==> BlockAt(data, b, h) && valid && sized)
            && (r == Failed(InvalidHeader) <==> header && !valid)
            && (r == Failed(Panic) <==> valid && !sized)
            && (r == Failed(Data(ExpectingEmptyBlock)) <==> whole && !header && !AllZero(second))
            && (r == Ready(None) <==> whole && !header && |second| == BLOCK_SIZE && AllZero(second))
            && (r == Failed(UnexpectedEof) <==>
                  !whole || (!header && AllZero(second) && |data| < b + 2 * BLOCK_SIZE))
  {
  }

  /** What a block at the front of the buffer is taken for, in both directions. */
  lemma FrontHeaderMeans(fmt: Format, front: seq<byte>)
    ensures var r, whole := FrontHeader(fmt, front), |front| >= BLOCK_SIZE;
            && (r == Failed(InvalidHeader) <==> whole && !ValidHeader(fmt, front[..BLOCK_SIZE]))
            && (forall h :: r == Ready(Some(h)) <==>
                  && whole && h == front[..BLOCK_SIZE]
                  && ValidHeader(fmt, h) && SizeOf(fmt, h).Some?)
            && (r == Failed(Panic) <==>
                  !whole || (ValidHeader(fmt, front[..BLOCK_SIZE]) && SizeOf(fmt, front[..BLOCK_SIZE]).None?))
  {
  }

  /** Every header up to a position passed the checksum test. */
  ghost predicate Checked(fmt: Format, c: Cursor) {
    && (forall i :: 0 <= i < |c.done| ==> ValidHeader(fmt, c.done[i].header))
    && (c.at.HasHeader() ==> ValidHeader(fmt, c.at.h))
  }

  /** Committing to a step keeps that if a header that it completes was tested. */
  lemma StillChecked(fmt: Format, c: Cursor, w: seq<byte>)
    requires WellFormed(fmt, c) && Checked(fmt, c)
    requires Follow(fmt, c, w).at.Headed? ==> ValidHeader(fmt, Follow(fmt, c, w).at.h)
    ensures Checked(fmt, Settle(Follow(fmt, c, w)))
  {
    hide PadLen, AllZero, Clip;
  }

  /** The text of a position is what the data starts with. */
  ghost predicate Reads(c: Cursor, data: seq<byte>) {
    Text(c) <= data
  }

  lemma BoundaryLength(fmt: Format, c: Cursor)
    requires WellFormed(fmt, c)
    ensures |Text(c)| == |Encode(c.done)| + |Tail(c.at)|
    ensures c.at.Pad? ==> |Text(c)| + (PadLen(|c.at.d|) - |c.at.z|) == Boundary(fmt, c)
  {
  }

  /** The two zero blocks, or the part of them that was read, lie in the data at the boundary. */
  lemma TrailerInData(fmt: Format, c: Cursor, data: seq<byte>)
    requires WellFormed(fmt, c) && Reads(c, data) && (c.at.Trailer? || c.at.Done?)
    ensures var b := Boundary(fmt, c);
            var k := if c.at.Done? then BLOCK_SIZE else c.at.k;
            && |Text(c)| == b + BLOCK_SIZE + k <= |data|
            && AllZero(data[b..b + BLOCK_SIZE])
            && AllZero(data[b + BLOCK_SIZE..b + BLOCK_SIZE + k])
  {
    var b := Boundary(fmt, c);
    forall j | b <= j < |Text(c)| ensures data[j] == 0 {
      assert Text(c)[j] == Tail(c.at)[j - b];
    }
  }

  lemma ResultAtDone(fmt: Format, c: Cursor, data: seq<byte>)
    requires WellFormed(fmt, c) && Reads(c, data) && c.at.Done?
    ensures NextResult(fmt, data, Boundary(fmt, c)) == Ready(None)
  {
    TrailerInData(fmt, c, data);
  }

  lemma ResultAtEnd(fmt: Format, c: Cursor, data: seq<byte>)
    requires WellFormed(fmt, c) && Settled(c.at) && !c.at.Body? && !c.at.Done?
    requires Text(c) == data
    ensures NextResult(fmt, data, Boundary(fmt, c)) == Failed(UnexpectedEof)
  {
    BoundaryLength(fmt, c);
    if c.at.Trailer? {
      TrailerInData(fmt, c, data);
      var b := Boundary(fmt, c);
      assert Slice(data, b + BLOCK_SIZE, b + 2 * BLOCK_SIZE) == data[b + BLOCK_SIZE..b + BLOCK_SIZE + c.at.k];
    }
  }

  lemma ResultAtHeader(fmt: Format, c: Cursor, data: seq<byte>, block: seq<byte>)
    requires WellFormed(fmt, c) && c.at == Head([])
    requires Text(c) + block <= data && IsHeader(block)
    ensures NextResult(fmt, data, Boundary(fmt, c)) == HeaderVerdict(fmt, block)
  {
    var b := Boundary(fmt, c);
    assert Text(c) == Encode(c.done);
    assert data[b..b + BLOCK_SIZE] == block;
  }

  lemma ResultAtBadTrailer(fmt: Format, c: Cursor, data: seq<byte>, rest: seq<byte>)
    requires WellFormed(fmt, c) && c.at.Trailer?
    requires Text(c) + rest <= data && !AllZero(Clip(rest, BLOCK_SIZE - c.at.k))
    ensures NextResult(fmt, data, Boundary(fmt, c)) == Failed(Data(ExpectingEmptyBlock))
  {
    assert Text(c) <= Text(c) + rest;
    TrailerInData(fmt, c, data);
    var b := Boundary(fmt, c);
    var s := Slice(data, b + BLOCK_SIZE, b + 2 * BLOCK_SIZE);
    var i :| 0 <= i < |Clip(rest, BLOCK_SIZE - c.at.k)| && rest[i] != 0;
    assert (Text(c) + rest)[|Text(c)| + i] == rest[i];
    assert s[c.at.k + i] == rest[i];
  }

  lemma ReplayFollow(fmt: Format, c: Cursor, bytes: seq<byte>, hdr: Option<seq<byte>>)
    requires WellFormed(fmt, c)
    requires Next(fmt, StateAt(fmt, c.at), bytes, hdr).Ok?
    ensures var r := Next(fmt, StateAt(fmt, c.at), bytes, hdr);
            Follow(fmt, c, bytes[..r.taken]) == Follow(fmt, c, bytes)
  {
    hide AllZero, PadLen, Clip;
    match c.at
    case Head(x) => ClipTwice(bytes, BLOCK_SIZE - |x|);
    case Body(h, d) => ClipTwice(bytes, SizeOf(fmt, h).value - |d|);
    case Pad(_, d, z) => ClipTwice(bytes, PadLen(|d|) - |z|);
    case Trailer(k) => ClipTwice(bytes, BLOCK_SIZE - k);
    case _ =>
  }

  /** What a look ahead from outside entry data can see. */
  lemma PeekOutsideData(fmt: Format, c: Cursor, bytes: seq<byte>)
    requires WellFormed(fmt, c) && Settled(c.at) && !c.at.Body? && !c.at.Done?
    ensures var r := Next(fmt, StateAt(fmt, c.at), bytes, None);
            var next := Follow(fmt, c, bytes);
            if r.Err? then
              r.error == ExpectingEmptyBlock && c.at.Trailer? && !AllZero(Clip(bytes, BLOCK_SIZE - c.at.k))
            else
              && !next.at.BodyDone? && !next.at.Body?
              && (next.at.Headed? <==> r.state == ReceivedHeader)
              && (next.at.Done? <==> r.state == ReceivedEof)
              && (c.at.Head? ==> r.taken == Min(BLOCK_SIZE - |c.at.x|, |bytes|))
              && (next.at.Headed? ==> c.at.Head? && next == c.(at := Headed(c.at.x + bytes[..r.taken])))
  {
    hide PadLen;
    if c.at.Head? {
      AllZeroAppend(c.at.x, Clip(bytes, BLOCK_SIZE - |c.at.x|));
    }
  }

  /** Why a look ahead from outside entry data fails: the data ends there, or the second block is not zero. */
  lemma PeekFails(fmt: Format, c: Cursor, data: seq<byte>, off: nat, pulled: nat, e: Error)
    requires WellFormed(fmt, c) && Settled(c.at) && !c.at.Body? && !c.at.Done?
    requires off <= pulled <= |data| && Text(c) == data[..off]
    requires
      || (e == UnexpectedEof && off == |data|)
      || (e.Data? && Next(fmt, StateAt(fmt, c.at), data[off..pulled], None) == Err(e.cause))
    ensures NextResult(fmt, data, Boundary(fmt, c)) == Failed(e)
  {
    hide Next, GoodPhase, StateAt, Text, Follow, Boundary, NextResult;
    if e.Data? {
      PeekOutsideData(fmt, c, data[off..pulled]);
      assert data[..off] + data[off..pulled] == data[..pulled];
      ResultAtBadTrailer(fmt, c, data, data[off..pulled]);
    } else {
      assert data[..|data|] == data;
      ResultAtEnd(fmt, c, data);
    }
  }

  /** `done` is what was complete before, and the entry of `c`, whatever its alignment bytes are. */
  ghost predicate Completed(c: Cursor, done: seq<Entry>)
    requires c.at.Body? || c.at.Pad?
  {
    && |done| == |c.done| + 1 && done[..|c.done|] == c.done
    && done[|c.done|].header == c.at.h && done[|c.done|].data == c.at.d
  }

  /** Between `c` and `c'` at most the alignment of one entry was passed. */
  ghost predicate SameEntries(c: Cursor, c': Cursor) {
    if c.at.Pad? then
      || (c'.at.Pad? && c'.done == c.done && c'.at.h == c.at.h && c'.at.d == c.at.d)
      || (!c'.at.Pad? && Completed(c, c'.done))
    else
      !c'.at.Pad? && c'.done == c.done
  }

  /** Steps outside entry data that read nothing do not go on for ever. */
  function IdleRank(at: Phase): nat {
    if at.Pad? then 2 else if at.Between? then 1 else 0
  }

  /** A step over alignment bytes. */
  lemma StepOverPadding(fmt: Format, c: Cursor, bytes: seq<byte>)
    requires WellFormed(fmt, c) && c.at.Pad? && bytes != []
    ensures var c' := Settle(Follow(fmt, c, bytes));
            && SameEntries(c, c') && Boundary(fmt, c') == Boundary(fmt, c)
            && (Next(fmt, StateAt(fmt, c.at), bytes, None).taken == 0 ==> IdleRank(c'.at) < IdleRank(c.at))
  {
    hide Text, AllZero;
    var next := Follow(fmt, c, bytes);
    if next.at.Padded? {
      NextTracks(fmt, c, bytes, None);
      assert BLOCK_SIZE + |c.at.d| + |next.at.z| == EntryLength(|c.at.d|);
      EncodeSnoc(c.done, Entry(c.at.h, c.at.d, next.at.z));
    }
  }

  lemma StepOutsideData(fmt: Format, c: Cursor, bytes: seq<byte>)
    requires WellFormed(fmt, c) && Settled(c.at) && !c.at.Body? && !c.at.Done?
    requires bytes != []
    requires var r := Next(fmt, StateAt(fmt, c.at), bytes, None); r.Ok? && r.state != ReceivedHeader
    ensures var c' := Settle(Follow(fmt, c, bytes));
            && SameEntries(c, c') && Boundary(fmt, c') == Boundary(fmt, c)
            && (if c.at.Trailer? then c'.at.Trailer? || c'.at.Done? else Settled(c'.at) && !c'.at.Body?)
            && (Next(fmt, StateAt(fmt, c.at), bytes, None).taken == 0 ==> IdleRank(c'.at) < IdleRank(c.at))
  {
    if c.at.Pad? {
      StepOverPadding(fmt, c, bytes);
    } else {
      hide Encode, PadLen;
      if c.at.Head? { AllZeroAppend(c.at.x, Clip(bytes, BLOCK_SIZE - |c.at.x|)); }
    }
  }

  lemma SameEntriesTransitive(a: Cursor, b: Cursor, c: Cursor)
    requires SameEntries(a, b) && SameEntries(b, c)
    ensures SameEntries(a, c)
  {
  }

  /** The answer is final: polling again is of no use. */
  predicate Decided<T>(r: Poll<T>) {
    r.Ready? || (r.Failed? && r.error != Device)
  }

  lemma TerminalPhase(fmt: Format, c: Cursor)
    requires WellFormed(fmt, c)
    ensures StateAt(fmt, c.at).IsTerminal() <==> c.at.Done?
  {
  }

  lemma SameEntriesReflexive(c: Cursor)
    ensures SameEntries(c, c)
  {
  }

  lemma SameEntriesHeader(fmt: Format, a: Cursor, b: Cursor, c: Cursor)
    requires SameEntries(a, b) && b.at.Head?
    requires c == b || (c.done == b.done && c.at.Body?)
    ensures SameEntries(a, c) && |Encode(c.done)| == Boundary(fmt, b)
  {
  }

  lemma HeadOffset(fmt: Format, c: Cursor)
    requires WellFormed(fmt, c) && c.at.Head?
    ensures |Text(c)| == Boundary(fmt, c) + |c.at.x| && |c.at.x| < BLOCK_SIZE
    ensures |c.at.x| == 0 <==> c.at == Head([])
  {
  }

  lemma ReplayStep(fmt: Format, c: Cursor, bytes: seq<byte>)
    requires WellFormed(fmt, c)
    requires Next(fmt, StateAt(fmt, c.at), bytes, None).Ok?
    ensures var n := Next(fmt, StateAt(fmt, c.at), bytes, None).taken;
            Consumes(fmt, c, bytes[..n], None) && Follow(fmt, c, bytes[..n]) == Follow(fmt, c, bytes)
  {
    hide Next, Follow;
    ReplayNext(fmt, StateAt(fmt, c.at), bytes, None);
    ReplayFollow(fmt, c, bytes, None);
  }

  /** What a look ahead inside an entry can see: data, or the alignment after it. */
  lemma PeekInEntry(fmt: Format, c: Cursor, bytes: seq<byte>)
    requires WellFormed(fmt, c) && (c.at.Body? || c.at.Pad?)
    ensures var r := Next(fmt, StateAt(fmt, c.at), bytes, Some(c.at.h));
            && r.Ok? && r == Next(fmt, StateAt(fmt, c.at), bytes, None)
            && (c.at.Body? ==>
                  var due := SizeOf(fmt, c.at.h).value - |c.at.d|;
                  (r.state.ReceivingData? || r.state.ReceivedData?) && r.taken == Min(due, |bytes|))
            && (c.at.Pad? ==>
                  && (r.state.AligningData? || r.state.AlignedData?)
                  && (bytes != [] && r.state.AligningData? ==> r.taken > 0)
                  && (Settle(Follow(fmt, c, bytes)).at.Between? <==> r.state.AlignedData?)
                  && (Settle(Follow(fmt, c, bytes)).at.Pad? <==> r.state.AligningData?))
  {
  }

  lemma SameEntriesPad(a: Cursor, b: Cursor)
    requires SameEntries(a, b) && a.at.Pad? && !b.at.Pad?
    ensures Completed(a, b.done)
  {
  }

  lemma SameEntriesWithin(a: Cursor, b: Cursor)
    requires SameEntries(a, b) && a.at.Pad? && b.at.Pad?
    ensures b.done == a.done && b.at.h == a.at.h && b.at.d == a.at.d
  {
  }

  lemma StateOfSettled(fmt: Format, at: Phase)
    requires GoodPhase(fmt, at) && Settled(at)
    ensures StateAt(fmt, at) == ExpectingHeader <==> at.Between?
    ensures at.Body? ==> SizeOf(fmt, at.h).Some? && |at.d| <= SizeOf(fmt, at.h).value
    ensures at.Body? && |at.d| == SizeOf(fmt, at.h).value ==> at.d == []
    ensures at.Pad? ==> SizeOf(fmt, at.h) == Some(|at.d|)
  {
  }

  /** Where consuming `w` leads from entry data; consuming nothing between entries moves past the marker. */
  function AfterData(fmt: Format, c: Cursor, w: seq<byte>): Cursor {
    match c.at
    case Body(h, d) => c.(at := BodyPhase(fmt, h, d + w))
    case _ => c.(at := Head([]))
  }

  lemma DataStep(fmt: Format, c: Cursor, w: seq<byte>, header: seq<byte>)
    requires WellFormed(fmt, c)
    requires if c.at.Body? then c.at.h == header && |c.at.d| + |w| <= SizeOf(fmt, header).value
             else c.at.Between? && w == []
    ensures Consumes(fmt, c, w, Some(header))
    ensures Follow(fmt, c, w) == AfterData(fmt, c, w)
    ensures HeaderAtHand(Follow(fmt, c, w).at, Some(header))
    ensures Boundary(fmt, Settle(AfterData(fmt, c, w))) == Boundary(fmt, c)
    ensures !Follow(fmt, c, w).at.Headed?
  {
    if c.at.Body? {
      assert Clip(w, SizeOf(fmt, header).value - |c.at.d|) == w;
    }
  }

  /** Consuming entry data stays in the entry. */
  lemma DataOnward(fmt: Format, c: Cursor, w: seq<byte>)
    requires c.at.Body?
    ensures var c' := Settle(AfterData(fmt, c, w));
            (c'.at.Body? || c'.at.Pad?) && c'.done == c.done && c'.at.h == c.at.h && c'.at.d == c.at.d + w
  {
  }

  /** Consuming nothing between entries expects the next header. */
  lemma NothingBetween(fmt: Format, c: Cursor)
    requires c.at.Between?
    ensures Settle(AfterData(fmt, c, [])) == c.(at := Head([]))
  {
  }

  /** What a read with `room` bytes of space returned, and where it left the reader. */
  ghost predicate ReadGives(fmt: Format, c: Cursor, c': Cursor, bytes: seq<byte>, room: nat) {
    if room == 0 then bytes == [] && c' == c
    else
      match c.at
      case Body(h, d) =>
        && |bytes| <= room
        && (SizeOf(fmt, h) != Some(|d|) ==> bytes != [])
        && c' == Settle(c.(at := BodyPhase(fmt, h, d + bytes)))
      case Pad(_, _, _) => bytes == [] && c'.at == Head([]) && Completed(c, c'.done)
      case _ => false
  }

  /** Taking as many of the buffered bytes as there is room for. */
  lemma RoomTaken(fmt: Format, c: Cursor, c1: Cursor, bytes: seq<byte>, room: nat)
    requires room > 0 && (c.at.Body? || c.at.Pad?)
    requires c.at.Body? ==> c1 == c && (SizeOf(fmt, c.at.h) != Some(|c.at.d|) ==> bytes != [])
    requires c.at.Pad? ==> bytes == [] && c1.at.Between? && Completed(c, c1.done)
    ensures var taken := bytes[..Min(|bytes|, room)];
            ReadGives(fmt, c, Settle(AfterData(fmt, c1, taken)), taken, room)
  {
  }

  /** `done` is what was complete before, and the entry of `c` with all of its data. */
  ghost predicate Skipped(c: Cursor, done: seq<Entry>)
    requires c.at.Body? || c.at.Pad?
  {
    && |done| == |c.done| + 1 && done[..|c.done|] == c.done
    && done[|c.done|].header == c.at.h && c.at.d <= done[|c.done|].data
  }

  /** Completing a header: the bytes still due lie at the front, and the size decides what follows. */
  lemma HeaderStep(fmt: Format, c: Cursor, bytes: seq<byte>, amt: nat, hdr: Option<seq<byte>>)
    requires WellFormed(fmt, c) && c.at.Head?
    requires Next(fmt, StateAt(fmt, c.at), bytes, None) == Ok(ReceivedHeader, amt)
    ensures amt == BLOCK_SIZE - |c.at.x| <= |bytes| && IsHeader(c.at.x + bytes[..amt])
    ensures Consumes(fmt, c, bytes[..amt], hdr)
    ensures Follow(fmt, c, bytes[..amt]) == c.(at := Headed(c.at.x + bytes[..amt]))
    ensures hdr.Some? ==>
      Committed(fmt, StateAt(fmt, c.at), bytes[..amt], hdr) ==
        if SizeOf(fmt, hdr.value).Some? then Some(ReceivingData(SizeOf(fmt, hdr.value).value)) else None
  {
    assert Clip(bytes[..amt], amt) == bytes[..amt] == Clip(bytes, amt);
    AllZeroAppend(c.at.x, bytes[..amt]);
  }

  /** What the block at the front of the buffer is taken for. */
  function FrontHeader(fmt: Format, front: seq<byte>): Poll<Option<seq<byte>>> {
    if |front| < BLOCK_SIZE then Failed(Panic) else HeaderVerdict(fmt, front[..BLOCK_SIZE])
  }

  /** A header of which nothing was consumed before is at the front, and answers as the data calls for. */
  lemma WholeHeader(fmt: Format, c: Cursor, data: seq<byte>, off: nat, pulled: nat, amt: nat)
    requires WellFormed(fmt, c) && c.at == Head([])
    requires off <= pulled <= |data| && Text(c) == data[..off]
    requires Next(fmt, StateAt(fmt, c.at), data[off..pulled], None) == Ok(ReceivedHeader, amt)
    ensures var front := data[off..pulled];
            && amt == BLOCK_SIZE <= |front|
            && FrontHeader(fmt, front) == NextResult(fmt, data, Boundary(fmt, c))
            && Follow(fmt, c, front[..amt]) == c.(at := Headed(front[..BLOCK_SIZE]))
  {
    hide Next, StateAt, Follow, Text, Boundary, NextResult, GoodPhase, WellFormedEntries, AllZero, HeaderVerdict;
    var front := data[off..pulled];
    HeaderStep(fmt, c, front, amt, None);
    assert [] + front[..amt] == front[..amt];
    assert data[..off] + front[..amt] == data[..off + amt];
    ResultAtHeader(fmt, c, data, front[..amt]);
  }

  /** Where a refill of an emptied buffer started and ended. */
  datatype Refill = Refill(start: nat, end: nat)

  /**
    The refill that brings the number of bytes pulled up to `goal`, if no wait, failure or end of
    the data comes before it. Each is offered the whole capacity.
  */
  function RefillTo(schedule: Schedule, clock: nat, off: nat, cap: nat, total: nat, goal: nat): Option<Refill>
    requires off <= total
    decreases total - off
  {
    var r := Answer(EventAt(schedule, clock), Min(cap, total - off));
    if !r.Ready? || r.value == 0 then None
    else if off + r.value >= goal then Some(Refill(off, off + r.value))
    else RefillTo(schedule, clock + 1, off + r.value, cap, total, goal)
  }

  /** How many bytes of a header were consumed when the rest of it came, and how many were pulled by then. */
  datatype Split = Split(late: nat, off: nat)

  /**
    The same, for a header at `b`, before it is asked for: `head` bytes of it were consumed, and `off`
    bytes were pulled.
  */
  function HeaderSplit(schedule: Schedule, clock: nat, off: nat, cap: nat, total: nat, b: nat, head: nat): Option<Split>
    requires off <= total
  {
    if off >= b + BLOCK_SIZE then Some(Split(head, off))
    else
      match RefillTo(schedule, clock, off, cap, total, b + BLOCK_SIZE)
      case None => None
      case Some(r) => Some(Split(if r.start > b then r.start - b else 0, r.end))
  }

  /** A refill does not change it, if all that was pulled before it was consumed. */
  lemma SplitAfterRefill(
    schedule: Schedule, clock: nat, off: nat, cap: nat, total: nat, b: nat, head: nat, n: nat)
    requires off <= total && off < b + BLOCK_SIZE && head == if off > b then off - b else 0
    requires Answer(EventAt(schedule, clock), Min(cap, total - off)) == Ready(n) && n > 0
    ensures HeaderSplit(schedule, clock + 1, off + n, cap, total, b, head)
      == HeaderSplit(schedule, clock, off, cap, total, b, head)
  {
  }

  /** Before the header is complete, all that was pulled is consumed only if it ends before the header does. */
  lemma HeadAtRefill(fmt: Format, c: Cursor)
    requires WellFormed(fmt, c) && (c.at.Pad? || c.at.Between? || c.at.Head?)
    ensures var b := Boundary(fmt, c);
            |Text(c)| < b + BLOCK_SIZE && HeadLength(c.at) == if |Text(c)| > b then |Text(c)| - b else 0
  {
    hide PadLen, AllZero;
  }

  /** A step outside entry data changes how much of the header was consumed only if it is not complete yet. */
  lemma HeadAfterStep(fmt: Format, c: Cursor, bytes: seq<byte>)
    requires WellFormed(fmt, c) && (c.at.Pad? || c.at.Between? || c.at.Head?)
    requires |Text(c)| + |bytes| >= Boundary(fmt, c) + BLOCK_SIZE
    ensures var c' := Settle(Follow(fmt, c, bytes));
            c'.at.Pad? || c'.at.Between? || c'.at.Head? ==> HeadLength(c'.at) == HeadLength(c.at)
  {
    hide PadLen, AllZero;
  }

  /** The header completed by `rest` is the block at the front of the buffer. */
  ghost predicate AtFront(header: seq<byte>, k: nat, rest: seq<byte>)
    requires k <= |header| == BLOCK_SIZE && |rest| >= k
  {
    (header[k..] + rest)[..BLOCK_SIZE] == header
  }

  /**
    Why reads must not split a header. If the first `k` bytes of a header block were consumed
    earlier, the look ahead reports the header as soon as the rest of it is buffered. The block at
    the front of the buffer exists exactly when `k` more bytes are buffered behind the header, and
    it is the header, whatever these bytes are, exactly when `k` is 0.
  */
  lemma SplitHeader(fmt: Format, c: Cursor, header: seq<byte>, k: nat)
    requires WellFormed(fmt, c) && IsHeader(header)
    requires k < BLOCK_SIZE && c.at == Head(header[..k])
    ensures forall rest: seq<byte> ::
      Next(fmt, StateAt(fmt, c.at), header[k..] + rest, None) == Ok(ReceivedHeader, BLOCK_SIZE - k)
    ensures forall rest: seq<byte> :: |header[k..] + rest| >= BLOCK_SIZE <==> |rest| >= k
    ensures (forall rest: seq<byte> :: |rest| >= k ==> AtFront(header, k, rest)) <==> k == 0
  {
    assert header[..k] + header[k..] == header;
    AllZeroAppend(header[..k], header[k..]);
    forall rest: seq<byte>
      ensures Next(fmt, StateAt(fmt, c.at), header[k..] + rest, None) == Ok(ReceivedHeader, BLOCK_SIZE - k)
    {
      assert Clip(header[k..] + rest, BLOCK_SIZE - k) == header[k..];
    }
    if k > 0 {
      var other: byte := if header[BLOCK_SIZE - 1] == 0 then 1 else 0;
      var rest := seq(k, _ => other);
      assert (header[k..] + rest)[..BLOCK_SIZE][BLOCK_SIZE - 1] == other;
      assert |rest| >= k && !AtFront(header, k, rest);
    } else {
      forall rest: seq<byte> ensures AtFront(header, 0, rest) {
        assert (header[0..] + rest)[..BLOCK_SIZE] == header;
      }
    }
  }
}
