/**
  Positions in a byte stream: an automaton state annotated with the bytes that led to it.

  The automaton keeps only counters. A cursor also remembers which entries are complete and what
  has been read of the current one, so `Text` gives back the whole stream up to that point. The
  lemmas below show that every transition of the automaton is a move of the cursor.
*/
module Position {
  import opened Bytes
  import opened Format
  import opened Automaton

  /** One constructor for each automaton state, in the same order. */
  datatype Phase =
    | Between
    | Head(x: seq<byte>)
    | Headed(h: seq<byte>)
    | Body(h: seq<byte>, d: seq<byte>)
    | BodyDone(h: seq<byte>, d: seq<byte>)
    | Pad(h: seq<byte>, d: seq<byte>, z: seq<byte>)
    | Padded(h: seq<byte>, d: seq<byte>, z: seq<byte>)
    | Trailer(k: nat)
    | Done
  {
    predicate HasHeader() {
      Headed? || Body? || BodyDone? || Pad? || Padded?
    }
  }

  datatype Cursor = Cursor(done: seq<Entry>, at: Phase)

  const START: Cursor := Cursor([], Between)

  predicate GoodPhase(fmt: Format, at: Phase) {
    match at
    case Between => true
    case Head(x) => |x| < BLOCK_SIZE
    case Headed(h) => IsHeader(h)
    case Body(h, d) =>
      && IsHeader(h) && SizeOf(fmt, h).Some?
      && var n := SizeOf(fmt, h).value; |d| < n || |d| == n == 0
    case BodyDone(h, d) => IsHeader(h) && SizeOf(fmt, h) == Some(|d|)
    case Pad(h, d, z) =>
      && IsHeader(h) && SizeOf(fmt, h) == Some(|d|)
      && (|z| < PadLen(|d|) || |z| == PadLen(|d|) == 0)
    case Padded(h, d, z) => WellFormedEntry(fmt, Entry(h, d, z))
    case Trailer(k) => k < BLOCK_SIZE
    case Done => true
  }

  predicate WellFormed(fmt: Format, c: Cursor) {
    WellFormedEntries(fmt, c.done) && GoodPhase(fmt, c.at)
  }

  /** The automaton state at a position. */
  function StateAt(fmt: Format, at: Phase): State
    requires GoodPhase(fmt, at)
  {
    match at
    case Between => ExpectingHeader
    case Head(x) => ReceivingHeader(BLOCK_SIZE - |x|, AllZero(x))
    case Headed(_) => ReceivedHeader
    case Body(h, d) => ReceivingData(SizeOf(fmt, h).value - |d|)
    case BodyDone(_, _) => ReceivedData
    case Pad(_, d, z) => AligningData(PadLen(|d|) - |z|)
    case Padded(_, _, _) => AlignedData
    case Trailer(k) => ReceivingEof(BLOCK_SIZE - k)
    case Done => ReceivedEof
  }

  /** The bytes read since the last complete entry. */
  function Tail(at: Phase): seq<byte> {
    match at
    case Between => []
    case Head(x) => x
    case Headed(h) => h
    case Body(h, d) => h + d
    case BodyDone(h, d) => h + d
    case Pad(h, d, z) => h + d + z
    case Padded(h, d, z) => h + d + z
    case Trailer(k) => Zeros(BLOCK_SIZE + k)
    case Done => Zeros(2 * BLOCK_SIZE)
  }

  /** The whole stream up to a position. */
  function Text(c: Cursor): seq<byte> {
    Encode(c.done) + Tail(c.at)
  }

  /** Where one transition over `buf` leads. */
  function Follow(fmt: Format, c: Cursor, buf: seq<byte>): Cursor
    requires WellFormed(fmt, c)
  {
    match c.at
    case Between => c.(at := Head([]))
    case Head(x) =>
      var y := x + Clip(buf, BLOCK_SIZE - |x|);
      c.(at := if |y| < BLOCK_SIZE then Head(y) else if AllZero(y) then Trailer(0) else Headed(y))
    case Headed(h) => c.(at := Body(h, []))
    case Body(h, d) =>
      var n := SizeOf(fmt, h).value;
      var e := d + Clip(buf, n - |d|);
      c.(at := if |e| == n then BodyDone(h, e) else Body(h, e))
    case BodyDone(h, d) => c.(at := Pad(h, d, []))
    case Pad(h, d, z) =>
      var y := z + Clip(buf, PadLen(|d|) - |z|);
      c.(at := if |y| == PadLen(|d|) then Padded(h, d, y) else Pad(h, d, y))
    case Padded(h, d, z) => Cursor(c.done + [Entry(h, d, z)], Between)
    case Trailer(k) =>
      var n := Min(BLOCK_SIZE - k, |buf|);
      c.(at := if k + n == BLOCK_SIZE then Done else Trailer(k + n))
    case Done => c
  }

  /** The header passed in, if any, is the one of the current entry. */
  predicate Supplied(at: Phase, hdr: Option<seq<byte>>) {
    at.HasHeader() ==> hdr == None || hdr == Some(at.h)
  }

  /** The cursor moves as the automaton does, and the text grows by the bytes read. */
  ghost predicate Tracks(fmt: Format, c: Cursor, buf: seq<byte>, hdr: Option<seq<byte>>)
    requires WellFormed(fmt, c)
  {
    var r := Next(fmt, StateAt(fmt, c.at), buf, hdr);
    r.Ok? ==>
      var c' := Follow(fmt, c, buf);
      && WellFormed(fmt, c')
      && StateAt(fmt, c'.at) == r.state
      && Text(c') == Text(c) + buf[..r.taken]
  }

  lemma AtStart(fmt: Format)
    ensures WellFormed(fmt, START) && StateAt(fmt, START.at) == ExpectingHeader && Text(START) == []
  {
  }

  lemma AppendTail(done: seq<Entry>, at: Phase, at': Phase, w: seq<byte>)
    requires Tail(at') == Tail(at) + w
    ensures Text(Cursor(done, at')) == Text(Cursor(done, at)) + w
  {
    hide Tail;
    assert Encode(done) + (Tail(at) + w) == Encode(done) + Tail(at) + w;
  }

  lemma TracksHead(fmt: Format, c: Cursor, buf: seq<byte>, hdr: Option<seq<byte>>)
    requires WellFormed(fmt, c) && c.at.Head?
    ensures Tracks(fmt, c, buf, hdr)
  {
    var w := Clip(buf, BLOCK_SIZE - |c.at.x|);
    AllZeroAppend(c.at.x, w);
    if AllZero(c.at.x + w) {
      ZeroRun(c.at.x + w);
    }
    AppendTail(c.done, c.at, Follow(fmt, c, buf).at, w);
  }

  lemma TracksBody(fmt: Format, c: Cursor, buf: seq<byte>, hdr: Option<seq<byte>>)
    requires WellFormed(fmt, c) && c.at.Body?
    ensures Tracks(fmt, c, buf, hdr)
  {
    var w := Clip(buf, SizeOf(fmt, c.at.h).value - |c.at.d|);
    assert c.at.h + (c.at.d + w) == c.at.h + c.at.d + w;
    AppendTail(c.done, c.at, Follow(fmt, c, buf).at, w);
  }

  lemma TracksPad(fmt: Format, c: Cursor, buf: seq<byte>, hdr: Option<seq<byte>>)
    requires WellFormed(fmt, c) && c.at.Pad?
    ensures Tracks(fmt, c, buf, hdr)
  {
    var w := Clip(buf, PadLen(|c.at.d|) - |c.at.z|);
    assert c.at.h + c.at.d + (c.at.z + w) == c.at.h + c.at.d + c.at.z + w;
    AppendTail(c.done, c.at, Follow(fmt, c, buf).at, w);
  }

  lemma TracksTrailer(fmt: Format, c: Cursor, buf: seq<byte>, hdr: Option<seq<byte>>)
    requires WellFormed(fmt, c) && c.at.Trailer?
    ensures Tracks(fmt, c, buf, hdr)
  {
    var w := Clip(buf, BLOCK_SIZE - c.at.k);
    if AllZero(w) {
      AppendTail(c.done, c.at, Follow(fmt, c, buf).at, w);
    }
  }

  lemma TracksMarker(fmt: Format, c: Cursor, buf: seq<byte>, hdr: Option<seq<byte>>)
    requires WellFormed(fmt, c) && Supplied(c.at, hdr)
    requires StateAt(fmt, c.at).IsMarker()
    ensures Tracks(fmt, c, buf, hdr)
  {
    hide PadLen, Encode, Clip;
    assert buf[..0] == [];
    if c.at.Padded? {
      EncodeSnoc(c.done, Entry(c.at.h, c.at.d, c.at.z));
    } else {
      AppendTail(c.done, c.at, Follow(fmt, c, buf).at, []);
    }
  }

  /** Every transition of the automaton is a move of the cursor. */
  lemma NextTracks(fmt: Format, c: Cursor, buf: seq<byte>, hdr: Option<seq<byte>>)
    requires WellFormed(fmt, c) && Supplied(c.at, hdr)
    ensures Tracks(fmt, c, buf, hdr)
  {
    hide Tracks;
    match c.at
    case Head(_) => TracksHead(fmt, c, buf, hdr);
    case Body(_, _) => TracksBody(fmt, c, buf, hdr);
    case Pad(_, _, _) => TracksPad(fmt, c, buf, hdr);
    case Trailer(_) => TracksTrailer(fmt, c, buf, hdr);
    case _ => TracksMarker(fmt, c, buf, hdr);
  }

  /** Inside one entry the header stays the same; a new header is a stop state. */
  lemma SuppliedStays(fmt: Format, c: Cursor, w: seq<byte>, hdr: Option<seq<byte>>)
    requires WellFormed(fmt, c) && Supplied(c.at, hdr)
    requires Next(fmt, StateAt(fmt, c.at), w, hdr).Ok?
    ensures Supplied(Follow(fmt, c, w).at, hdr) || Next(fmt, StateAt(fmt, c.at), w, hdr).state == ReceivedHeader
  {
  }

  /** Where validating `w` leads. */
  function FollowRun(fmt: Format, c: Cursor, w: seq<byte>, hdr: Option<seq<byte>>): Cursor
    requires WellFormed(fmt, c) && Supplied(c.at, hdr)
    decreases |w|, Rank(StateAt(fmt, c.at))
  {
    var r := Next(fmt, StateAt(fmt, c.at), w, hdr);
    if r.Err? then c
    else
      NextTracks(fmt, c, w, hdr);
      SuppliedStays(fmt, c, w, hdr);
      var c' := Follow(fmt, c, w);
      if r.state in STOP || r.taken == |w| then c'
      else FollowRun(fmt, c', w[r.taken..], hdr)
  }

  lemma {:induction false} RunTracks(fmt: Format, c: Cursor, w: seq<byte>, hdr: Option<seq<byte>>)
    requires WellFormed(fmt, c) && Supplied(c.at, hdr)
    ensures var r := Run(fmt, STOP, StateAt(fmt, c.at), w, hdr);
            r.Ok? ==>
              var c' := FollowRun(fmt, c, w, hdr);
              && WellFormed(fmt, c')
              && StateAt(fmt, c'.at) == r.state
              && Text(c') == Text(c) + w[..r.taken]
    decreases |w|, Rank(StateAt(fmt, c.at))
  {
    hide Next, Follow, Text, GoodPhase, StateAt;
    var s := StateAt(fmt, c.at);
    var r := Next(fmt, s, w, hdr);
    RunOnce(fmt, STOP, s, w, hdr);
    if r.Ok? {
      NextTracks(fmt, c, w, hdr);
      SuppliedStays(fmt, c, w, hdr);
      if !(r.state in STOP || r.taken == |w|) {
        var c1 := Follow(fmt, c, w);
        RunTracks(fmt, c1, w[r.taken..], hdr);
        var q := Run(fmt, STOP, r.state, w[r.taken..], hdr);
        if q.Ok? {
          assert w[..r.taken] + w[r.taken..][..q.taken] == w[..r.taken + q.taken];
          assert Text(c) + w[..r.taken] + w[r.taken..][..q.taken] == Text(c) + w[..r.taken + q.taken];
        }
      }
    }
  }

  /** Bytes that one transition reads in full. */
  lemma RunOfOneStep(fmt: Format, c: Cursor, w: seq<byte>, hdr: Option<seq<byte>>)
    requires WellFormed(fmt, c) && Supplied(c.at, hdr)
    requires var r := Next(fmt, StateAt(fmt, c.at), w, hdr); r.Ok? ==> r.taken == |w|
    ensures Run(fmt, STOP, StateAt(fmt, c.at), w, hdr) == Next(fmt, StateAt(fmt, c.at), w, hdr)
    ensures Next(fmt, StateAt(fmt, c.at), w, hdr).Ok? ==> FollowRun(fmt, c, w, hdr) == Follow(fmt, c, w)
  {
    hide Next, Follow;
    RunOnce(fmt, STOP, StateAt(fmt, c.at), w, hdr);
  }

  /** How much of a block was read before it is known what it is. */
  function HeadLength(at: Phase): nat {
    if at.Head? then |at.x| else 0
  }

  /** What the first bytes of a block mean before the block is complete, and when it is. */
  function HeadPhase(x: seq<byte>): Phase {
    if |x| < BLOCK_SIZE then Head(x) else if AllZero(x) then Trailer(0) else Headed(x)
  }

  /** Up to a block written between entries starts the next header or the trailer. */
  lemma RunFromBetween(fmt: Format, c: Cursor, w: seq<byte>, hdr: Option<seq<byte>>)
    requires WellFormed(fmt, c) && c.at.Between? && |w| <= BLOCK_SIZE
    ensures var r := Run(fmt, STOP, StateAt(fmt, c.at), w, hdr); r.Ok? && r.taken == |w|
    ensures FollowRun(fmt, c, w, hdr) == c.(at := HeadPhase(w))
  {
    RunOnce(fmt, STOP, ExpectingHeader, w, hdr);
    if w != [] {
      RunOfOneStep(fmt, c.(at := Head([])), w, hdr);
      assert [] + Clip(w, BLOCK_SIZE) == w;
      assert w[0..] == w;
    }
  }

  /** How the counter of a state complements the bytes read since the last complete entry. */
  lemma TailLength(fmt: Format, at: Phase)
    requires GoodPhase(fmt, at)
    ensures match StateAt(fmt, at)
            case ExpectingHeader => |Tail(at)| == 0
            case ReceivingHeader(r, _) => 0 < r && |Tail(at)| + r == BLOCK_SIZE
            case ReceivedHeader => |Tail(at)| == BLOCK_SIZE
            case ReceivingData(r) => at.Body? && |Tail(at)| + r == BLOCK_SIZE + SizeOf(fmt, at.h).value
            case ReceivedData => at.BodyDone? && |Tail(at)| == BLOCK_SIZE + SizeOf(fmt, at.h).value
            case AligningData(r) =>
              var n := SizeOf(fmt, at.h).value;
              at.Pad? && r < BLOCK_SIZE && |Tail(at)| + r == BLOCK_SIZE + (n + PadLen(n))
            case AlignedData =>
              var n := SizeOf(fmt, at.h).value;
              at.Padded? && |Tail(at)| == BLOCK_SIZE + (n + PadLen(n))
            case ReceivingEof(r) => 0 < r <= BLOCK_SIZE && |Tail(at)| + r == 2 * BLOCK_SIZE
            case ReceivedEof => |Tail(at)| == 2 * BLOCK_SIZE
  {
  }

  lemma PaddedBlocks(n: nat)
    ensures (BLOCK_SIZE + (n + PadLen(n))) % BLOCK_SIZE == 0
  {
  }

  /** Every reachable state sits at the offset its counter says, relative to the blocks of the stream. */
  lemma BlockAlignment(fmt: Format, c: Cursor)
    requires WellFormed(fmt, c)
    ensures var s := StateAt(fmt, c.at);
            && (s.ReceivingHeader? ==> 0 < s.hrem <= BLOCK_SIZE && (|Text(c)| + s.hrem) % BLOCK_SIZE == 0)
            && (s.ReceivingData? ==>
                  (|Text(c)| + (s.drem + PadLen(SizeOf(fmt, c.at.h).value))) % BLOCK_SIZE == 0)
            && (s.ReceivedData? ==> (|Text(c)| + PadLen(SizeOf(fmt, c.at.h).value)) % BLOCK_SIZE == 0)
            && (s.AligningData? ==> s.arem < BLOCK_SIZE && (|Text(c)| + s.arem) % BLOCK_SIZE == 0)
            && (s.ReceivingEof? ==> 0 < s.erem <= BLOCK_SIZE && (|Text(c)| + s.erem) % BLOCK_SIZE == 0)
            && (s in {ExpectingHeader, ReceivedHeader, AlignedData, ReceivedEof} ==> |Text(c)| % BLOCK_SIZE == 0)
  {
    hide Tail, Encode, StateAt, PadLen;
    EncodeAligned(fmt, c.done);
    TailLength(fmt, c.at);
    var e := |Encode(c.done)|;
    assert |Text(c)| == e + |Tail(c.at)|;
    var s := StateAt(fmt, c.at);
    if s.ReceivingData? || s.ReceivedData? || s.AligningData? || s.AlignedData? {
      var n := SizeOf(fmt, c.at.h).value;
      PaddedBlocks(n);
      BlocksAdd(e, BLOCK_SIZE + (n + PadLen(n)));
    } else {
      BlocksAdd(e, BLOCK_SIZE);
      BlocksAdd(e, 2 * BLOCK_SIZE);
    }
  }

  /** What entry data means before it is complete, and when it is. */
  function BodyPhase(fmt: Format, h: seq<byte>, d: seq<byte>): Phase {
    if SizeOf(fmt, h) == Some(|d|) then BodyDone(h, d) else Body(h, d)
  }

  /** How many consecutive steps over `buf` read nothing. */
  function IdleSteps(fmt: Format, s: State, buf: seq<byte>, hdr: Option<seq<byte>>): nat
    requires buf != []
    decreases Rank(s)
  {
    var r := Next(fmt, s, buf, hdr);
    if r.Err? || r.taken > 0 then 0 else 1 + IdleSteps(fmt, r.state, buf, hdr)
  }

  lemma {:induction false} IdleStepsRank(fmt: Format, s: State, buf: seq<byte>, hdr: Option<seq<byte>>)
    requires buf != []
    ensures IdleSteps(fmt, s, buf, hdr) <= Rank(s)
    decreases Rank(s)
  {
    hide Rank;
    var r := Next(fmt, s, buf, hdr);
    if r.Ok? && r.taken == 0 {
      hide Next;
      IdleStepsRank(fmt, r.state, buf, hdr);
    }
  }

  /** From any reachable state at most six consecutive steps read nothing; an empty entry takes all six. */
  lemma AtMostSixIdleSteps(fmt: Format, c: Cursor, buf: seq<byte>, hdr: Option<seq<byte>>)
    requires WellFormed(fmt, c) && buf != []
    ensures IdleSteps(fmt, StateAt(fmt, c.at), buf, hdr) <= 6
    ensures c.at.Headed? && hdr == Some(c.at.h) && SizeOf(fmt, c.at.h) == Some(0) ==>
      IdleSteps(fmt, StateAt(fmt, c.at), buf, hdr) == 6
  {
    IdleStepsRank(fmt, StateAt(fmt, c.at), buf, hdr);
    if c.at.Headed? && hdr == Some(c.at.h) && SizeOf(fmt, c.at.h) == Some(0) {
      assert IdleSteps(fmt, ReceivingHeader(BLOCK_SIZE, true), buf, hdr) == 0;
      assert IdleSteps(fmt, ExpectingHeader, buf, hdr) == 1;
      assert IdleSteps(fmt, AlignedData, buf, hdr) == 2;
      assert IdleSteps(fmt, AligningData(0), buf, hdr) == 3;
      assert IdleSteps(fmt, ReceivedData, buf, hdr) == 4;
      assert IdleSteps(fmt, ReceivingData(0), buf, hdr) == 5;
    }
  }

  /** The automaton state tells the phase. */
  lemma StateOfPhase(fmt: Format, at: Phase)
    requires GoodPhase(fmt, at)
    ensures match StateAt(fmt, at)
            case ExpectingHeader => at.Between?
            case ReceivingHeader(r, e) => at.Head? && r == BLOCK_SIZE - |at.x| && e == AllZero(at.x) && r > 0
            case ReceivedHeader => at.Headed?
            case ReceivingData(r) => at.Body? && SizeOf(fmt, at.h) == Some(|at.d| + r)
            case ReceivedData => at.BodyDone? && SizeOf(fmt, at.h) == Some(|at.d|)
            case AligningData(r) => at.Pad? && r == PadLen(|at.d|) - |at.z| && SizeOf(fmt, at.h) == Some(|at.d|)
            case AlignedData => at.Padded?
            case ReceivingEof(r) => at.Trailer? && r == BLOCK_SIZE - at.k && r > 0
            case ReceivedEof => at.Done?
    ensures at.Body? ==> |at.d| < SizeOf(fmt, at.h).value || SizeOf(fmt, at.h) == Some(0)
  {
  }
}
