/** The moves of the writer: what each kind of write does to the position in the stream. */
module WriterSteps {
  import opened Bytes
  import opened Format
  import opened Automaton
  import opened Position
  import opened Io
  import opened Outcomes

  /** An entry's header is being added, or about to be. */
  ghost predicate Adding(at: Phase, header: seq<byte>) {
    || at.Between?
    || (at.Head? && !AllZero(at.x) && at.x <= header)
    || (at.Headed? && at.h == header)
  }

  ghost predicate InEntry(at: Phase) {
    at.Body? || at.BodyDone? || at.Pad? || at.Padded?
  }

  /** The alignment bytes written so far are zeros, as the reference encoding has them. */
  ghost predicate ZeroPadded(c: Cursor) {
    && (forall i :: 0 <= i < |c.done| ==> AllZero(c.done[i].pad))
    && (c.at.Pad? || c.at.Padded? ==> AllZero(c.at.z))
  }

  ghost function HeaderLeft(at: Phase): nat {
    match at
    case Between => BLOCK_SIZE + 2
    case Head(x) => if |x| <= BLOCK_SIZE then BLOCK_SIZE + 1 - |x| else 0
    case _ => 0
  }

  /** How much of a header is missing. */
  function HeaderDue(at: Phase): nat {
    if at.Headed? || HeadLength(at) > BLOCK_SIZE then 0 else BLOCK_SIZE - HeadLength(at)
  }

  lemma NoHeaderLeft(at: Phase, ch: Channel, q: Queue)
    requires at.Headed?
    ensures HeaderOutcome(ch, q, HeaderDue(at)) == Outcome(Ready(()), q)
  {
  }

  /** How adding an entry ends: inside another it fails, and otherwise once the header is written its size counts. */
  function AddOutcome(fmt: Format, ch: Channel, q: Queue, at: Phase, header: seq<byte>): Outcome<()> {
    if at.Body? || at.BodyDone? || at.Pad? || at.Padded? then Outcome(Failed(OverlappingEntry), q)
    else
      var h := HeaderOutcome(ch, q, HeaderDue(at));
      if h.answer.Ready? && SizeOf(fmt, header).None? then Outcome(Failed(Data(BadSize)), h.q) else h
  }

  /** The bytes are valid here and the automaton takes all of them. */
  ghost predicate ReadsAll(fmt: Format, c: Cursor, w: seq<byte>, hdr: Option<seq<byte>>)
    requires WellFormed(fmt, c)
  {
    var q := Run(fmt, STOP, StateAt(fmt, c.at), w, hdr);
    q.Ok? && q.taken == |w|
  }

  /** Where `n` bytes of the header lead, from where it was left. */
  function HeaderTo(at: Phase, header: seq<byte>, n: nat): Phase {
    HeadPhase(Clip(header, HeadLength(at) + n))
  }

  /** Nothing is valid any more after the trailer. */
  lemma NotDone(fmt: Format, at: Phase, w: seq<byte>, hdr: Option<seq<byte>>)
    requires GoodPhase(fmt, at) && Run(fmt, STOP, StateAt(fmt, at), w, hdr).Ok?
    ensures !at.Done?
  {
  }

  /** The header, from where it was left: any `n` bytes of it are valid and lead `n` bytes further. */
  lemma HeaderPart(fmt: Format, c: Cursor, header: seq<byte>, n: nat)
    requires WellFormed(fmt, c) && IsHeader(header)
    requires Adding(c.at, header) && !c.at.Headed?
    requires HeadLength(c.at) + n <= BLOCK_SIZE
    ensures var w := header[HeadLength(c.at)..][..n];
            && ReadsAll(fmt, c, w, Some(header))
            && FollowRun(fmt, c, w, Some(header)) == c.(at := HeaderTo(c.at, header, n))
            && (HeadLength(c.at) + n == BLOCK_SIZE ==> w == header[HeadLength(c.at)..])
  {
    var pos := HeadLength(c.at);
    var w := header[pos..][..n];
    TakeMore(header, pos, n);
    if c.at.Between? {
      assert w == header[..n];
      RunFromBetween(fmt, c, w, Some(header));
    } else {
      assert c.at.x == header[..pos] && Clip(w, BLOCK_SIZE - pos) == w;
      RunOfOneStep(fmt, c, w, Some(header));
    }
  }

  /** Unless a partial header is all zeros it is resumed as a header, and every byte brings it nearer its end. */
  lemma HeaderProgress(at: Phase, header: seq<byte>, n: nat)
    requires IsHeader(header) && Adding(at, header) && !at.Headed?
    requires HeadLength(at) + n <= BLOCK_SIZE && HeadLength(at) < BLOCK_SIZE
    ensures var at' := HeaderTo(at, header, n);
            && !at'.Pad? && !at'.Padded?
            && (at.Head? || HeadLength(at) + n == BLOCK_SIZE || (header[0] != 0 && n > 0) ==> Adding(at', header))
            && (n > 0 ==> !at'.Between? && HeaderLeft(at') < HeaderLeft(at))
            && HeaderDue(at') == BLOCK_SIZE - HeadLength(at) - n
            && (n == 0 ==> at' == if at.Head? then at else Head([]))
            && (HeadLength(at) + n == BLOCK_SIZE ==> at' == Headed(header))
  {
    var x := header[..HeadLength(at) + n];
    assert x != [] ==> x[0] == header[0];
    if at.Head? {
      TakeMore(header, |at.x|, n);
      assert x == at.x + header[|at.x|..][..n];
      assert n == 0 ==> x == at.x;
      AllZeroAppend(at.x, header[|at.x|..][..n]);
    }
  }

  /** Only alignment bytes count for the alignment. */
  lemma StillZeroPadded(c: Cursor, at: Phase)
    requires ZeroPadded(c) && !at.Pad? && !at.Padded?
    ensures ZeroPadded(c.(at := at))
  {
  }

  lemma HeaderMarker(fmt: Format, c: Cursor, header: seq<byte>)
    requires WellFormed(fmt, c) && c.at == Headed(header)
    ensures var r := Next(fmt, StateAt(fmt, c.at), [], Some(header));
            if r.Err? then r.error == BadSize && SizeOf(fmt, header).None?
            else
              var c' := c.(at := Body(header, []));
              && SizeOf(fmt, header).Some?
              && WellFormed(fmt, c') && r.state == StateAt(fmt, c'.at) && Text(c') == Text(c)
              && (ZeroPadded(c) ==> ZeroPadded(c'))
  {
    NextTracks(fmt, c, [], Some(header));
    if SizeOf(fmt, header).Some? {
      assert Follow(fmt, c, []) == c.(at := Body(header, []));
    }
  }

  /** A header can be resumed after every possible short write exactly when it does not start with a zero byte. */
  lemma ResumableHeaders(fmt: Format, header: seq<byte>)
    requires |header| == BLOCK_SIZE
    ensures header[0] != 0 <==>
      forall k :: 0 < k < BLOCK_SIZE ==>
        Run(fmt, STOP, ExpectingHeader, header[..k], Some(header)) == Ok(ReceivingHeader(BLOCK_SIZE - k, false), k)
  {
    forall k | 0 < k < BLOCK_SIZE
      ensures Run(fmt, STOP, ExpectingHeader, header[..k], Some(header))
        == Ok(ReceivingHeader(BLOCK_SIZE - k, AllZero(header[..k])), k)
    {
      RunFromBetween(fmt, START, header[..k], Some(header));
      RunTracks(fmt, START, header[..k], Some(header));
    }
    assert header[..1][0] == header[0];
    if header[0] != 0 {
      forall k | 0 < k < BLOCK_SIZE ensures !AllZero(header[..k]) {
        assert header[..k][0] == header[0];
      }
    } else {
      assert AllZero(header[..1]);
      assert Run(fmt, STOP, ExpectingHeader, header[..1], Some(header)) == Ok(ReceivingHeader(BLOCK_SIZE - 1, true), 1);
    }
  }

  /** Entry data: any bytes are valid, up to the size of the entry. */
  lemma BodyPart(fmt: Format, c: Cursor, w: seq<byte>)
    requires WellFormed(fmt, c) && c.at.Body?
    requires |c.at.d| + |w| <= SizeOf(fmt, c.at.h).value
    ensures ReadsAll(fmt, c, w, Some(c.at.h))
    ensures FollowRun(fmt, c, w, Some(c.at.h)) == c.(at := BodyPhase(fmt, c.at.h, c.at.d + w))
  {
    assert Clip(w, SizeOf(fmt, c.at.h).value - |c.at.d|) == w;
    RunOfOneStep(fmt, c, w, Some(c.at.h));
  }

  function PadPhase(h: seq<byte>, d: seq<byte>, z: seq<byte>): Phase {
    if |z| == PadLen(|d|) then Padded(h, d, z) else Pad(h, d, z)
  }

  lemma PadPart(fmt: Format, c: Cursor, w: seq<byte>)
    requires WellFormed(fmt, c) && c.at.Pad?
    requires |c.at.z| + |w| <= PadLen(|c.at.d|)
    ensures ReadsAll(fmt, c, w, Some(c.at.h))
    ensures FollowRun(fmt, c, w, Some(c.at.h)) == c.(at := PadPhase(c.at.h, c.at.d, c.at.z + w))
  {
    assert Clip(w, PadLen(|c.at.d|) - |c.at.z|) == w;
    RunOfOneStep(fmt, c, w, Some(c.at.h));
  }

  /** The two zero blocks are being written, or about to be. */
  ghost predicate Finishing(at: Phase) {
    at.Between? || (at.Head? && AllZero(at.x)) || at.Trailer? || at.Done?
  }

  /** How many bytes of the two zero blocks are missing. */
  function ZerosMissing(at: Phase): nat {
    match at
    case Between => 2 * BLOCK_SIZE
    case Head(x) => if |x| < BLOCK_SIZE then 2 * BLOCK_SIZE - |x| else 0
    case Trailer(k) => if k < BLOCK_SIZE then BLOCK_SIZE - k else 0
    case _ => 0
  }

  /** The states of an archive that is being finished, and the zeros each round offers from there. */
  lemma FinishingStates(fmt: Format, at: Phase)
    requires GoodPhase(fmt, at) && Finishing(at)
    ensures ZerosMissing(at) <= 2 * BLOCK_SIZE
    ensures match StateAt(fmt, at)
            case ExpectingHeader => ZerosOffered(ZerosMissing(at)) == BLOCK_SIZE && !at.Done? && ZerosMissing(at) > 0
            case ReceivingHeader(rem, empty) =>
              empty && ZerosOffered(ZerosMissing(at)) == rem > 0 && !at.Done? && ZerosMissing(at) > 0
            case ReceivingEof(rem) => ZerosOffered(ZerosMissing(at)) == rem > 0 && !at.Done? && ZerosMissing(at) > 0
            case ReceivedEof => at.Done? && ZerosMissing(at) == 0
            case _ => false
  {
  }

  /** Any `n` of the zeros that are due are valid, and bring the trailer `n` bytes closer to its end. */
  lemma TrailerPart(fmt: Format, c: Cursor, n: nat)
    requires WellFormed(fmt, c) && Finishing(c.at) && !c.at.Done?
    requires n <= ZerosOffered(ZerosMissing(c.at))
    ensures ReadsAll(fmt, c, Zeros(n), None)
    ensures var c' := FollowRun(fmt, c, Zeros(n), None);
            c'.done == c.done && Finishing(c'.at) && ZerosMissing(c'.at) == ZerosMissing(c.at) - n
  {
    var w := Zeros(n);
    match c.at
    case Between =>
      RunFromBetween(fmt, c, w, None);
    case Head(x) =>
      assert Clip(w, BLOCK_SIZE - |x|) == w;
      AllZeroAppend(x, w);
      RunOfOneStep(fmt, c, w, None);
    case Trailer(k) =>
      assert w[..n] == w;
      RunOfOneStep(fmt, c, w, None);
  }

  /** The entry being written, with the alignment the reference encoding gives it. */
  function WithZeros(at: Phase): Entry
    requires InEntry(at)
  {
    Entry(at.h, at.d, Zeros(PadLen(|at.d|)))
  }

  /** The position after the current entry is finished. */
  function Finished(c: Cursor): Cursor {
    if c.at.BodyDone? || c.at.Pad? || c.at.Padded? then Cursor(c.done + [WithZeros(c.at)], Between) else c
  }

  /** Where a finishing entry waits if its alignment cannot be written yet. */
  function AwaitingPad(c: Cursor): Cursor {
    if c.at.BodyDone? then c.(at := Pad(c.at.h, c.at.d, [])) else c
  }

  /** The alignment that finishing an entry from here has to write. */
  ghost function PadDue(c: Cursor): nat {
    match AwaitingPad(c).at
    case Pad(_, d, z) => if |z| <= PadLen(|d|) then PadLen(|d|) - |z| else 0
    case _ => 0
  }

  ghost predicate InFinish(at: Phase, header: seq<byte>) {
    at.Between? || ((at.BodyDone? || at.Pad? || at.Padded?) && at.h == header)
  }

  ghost function FinishRank(at: Phase): nat {
    if at.BodyDone? then 3 else if at.Pad? then 2 else if at.Padded? then 1 else 0
  }

  /** What there is to write before the entry is finished. */
  lemma PadDues(fmt: Format, c: Cursor)
    requires WellFormed(fmt, c)
    ensures c.at.Between? || c.at.Padded? ==> PadDue(c) == 0
    ensures c.at.Between? ==> Finished(c) == c
    ensures c.at.Pad? ==> PadDue(c) == PadLen(|c.at.d|) - |c.at.z| && AwaitingPad(c) == c
    ensures c.at.BodyDone? ==>
      var c' := c.(at := Pad(c.at.h, c.at.d, []));
      AwaitingPad(c') == AwaitingPad(c) && PadDue(c') == PadDue(c)
  {
  }

  /** Marker transitions of a finishing entry need no I/O and keep the text. */
  lemma FinishMarkers(fmt: Format, c: Cursor)
    requires WellFormed(fmt, c) && ZeroPadded(c)
    ensures c.at.BodyDone? ==>
      var r := Next(fmt, StateAt(fmt, c.at), [], Some(c.at.h));
      var c' := c.(at := Pad(c.at.h, c.at.d, []));
      && WellFormed(fmt, c') && r == Ok(StateAt(fmt, c'.at), 0)
      && Text(c') == Text(c) && Finished(c') == Finished(c) && ZeroPadded(c')
    ensures c.at.Padded? ==>
      var r := Next(fmt, StateAt(fmt, c.at), [], None);
      var c' := Finished(c);
      && WellFormed(fmt, c') && r == Ok(StateAt(fmt, c'.at), 0)
      && Text(c') == Text(c) && ZeroPadded(c')
  {
    if c.at.BodyDone? {
      NextTracks(fmt, c, [], Some(c.at.h));
    } else if c.at.Padded? {
      NextTracks(fmt, c, [], None);
      ZeroRun(c.at.z);
      assert Follow(fmt, c, []) == Finished(c);
    }
  }

  lemma AllPadding(fmt: Format, c: Cursor)
    requires WellFormed(fmt, c) && c.at.Pad? && ZeroPadded(c)
    ensures var due := PadLen(|c.at.d|) - |c.at.z|;
            && ReadsAll(fmt, c, Zeros(due), Some(c.at.h))
            && var c' := FollowRun(fmt, c, Zeros(due), Some(c.at.h));
               c'.at.Padded? && c'.at.h == c.at.h && c'.done == c.done && ZeroPadded(c') && Finished(c') == Finished(c)
  {
    var due := PadLen(|c.at.d|) - |c.at.z|;
    PadPart(fmt, c, Zeros(due));
    AllZeroAppend(c.at.z, Zeros(due));
  }

  lemma TextOfArchive(c: Cursor)
    requires c.at.Done?
    ensures Text(c) == Archive(c.done)
  {
  }
}
