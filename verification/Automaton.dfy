/** The byte-stream automaton shared by the reader and the writer (src/shared/state.rs). */
module Automaton {
  import opened Bytes
  import opened Format

  datatype State =
    | ExpectingHeader
    | ReceivingHeader(hrem: nat, empty: bool)
    | ReceivedHeader
    | ReceivingData(drem: nat)
    | ReceivedData
    | AligningData(arem: nat)
    | AlignedData
    | ReceivingEof(erem: nat)
    | ReceivedEof
  {
    predicate IsTerminal() {
      this == ReceivedEof || this == ReceivingEof(0)
    }

    predicate IsMarker() {
      ExpectingHeader? || ReceivedHeader? || ReceivedData? || AlignedData? || ReceivedEof?
    }
  }

  /** `MissingHeader` stands for the panic on a transition that needs a header and has none. */
  datatype Malformed = ExpectingEmptyBlock | Eof | BadSize | MissingHeader

  /** A state and the number of bytes read to get there, or the reason why there is none. */
  datatype Step = Ok(state: State, taken: nat) | Err(error: Malformed)

  /** The bytes read by an earlier step count too. */
  function Bump(r: Step, n: nat): Step {
    if r.Ok? then Ok(r.state, r.taken + n) else r
  }

  /** Enters the state that the size field of the header leads to. */
  function Sized(fmt: Format, hdr: Option<seq<byte>>, data: bool): Step {
    if hdr.None? then Err(MissingHeader)
    else
      var size := SizeOf(fmt, hdr.value);
      if size.None? then Err(BadSize)
      else Ok(if data then ReceivingData(size.value) else AligningData(PadLen(size.value)), 0)
  }

  /** One transition. An empty buffer still moves past a marker. */
  function Next(fmt: Format, s: State, buf: seq<byte>, hdr: Option<seq<byte>>): (r: Step)
    ensures r.Ok? ==> r.taken <= |buf|
    ensures r.Ok? && r.taken == 0 && buf != [] ==> Rank(r.state) < Rank(s)
  {
    match s
    case ExpectingHeader => Ok(ReceivingHeader(BLOCK_SIZE, true), 0)
    case ReceivingHeader(rem, empty) =>
      var n := Min(rem, |buf|);
      var e := empty && AllZero(Clip(buf, rem));
      Ok(if rem - n != 0 then ReceivingHeader(rem - n, e)
         else if e then ReceivingEof(BLOCK_SIZE)
         else ReceivedHeader, n)
    case ReceivedHeader => Sized(fmt, hdr, true)
    case ReceivingData(rem) =>
      var n := Min(rem, |buf|);
      Ok(if rem - n == 0 then ReceivedData else ReceivingData(rem - n), n)
    case ReceivedData => Sized(fmt, hdr, false)
    case AligningData(rem) =>
      var n := Min(rem, |buf|);
      Ok(if rem - n == 0 then AlignedData else AligningData(rem - n), n)
    case AlignedData => Ok(ExpectingHeader, 0)
    case ReceivingEof(rem) =>
      var n := Min(rem, |buf|);
      if !AllZero(Clip(buf, rem)) then Err(ExpectingEmptyBlock)
      else Ok(if rem - n == 0 then ReceivedEof else ReceivingEof(rem - n), n)
    case ReceivedEof => Err(Eof)
  }

  /** How many more steps can pass over a non-empty buffer before one of them reads a byte. */
  function Rank(s: State): nat {
    match s
    case ReceivingHeader(rem, _) => if rem == 0 then 7 else 0
    case ReceivedHeader => 6
    case ReceivingData(rem) => if rem == 0 then 5 else 0
    case ReceivedData => 4
    case AligningData(rem) => if rem == 0 then 3 else 0
    case AlignedData => 2
    case ExpectingHeader => 1
    case ReceivingEof(rem) => if rem == 0 then 2 else 0
    case ReceivedEof => 1
  }

  /** Transitions over one buffer until a stop state is reached or the buffer is exhausted. */
  function Run(fmt: Format, stop: set<State>, s: State, buf: seq<byte>, hdr: Option<seq<byte>>): (r: Step)
    ensures r.Ok? ==> r.taken <= |buf|
    ensures r.Ok? && r.state !in stop ==> r.taken == |buf|
    decreases |buf|, Rank(s)
  {
    var r := Next(fmt, s, buf, hdr);
    if r.Err? || r.state in stop || r.taken == |buf| then r
    else Bump(Run(fmt, stop, r.state, buf[r.taken..], hdr), r.taken)
  }

  lemma RunOnce(fmt: Format, stop: set<State>, s: State, buf: seq<byte>, hdr: Option<seq<byte>>)
    ensures var r := Next(fmt, s, buf, hdr);
            Run(fmt, stop, s, buf, hdr) ==
              if r.Err? || r.state in stop || r.taken == |buf| then r
              else Bump(Run(fmt, stop, r.state, buf[r.taken..], hdr), r.taken)
  {
    hide Next;
  }

  /** The states at which validation of a run of slices stops early. */
  const STOP: set<State> := {ReceivedHeader, ReceivedEof}

  /** Validation does not go on past a complete header, nor past the trailer. */
  lemma RunStops(fmt: Format, s: State, w: seq<byte>, hdr: Option<seq<byte>>)
    ensures s.ReceivingHeader? && 0 < s.hrem <= |w| && !(s.empty && AllZero(w[..s.hrem])) ==>
      Run(fmt, STOP, s, w, hdr) == Ok(ReceivedHeader, s.hrem)
    ensures s.ReceivingEof? && 0 < s.erem <= |w| && AllZero(w[..s.erem]) ==>
      Run(fmt, STOP, s, w, hdr) == Ok(ReceivedEof, s.erem)
  {
    RunOnce(fmt, STOP, s, w, hdr);
  }

  predicate OnlyMarkers(stop: set<State>) {
    forall s :: s in stop ==> s.IsMarker()
  }

  /** The loop of `take_until`. */
  method TakeUntil(fmt: Format, stop: set<State>, self: State, buf: seq<byte>, hdr: Option<seq<byte>>)
    returns (r: Step)
    ensures r == Run(fmt, stop, self, buf, hdr)
  {
    hide Next, Run;
    var state, rest := self, buf;
    var cur: nat := 0;
    while true
      invariant Run(fmt, stop, self, buf, hdr) == Bump(Run(fmt, stop, state, rest, hdr), cur)
      decreases |rest|, Rank(state)
    {
      RunOnce(fmt, stop, state, rest, hdr);
      var next := Next(fmt, state, rest, hdr);
      if next.Err? {
        return next;
      }
      state, cur, rest := next.state, cur + next.taken, rest[next.taken..];
      if state in stop || rest == [] {
        break;
      }
    }
    r := Ok(state, cur);
  }

  /** One buffer more: either the step was already over, or it resumes inside the same state. */
  lemma NextSplits(fmt: Format, s: State, a: seq<byte>, b: seq<byte>, hdr: Option<seq<byte>>)
    ensures var ra, rab := Next(fmt, s, a, hdr), Next(fmt, s, a + b, hdr);
            || rab == ra
            || (&& ra.Ok? && ra.taken == |a| && !ra.state.IsMarker()
                && rab == Bump(Next(fmt, ra.state, b, hdr), |a|))
  {
    hide Sized, AllZero, PadLen;
    var rem := match s
      case ReceivingHeader(r, _) => r
      case ReceivingData(r) => r
      case AligningData(r) => r
      case ReceivingEof(r) => r
      case _ => 0;
    ClipAppend(a, b, rem);
    if rem > |a| {
      AllZeroAppend(a, Clip(b, rem - |a|));
    }
  }

  /** Replaying a step over just the bytes it took gives the same step. */
  lemma ReplayNext(fmt: Format, s: State, buf: seq<byte>, hdr: Option<seq<byte>>)
    requires Next(fmt, s, buf, hdr).Ok?
    ensures var r := Next(fmt, s, buf, hdr); Next(fmt, s, buf[..r.taken], hdr) == r
  {
    hide Sized, AllZero, Clip;
    match s
    case ReceivingHeader(rem, _) => ClipTwice(buf, rem);
    case ReceivingData(rem) => ClipTwice(buf, rem);
    case AligningData(rem) => ClipTwice(buf, rem);
    case ReceivingEof(rem) => ClipTwice(buf, rem);
    case _ =>
  }

  /** Running over `a + b` is running over `a`, and then over `b` unless a stop state was reached. */
  lemma {:induction false} RunSplits(
    fmt: Format, stop: set<State>, s: State, a: seq<byte>, b: seq<byte>, hdr: Option<seq<byte>>)
    requires OnlyMarkers(stop)
    requires a != [] && b != []
    ensures var ra := Run(fmt, stop, s, a, hdr);
            Run(fmt, stop, s, a + b, hdr) ==
              if ra.Err? || ra.state in stop then ra
              else Bump(Run(fmt, stop, ra.state, b, hdr), |a|)
    decreases |a|, Rank(s)
  {
    hide Next, Run;
    NextSplits(fmt, s, a, b, hdr);
    var na, nab := Next(fmt, s, a, hdr), Next(fmt, s, a + b, hdr);
    RunOnce(fmt, stop, s, a, hdr);
    RunOnce(fmt, stop, s, a + b, hdr);
    if na.Ok? && na.state !in stop {
      if na.taken < |a| {
        assert (a + b)[na.taken..] == a[na.taken..] + b;
        RunSplits(fmt, stop, na.state, a[na.taken..], b, hdr);
      } else {
        RunOnce(fmt, stop, na.state, b, hdr);
        assert forall m :: 0 <= m <= |b| ==> (a + b)[|a| + m..] == b[m..];
      }
    }
  }

  /** A prefix of bytes that were all read is itself read in full, and the rest resumes from there. */
  lemma ReplayIsSafe(fmt: Format, s: State, w: seq<byte>, n: nat, hdr: Option<seq<byte>>)
    requires n <= |w|
    requires var r := Run(fmt, STOP, s, w, hdr); r.Ok? && r.taken == |w|
    ensures var r := Run(fmt, STOP, s, w[..n], hdr);
            && r.Ok? && r.taken == n
            && (0 < n < |w| ==>
                && r.state !in STOP
                && Run(fmt, STOP, s, w, hdr) == Bump(Run(fmt, STOP, r.state, w[n..], hdr), n))
  {
    hide Next;
    assert w == w[..n] + w[n..];
    if 0 < n < |w| {
      RunSplits(fmt, STOP, s, w[..n], w[n..], hdr);
    } else if n == 0 {
      NextSplits(fmt, s, [], w, hdr);
      RunOnce(fmt, STOP, s, w, hdr);
      RunOnce(fmt, STOP, s, w[..0], hdr);
      assert w[..0] == [] && [] + w == w;
    } else {
      assert w[..n] == w;
    }
  }

  /** What feeding one more non-empty slice tells about the bytes fed so far and about the whole. */
  lemma FeedSlice(fmt: Format, self: State, state: State, fed: seq<byte>, slice: seq<byte>, rest: seq<byte>,
                  hdr: Option<seq<byte>>)
    requires slice != []
    requires if fed == [] then state == self
             else Run(fmt, STOP, self, fed, hdr) == Ok(state, |fed|) && state !in STOP
    ensures var next := Bump(Run(fmt, STOP, state, slice, hdr), |fed|);
            && Run(fmt, STOP, self, fed + slice, hdr) == next
            && (next.Err? || next.state in STOP ==> Run(fmt, STOP, self, fed + slice + rest, hdr) == next)
  {
    hide Next, Run;
    if fed == [] {
      assert fed + slice == slice;
    } else {
      RunSplits(fmt, STOP, self, fed, slice, hdr);
    }
    if rest == [] {
      assert fed + slice + rest == fed + slice;
    } else {
      RunSplits(fmt, STOP, self, fed + slice, rest, hdr);
    }
  }

  /** The fold of `take_slices`: however the bytes are cut up, it is one run over all of them. */
  method TakeSlices(fmt: Format, self: State, slices: seq<seq<byte>>, hdr: Option<seq<byte>>)
    returns (r: Step)
    ensures r == Run(fmt, STOP, self, Concat(slices), hdr)
  {
    hide Next, Run;
    var needsNext, state := true, self;
    var cur: nat := 0;
    ghost var fed := [];
    for i := 0 to |slices|
      invariant fed == Concat(slices[..i]) && cur == |fed|
      invariant needsNext <==> fed == []
      invariant if needsNext then state == self
                else Run(fmt, STOP, self, fed, hdr) == Ok(state, cur) && state !in STOP
    {
      ConcatTake(slices, i);
      var buf := slices[i];
      if buf == [] {
        continue;
      }
      FeedSlice(fmt, self, state, fed, buf, Concat(slices[i + 1..]), hdr);
      var next := TakeUntil(fmt, STOP, state, buf, hdr);
      if next.Err? {
        return next;
      }
      state, cur, needsNext := next.state, cur + next.taken, false;
      if state in STOP {
        return Ok(state, cur);
      }
      fed := fed + buf;
    }
    assert slices[..|slices|] == slices;
    if needsNext {
      var next := TakeUntil(fmt, STOP, state, [], hdr);
      if next.Err? {
        return next;
      }
      state, cur := next.state, cur + next.taken;
    }
    r := Ok(state, cur);
  }
}
