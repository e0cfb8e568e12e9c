/**
  The I/O object an archive wraps. Each poll is answered by the next event of an arbitrary
  schedule, so a statement about a sink or a source holds for every timing, every split into short
  writes or reads, and every failure.
*/
module Io {
  import opened Bytes
  import opened Automaton

  /** `Panic` stands for a failed assertion, `unwrap` or slice operation. */
  datatype Error =
    | Data(cause: Malformed) | WriteZero | OverlappingEntry | UnexpectedEof | InvalidHeader | Device | Panic

  /** `Poll<Result<T>>`. As with `ready!(..)?`, anything but a value returns from the caller. */
  datatype Poll<+T> = Ready(value: T) | Pending | Failed(error: Error) {
    predicate IsFailure() {
      !Ready?
    }

    function PropagateFailure<U>(): Poll<U>
      requires IsFailure()
    {
      if Pending? then Pending else Failed(error)
    }

    function Extract(): T
      requires Ready?
    {
      value
    }
  }

  /** `Move(n)` transfers up to `n` bytes. */
  datatype Event = Move(n: nat) | NotReady | Failure

  type Schedule = nat -> Event

  function EventAt(schedule: Schedule, i: nat): Event {
    schedule(i)
  }

  function Answer(e: Event, n: nat): Poll<nat> {
    match e
    case Move(k) => Ready(Min(k, n))
    case NotReady => Pending
    case Failure => Failed(Device)
  }

  /** The answer to a request that moves no bytes. */
  function Control(e: Event): Poll<()> {
    if e.Move? then Ready(()) else if e.NotReady? then Pending else Failed(Device)
  }

  /** The contract of a live I/O object: a transfer moves something if there is something to move. */
  ghost predicate NeverZero(schedule: Schedule) {
    forall i :: EventAt(schedule, i) != Move(0)
  }

  /** A poll is pending, or fails, only because its last event said so. */
  ghost predicate Blames<T>(schedule: Schedule, from: nat, clock: nat, r: Poll<T>) {
    && from <= clock
    && (r.Pending? ==> from < clock && EventAt(schedule, clock - 1) == NotReady)
    && (r.Failed? && r.error == Device ==> from < clock && EventAt(schedule, clock - 1) == Failure)
    && (r.Failed? && r.error == WriteZero ==> from < clock && EventAt(schedule, clock - 1) == Move(0))
  }

  class Sink {
    const vectored: bool
    const schedule: Schedule
    var clock: nat
    /** The bytes accepted so far. */
    var received: seq<byte>
    /** How many bytes had been accepted when the sink was last flushed, and when it was last shut down. */
    var flushed: Option<nat>
    var closed: Option<nat>

    constructor (vectored: bool, schedule: Schedule)
      ensures this.vectored == vectored && this.schedule == schedule
      ensures clock == 0 && received == [] && flushed == closed == None
    {
      this.vectored, this.schedule := vectored, schedule;
      clock, received, flushed, closed := 0, [], None, None;
    }

    method PollWrite(bytes: seq<byte>) returns (r: Poll<nat>)
      modifies this`clock, this`received
      ensures clock == old(clock) + 1
      ensures r == Answer(EventAt(schedule, old(clock)), |bytes|)
      ensures received == old(received) + if r.Ready? then bytes[..r.value] else []
    {
      r := Answer(EventAt(schedule, clock), |bytes|);
      clock := clock + 1;
      if r.Ready? {
        received := received + bytes[..r.value];
      }
    }

    method PollWriteVectored(slices: seq<seq<byte>>) returns (r: Poll<nat>)
      modifies this`clock, this`received
      ensures clock == old(clock) + 1
      ensures r == Answer(EventAt(schedule, old(clock)), |Concat(slices)|)
      ensures received == old(received) + if r.Ready? then Concat(slices)[..r.value] else []
    {
      r := PollWrite(Concat(slices));
    }

    /** Flushing or shutting down the sink itself moves no bytes. */
    method PollFlush() returns (r: Poll<()>)
      modifies this`clock, this`flushed
      ensures clock == old(clock) + 1
      ensures r == Control(EventAt(schedule, old(clock)))
      ensures flushed == if r.Ready? then Some(|received|) else old(flushed)
    {
      r := Control(EventAt(schedule, clock));
      clock := clock + 1;
      if r.Ready? {
        flushed := Some(|received|);
      }
    }

    method PollShutdown() returns (r: Poll<()>)
      modifies this`clock, this`closed
      ensures clock == old(clock) + 1
      ensures r == Control(EventAt(schedule, old(clock)))
      ensures closed == if r.Ready? then Some(|received|) else old(closed)
    {
      r := Control(EventAt(schedule, clock));
      clock := clock + 1;
      if r.Ready? {
        closed := Some(|received|);
      }
    }
  }

  /** Transfers of whole blocks, each of at least one. Only the end of the data can cut one short. */
  ghost predicate WholeBlocks(schedule: Schedule) {
    forall i :: EventAt(schedule, i).Move? ==>
      EventAt(schedule, i).n > 0 && EventAt(schedule, i).n % BLOCK_SIZE == 0
  }

  /** A read of `n` bytes, cut short by the room or by the end of the data, keeps to whole blocks. */
  lemma PulledBlocks(schedule: Schedule, i: nat, room: nat, off: nat, total: nat)
    requires WholeBlocks(schedule) && EventAt(schedule, i).Move?
    requires IsBlocks(room) && off <= total && (IsBlocks(off) || off == total)
    ensures var n := Min(EventAt(schedule, i).n, Min(room, total - off));
            (IsBlocks(off + n) || off + n == total) && (n > 0 ==> IsBlocks(off))
  {
  }

  class Source {
    const data: seq<byte>
    const schedule: Schedule
    var clock: nat
    /** How many bytes have been pulled. */
    var off: nat

    constructor (data: seq<byte>, schedule: Schedule)
      ensures this.data == data && this.schedule == schedule
      ensures clock == 0 && off == 0
    {
      this.data, this.schedule := data, schedule;
      clock, off := 0, 0;
    }

    /** Reads into `dst` from `start` on. */
    method PollRead(dst: array<byte>, start: nat) returns (r: Poll<nat>)
      requires start <= dst.Length && off <= |data|
      modifies this`clock, this`off, dst
      ensures clock == old(clock) + 1
      ensures r == Answer(EventAt(schedule, old(clock)), Min(dst.Length - start, |data| - old(off)))
      ensures off == old(off) + (if r.Ready? then r.value else 0) <= |data|
      ensures dst[..start] == old(dst[..start])
      ensures r.Ready? ==> dst[start..start + r.value] == data[old(off)..off]
    {
      r := Answer(EventAt(schedule, clock), Min(dst.Length - start, |data| - off));
      clock := clock + 1;
      if r.Ready? {
        var n := r.value;
        forall i | 0 <= i < n {
          dst[start + i] := data[off + i];
        }
        off := off + n;
      }
    }
  }
}
