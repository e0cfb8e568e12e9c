/**
  The way of bytes through the write buffer to the sink. Every outcome is a function of the
  schedule and of the situation before the write, so it can be told which situations are harmless
  whatever the sink does, and which are not.
*/
module Outcomes {
  import opened Bytes
  import opened Io

  /** The sink and the capacity of the buffer in front of it. */
  datatype Channel = Channel(schedule: Schedule, vectored: bool, cap: nat) {
    /** What goes through unbuffered: at least a whole buffer, on a sink that takes slices. */
    predicate Passes(k: nat) {
      k >= cap && vectored
    }
  }

  /** The next event, the bytes buffered, and the room behind them. */
  datatype Queue = Queue(clock: nat, queued: nat, free: nat)

  datatype Outcome<+T> = Outcome(answer: Poll<T>, q: Queue)

  /** Sending a queue of `n` bytes, from event `clock` on: the answer, the next event, and what is left. */
  datatype Drain = Drain(answer: Poll<()>, clock: nat, left: nat)

  function Drained(schedule: Schedule, clock: nat, n: nat): (d: Drain)
    ensures d.clock >= clock && d.left <= n && (d.answer.Ready? ==> d.left == 0)
    ensures d.answer.Failed? ==> d.answer.error == Device || (d.answer.error == WriteZero && !NeverZero(schedule))
    decreases n
  {
    if n == 0 then Drain(Ready(()), clock, 0)
    else
      var r := Answer(EventAt(schedule, clock), n);
      if !r.Ready? then Drain(r.PropagateFailure(), clock + 1, n)
      else if r.value == 0 then
        assert EventAt(schedule, clock) == Move(0);
        Drain(Failed(WriteZero), clock + 1, n)
      else Drained(schedule, clock + 1, n - r.value)
  }

  /** One write of what is queued. */
  lemma DrainedOnce(schedule: Schedule, clock: nat, n: nat)
    requires n > 0
    ensures var r := Answer(EventAt(schedule, clock), n);
            Drained(schedule, clock, n) ==
              if !r.Ready? then Drain(r.PropagateFailure(), clock + 1, n)
              else if r.value == 0 then Drain(Failed(WriteZero), clock + 1, n)
              else Drained(schedule, clock + 1, n - r.value)
  {
  }

  lemma NothingToDrain(schedule: Schedule, clock: nat)
    ensures Drained(schedule, clock, 0) == Drain(Ready(()), clock, 0)
  {
  }

  /** Sending what is buffered. */
  function Flushed(ch: Channel, q: Queue): Outcome<()> {
    var d := Drained(ch.schedule, q.clock, q.queued);
    Outcome(d.answer, Queue(d.clock, d.left, if d.answer.Ready? then ch.cap else q.free))
  }

  /**
    Writing `whole` bytes of slices and then a remainder of `rest` bytes to the sink. What happens
    to the remainder is not reported.
  */
  function Passed(ch: Channel, q: Queue, whole: nat, rest: nat): Outcome<nat> {
    var first := Answer(EventAt(ch.schedule, q.clock), whole);
    if !first.Ready? || first.value < whole then Outcome(first, q.(clock := q.clock + 1))
    else
      var second := Answer(EventAt(ch.schedule, q.clock + 1), rest);
      Outcome(Ready(whole + if second.Ready? then second.value else 0), q.(clock := q.clock + 2))
  }

  /** Handing over `whole + rest` bytes. */
  function Handed(ch: Channel, q: Queue, whole: nat, rest: nat): Outcome<nat> {
    var k := whole + rest;
    if !ch.Passes(k) && k <= q.free then Outcome(Ready(k), Queue(q.clock, q.queued + k, q.free - k))
    else
      var f := Flushed(ch, q);
      if !f.answer.Ready? then Outcome(f.answer.PropagateFailure(), f.q)
      else if ch.Passes(k) then Passed(ch, f.q, whole, rest)
      else Outcome(Ready(Min(k, ch.cap)), Queue(f.q.clock, Min(k, ch.cap), ch.cap - Min(k, ch.cap)))
  }

  /** Sending what is buffered, and then asking the sink itself to flush or to shut down. */
  function Sent(ch: Channel, q: Queue): Outcome<()> {
    var f := Flushed(ch, q);
    if !f.answer.Ready? then f
    else Outcome(Control(EventAt(ch.schedule, f.q.clock)), f.q.(clock := f.q.clock + 1))
  }

  /** Finishing an entry explicitly: what is due of its alignment, what is buffered, and the sink itself. */
  function Shut(ch: Channel, q: Queue, due: nat): Outcome<()> {
    var a := Plain(Handed(ch, q, due, 0));
    if !a.answer.Ready? then a else Sent(ch, a.q)
  }

  /** An outcome of which only success matters, not how much was moved. */
  function Plain(o: Outcome<nat>): Outcome<()> {
    Outcome(if o.answer.Ready? then Ready(()) else o.answer.PropagateFailure(), o.q)
  }

  lemma HandedFails(ch: Channel, q: Queue, whole: nat, rest: nat)
    ensures var r := Handed(ch, q, whole, rest).answer;
            && (r.Failed? ==> r.error == Device || (r.error == WriteZero && !NeverZero(ch.schedule)))
            && (r.Ready? ==> r.value <= whole + rest)
    ensures whole + rest <= ch.cap && !ch.Passes(whole + rest) ==>
      var r := Handed(ch, q, whole, rest).answer; r.Ready? ==> r.value == whole + rest
  {
  }

  // Writes that take nothing

  /** Whole slices of which nothing was taken: the last event took nothing. */
  lemma NothingMoved(ch: Channel, q: Queue, whole: nat)
    requires whole > 0 && ch.cap > 0 && Handed(ch, q, whole, 0).answer == Ready(0)
    ensures var c := Handed(ch, q, whole, 0).q.clock; c > q.clock && EventAt(ch.schedule, c - 1) == Move(0)
  {
    hide Drained;
  }

  /**
    On a sink that never accepts nothing, exactly when a write of some bytes is nevertheless
    answered with 0: the bytes pass through, no slice of them is whole, and the remainder, which is
    all there is, has to wait or fails.
  */
  lemma NothingTaken(ch: Channel, q: Queue, whole: nat, rest: nat)
    requires NeverZero(ch.schedule) && ch.cap > 0 && whole + rest > 0
    ensures Handed(ch, q, whole, rest).answer == Ready(0) <==>
      var f := Flushed(ch, q);
      && ch.Passes(whole + rest) && whole == 0 && f.answer.Ready?
      && EventAt(ch.schedule, f.q.clock).Move? && !EventAt(ch.schedule, f.q.clock + 1).Move?
  {
    hide Drained;
    var c := Flushed(ch, q).q.clock;
    assert EventAt(ch.schedule, c) != Move(0) && EventAt(ch.schedule, c + 1) != Move(0);
  }

  /** The answer 0 for a write of some bytes. */
  ghost predicate TakesNothing(schedule: Schedule, vectored: bool, cap: nat, q: Queue, whole: nat, rest: nat) {
    NeverZero(schedule) && Handed(Channel(schedule, vectored, cap), q, whole, rest).answer == Ready(0)
  }

  /** Whatever the sink does: a caller can rely on progress unless bytes pass through with no whole slice. */
  lemma ProgressReliable(vectored: bool, cap: nat, q: Queue, whole: nat, rest: nat)
    requires cap > 0 && whole + rest > 0
    ensures (forall schedule: Schedule :: !TakesNothing(schedule, vectored, cap, q, whole, rest))
      <==> whole > 0 || !(rest >= cap && vectored)
  {
    if whole == 0 && rest >= cap && vectored {
      var t := if q.queued > 0 then q.clock + 1 else q.clock;
      var schedule: Schedule := i => if i == t + 1 then NotReady else Move(q.queued + 1);
      var ch := Channel(schedule, vectored, cap);
      assert forall i: nat :: EventAt(schedule, i) == if i == t + 1 then NotReady else Move(q.queued + 1);
      DrainedAtOnce(schedule, q.clock, q.queued);
      NothingTaken(ch, q, whole, rest);
      assert TakesNothing(schedule, vectored, cap, q, whole, rest);
    } else {
      forall schedule: Schedule ensures !TakesNothing(schedule, vectored, cap, q, whole, rest) {
        if NeverZero(schedule) { NothingTaken(Channel(schedule, vectored, cap), q, whole, rest); }
      }
    }
  }

  /** One event that takes the whole queue. */
  lemma DrainedAtOnce(schedule: Schedule, clock: nat, n: nat)
    requires n > 0 ==> EventAt(schedule, clock).Move? && EventAt(schedule, clock).n >= n
    ensures Drained(schedule, clock, n) == Drain(Ready(()), if n > 0 then clock + 1 else clock, 0)
  {
    assert n > 0 ==> Drained(schedule, clock + 1, 0) == Drain(Ready(()), clock + 1, 0);
  }

  // The alignment that follows the last bytes of an entry

  /** How the write of the alignment ends. None if the bytes are not all taken, so that it is not due yet. */
  function AlignmentAnswer(ch: Channel, q: Queue, whole: nat, rest: nat, pad: nat): Option<Poll<nat>> {
    var h := Handed(ch, q, whole, rest);
    if h.answer != Ready(whole + rest) then None else Some(Handed(ch, h.q, pad, 0).answer)
  }

  /**
    A write of entry data. Once it completes the entry, the alignment is written too: if that waits,
    so does the write, and if it fails, nobody is told.
  */
  function EntryOutcome(ch: Channel, q: Queue, whole: nat, rest: nat, completes: bool, pad: nat): Outcome<nat> {
    var h := Handed(ch, q, whole, rest);
    if !completes || h.answer != Ready(whole + rest) then h
    else
      var a := Handed(ch, h.q, pad, 0);
      Outcome(if a.answer.Pending? then Pending else h.answer, a.q)
  }

  /** The room left in the buffer once `k` bytes were handed over. */
  function RoomAfter(ch: Channel, free: nat, k: nat): nat {
    if ch.Passes(k) then ch.cap
    else if k <= free then free - k
    else ch.cap - Min(k, ch.cap)
  }

  /** If the alignment fits the room that is left, no schedule makes it wait or fail. */
  lemma AlignmentFits(ch: Channel, q: Queue, whole: nat, rest: nat, pad: nat)
    requires pad < ch.cap && pad <= RoomAfter(ch, q.free, whole + rest)
    ensures AlignmentAnswer(ch, q, whole, rest, pad) in {None, Some(Ready(pad))}
  {
    hide Drained;
  }

  /** How the alignment ends on a sink that follows a schedule. */
  function AlignmentOn(schedule: Schedule, ch: Channel, q: Queue, whole: nat, rest: nat, pad: nat): Option<Poll<nat>> {
    AlignmentAnswer(ch.(schedule := schedule), q, whole, rest, pad)
  }

  /**
    Exactly when a caller can rely on it that no wait, and no failure, of the alignment follows bytes
    that were taken, whatever the sink does: when the alignment fits the room left after them, or
    when they are buffered but more than a buffer takes. All of this can be read off before the write.
  */
  lemma AlignmentReliable(ch: Channel, q: Queue, whole: nat, rest: nat, pad: nat)
    requires whole + rest > 0 && q.queued + q.free <= ch.cap && pad < BLOCK_SIZE <= ch.cap
    ensures var k := whole + rest;
            var safe := pad <= RoomAfter(ch, q.free, k) || (k > ch.cap && !ch.Passes(k));
            && ((forall schedule: Schedule :: AlignmentOn(schedule, ch, q, whole, rest, pad) != Some(Pending))
                  <==> safe)
            && ((forall schedule: Schedule :: !(AlignmentOn(schedule, ch, q, whole, rest, pad).Some?
                                                && AlignmentOn(schedule, ch, q, whole, rest, pad).value.Failed?))
                  <==> safe)
  {
    hide Drained;
    var k := whole + rest;
    if pad <= RoomAfter(ch, q.free, k) {
      forall schedule: Schedule
        ensures AlignmentOn(schedule, ch, q, whole, rest, pad) in {None, Some(Ready(pad))}
      {
        AlignmentFits(ch.(schedule := schedule), q, whole, rest, pad);
      }
    } else if k <= ch.cap || ch.Passes(k) {
      AlignmentUnreliable(ch, q, whole, rest, pad, NotReady);
      AlignmentUnreliable(ch, q, whole, rest, pad, Failure);
    }
  }

  /** If the alignment does not fit, a sink that takes the queue and then waits or fails shows it. */
  lemma AlignmentUnreliable(ch: Channel, q: Queue, whole: nat, rest: nat, pad: nat, e: Event)
    requires 0 < whole + rest <= ch.cap && q.queued + q.free <= ch.cap
    requires pad > RoomAfter(ch, q.free, whole + rest) && pad < ch.cap
    requires e == NotReady || e == Failure
    ensures exists schedule: Schedule ::
      AlignmentOn(schedule, ch, q, whole, rest, pad) == Some(if e == NotReady then Pending else Failed(Device))
  {
    var k := whole + rest;
    var t := if k > q.free && q.queued > 0 then q.clock + 1 else q.clock;
    var schedule: Schedule := i => if i < t then Move(q.queued) else e;
    var ch' := ch.(schedule := schedule);
    assert forall i: nat :: EventAt(schedule, i) == if i < t then Move(q.queued) else e;
    DrainedAtOnce(schedule, q.clock, if k > q.free then q.queued else 0);
    assert AlignmentOn(schedule, ch, q, whole, rest, pad) == Some(if e == NotReady then Pending else Failed(Device));
  }

  // The header

  /** Writing the `left` bytes of a header that are missing. */
  function HeaderOutcome(ch: Channel, q: Queue, left: nat): Outcome<()>
    decreases left
  {
    if left == 0 then Outcome(Ready(()), q)
    else
      var h := Handed(ch, q, left, 0);
      if !h.answer.Ready? || h.answer.value >= left then Plain(h)
      else if h.answer.value == 0 then Outcome(Failed(WriteZero), h.q)
      else HeaderOutcome(ch, h.q, left - h.answer.value)
  }

  /**
    What that means: a header that fits is queued, and one that does not is queued once the queue
    was sent. Only a whole header can pass through; then at one event the sink takes some of it, and
    what it does not take is queued.
  */
  lemma HeaderMeans(ch: Channel, q: Queue, left: nat)
    requires 0 < left <= BLOCK_SIZE <= ch.cap
    ensures
      var h, f := HeaderOutcome(ch, q, left), Flushed(ch, q);
      if !ch.Passes(left) && left <= q.free then
        h == Outcome(Ready(()), Queue(q.clock, q.queued + left, q.free - left))
      else if !f.answer.Ready? then h == f
      else if !ch.Passes(left) then h == Outcome(Ready(()), Queue(f.q.clock, left, ch.cap - left))
      else
        match EventAt(ch.schedule, f.q.clock)
        case NotReady => h.answer == Pending
        case Failure => h.answer == Failed(Device)
        case Move(n) =>
          if n == 0 then h.answer == Failed(WriteZero)
          else if n < left then h == Outcome(Ready(()), Queue(f.q.clock + 1, left - n, ch.cap - (left - n)))
          else h == Outcome(Ready(()), Queue(f.q.clock + 2, 0, ch.cap))
  {
    hide Drained;
    var h := Handed(ch, q, left, 0);
    if h.answer.Ready? && 0 < h.answer.value < left {
      var rest := left - h.answer.value;
      assert HeaderOutcome(ch, h.q, rest) == Plain(Handed(ch, h.q, rest, 0));
    }
  }

  // The loop of `finish`

  /** The zeros offered in one round when `left` of the two zero blocks are missing. */
  function ZerosOffered(left: nat): nat {
    if left == 0 then 0 else if left % BLOCK_SIZE == 0 then BLOCK_SIZE else left % BLOCK_SIZE
  }

  /** One round of the loop of `finish`: it answers, or goes on with fewer zeros missing, or as many. */
  datatype Round = Answers(o: Outcome<()>) | GoesOn(q: Queue, left: nat)

  function FinishRound(ch: Channel, q: Queue, left: nat): Round {
    if left == 0 then Answers(Sent(ch, q))
    else
      var h := Handed(ch, q, ZerosOffered(left), 0);
      if h.answer.Ready? then GoesOn(h.q, left - Min(left, h.answer.value))
      else Answers(Plain(h))
  }

  /** What `n` rounds answer. None if they are not enough. */
  function FinishRounds(ch: Channel, q: Queue, left: nat, n: nat): Option<Outcome<()>>
    decreases n
  {
    if n == 0 then None
    else
      match FinishRound(ch, q, left)
      case Answers(o) => Some(o)
      case GoesOn(q', left') => FinishRounds(ch, q', left', n - 1)
  }

  /** The loop ends. */
  ghost predicate FinishEnds(ch: Channel, q: Queue, left: nat) {
    exists n: nat :: FinishRounds(ch, q, left, n).Some?
  }

  lemma FinishNext(ch: Channel, q: Queue, left: nat)
    ensures match FinishRound(ch, q, left)
            case Answers(_) => FinishEnds(ch, q, left)
            case GoesOn(q', left') => FinishEnds(ch, q', left') <==> FinishEnds(ch, q, left)
  {
    match FinishRound(ch, q, left)
    case Answers(_) =>
      assert FinishRounds(ch, q, left, 1).Some?;
    case GoesOn(q', left') =>
      if n: nat :| FinishRounds(ch, q', left', n).Some? {
        assert FinishRounds(ch, q, left, n + 1).Some?;
      }
      if n: nat :| FinishRounds(ch, q, left, n).Some? {
        assert FinishRounds(ch, q', left', n - 1).Some?;
      }
  }

  /** More rounds do not change an answer. */
  lemma {:induction false} SameAnswer(ch: Channel, q: Queue, left: nat, m: nat, n: nat)
    requires m <= n && FinishRounds(ch, q, left, m).Some?
    ensures FinishRounds(ch, q, left, n) == FinishRounds(ch, q, left, m)
    decreases m
  {
    hide FinishRound;
    match FinishRound(ch, q, left)
    case Answers(_) =>
    case GoesOn(q', left') => SameAnswer(ch, q', left', m - 1, n - 1);
  }

  /** Where the loop makes no headway: a zero block passes through to a sink that accepts nothing any more. */
  ghost predicate Stuck(ch: Channel, q: Queue, left: nat) {
    && ch.Passes(BLOCK_SIZE) && left > 0 && left % BLOCK_SIZE == 0 && q.queued == 0
    && forall i :: i >= q.clock ==> EventAt(ch.schedule, i) == Move(0)
  }

  lemma {:induction false} StuckForEver(ch: Channel, q: Queue, left: nat, n: nat)
    requires Stuck(ch, q, left) && ch.cap > 0
    ensures FinishRounds(ch, q, left, n).None?
    decreases n
  {
    if n > 0 {
      var q' := Queue(q.clock + 1, 0, ch.cap);
      assert FinishRound(ch, q, left) == GoesOn(q', left);
      StuckForEver(ch, q', left, n - 1);
    }
  }

  lemma StuckNeverEnds(ch: Channel, q: Queue, left: nat)
    requires Stuck(ch, q, left) && ch.cap > 0
    ensures !FinishEnds(ch, q, left)
  {
    forall n: nat ensures FinishRounds(ch, q, left, n).None? {
      StuckForEver(ch, q, left, n);
    }
  }

  /** A round in which no zeros pass through answers, or completes the block. */
  lemma BufferedRound(ch: Channel, q: Queue, left: nat)
    requires left > 0 && BLOCK_SIZE <= ch.cap && !ch.Passes(ZerosOffered(left))
    ensures var r := FinishRound(ch, q, left);
            r.Answers? || (r.GoesOn? && r.left == left - ZerosOffered(left))
  {
    hide Drained;
  }

  lemma LastRound(ch: Channel, q: Queue)
    ensures FinishEnds(ch, q, 0)
  {
    FinishNext(ch, q, 0);
  }

  /** If no whole zero block passes through, the loop ends. */
  lemma {:induction false} EndsBuffered(ch: Channel, q: Queue, left: nat)
    requires left <= 2 * BLOCK_SIZE <= 2 * ch.cap && (!ch.Passes(BLOCK_SIZE) || left < BLOCK_SIZE)
    ensures FinishEnds(ch, q, left)
    decreases left
  {
    hide FinishRound, FinishEnds;
    if left == 0 {
      LastRound(ch, q);
    } else {
      BufferedRound(ch, q, left);
      FinishNext(ch, q, left);
      match FinishRound(ch, q, left)
      case Answers(_) =>
      case GoesOn(q', left') => EndsBuffered(ch, q', left');
    }
  }

  /** A sink that takes all it is given before event `t`, and nothing from then on. */
  function TakesUntil(t: nat, n: nat): Schedule {
    i => if i < t then Move(n) else Move(0)
  }

  /** From anywhere else, a sink that stops taking bytes at the right moment keeps the loop going for ever. */
  lemma NeverEnds(cap: nat, q: Queue, left: nat) returns (schedule: Schedule)
    requires BLOCK_SIZE == cap && BLOCK_SIZE <= left <= 2 * BLOCK_SIZE && q.queued + q.free <= cap
    ensures !FinishEnds(Channel(schedule, true, cap), q, left)
  {
    hide FinishRounds, FinishEnds;
    var whole := left % BLOCK_SIZE == 0;
    var t := if q.queued > 0 then q.clock + 1 else q.clock;
    if !whole && left % BLOCK_SIZE > q.free && q.queued > 0 { t := t + 1; }
    if !whole && q.queued == 0 { t := t + 1; }
    schedule := TakesUntil(t, 2 * BLOCK_SIZE);
    assert forall i: nat :: EventAt(schedule, i) == if i < t then Move(2 * BLOCK_SIZE) else Move(0);
    var ch := Channel(schedule, true, cap);
    if whole {
      StuckAfterDrain(ch, q, left, t);
    } else {
      DrainedAtOnce(schedule, q.clock, q.queued);
      BufferedRound(ch, q, left);
      FinishNext(ch, q, left);
      var r := FinishRound(ch, q, left);
      StuckAfterDrain(ch, r.q, r.left, t);
    }
  }

  /** The queue is taken at one event, and nothing after that. */
  lemma StuckAfterDrain(ch: Channel, q: Queue, left: nat, t: nat)
    requires ch.cap == BLOCK_SIZE && ch.vectored && left > 0 && left % BLOCK_SIZE == 0
    requires q.queued <= BLOCK_SIZE && t == if q.queued > 0 then q.clock + 1 else q.clock
    requires forall i: nat :: EventAt(ch.schedule, i) == if i < t then Move(2 * BLOCK_SIZE) else Move(0)
    ensures !FinishEnds(ch, q, left)
  {
    DrainedAtOnce(ch.schedule, q.clock, q.queued);
    FinishNext(ch, q, left);
    assert FinishRound(ch, q, left) == GoesOn(Queue(t + 1, 0, ch.cap), left);
    StuckNeverEnds(ch, Queue(t + 1, 0, ch.cap), left);
  }

  /**
    Exactly when `finish` ends whatever the sink does: if zero blocks go through the buffer, or if no
    whole zero block is missing any more.
  */
  lemma FinishReliable(vectored: bool, cap: nat, q: Queue, left: nat)
    requires BLOCK_SIZE <= cap && left <= 2 * BLOCK_SIZE && q.queued + q.free <= cap
    ensures (forall schedule: Schedule :: FinishEnds(Channel(schedule, vectored, cap), q, left))
      <==> !(BLOCK_SIZE >= cap && vectored) || left < BLOCK_SIZE
  {
    if !(BLOCK_SIZE >= cap && vectored) || left < BLOCK_SIZE {
      forall schedule: Schedule ensures FinishEnds(Channel(schedule, vectored, cap), q, left) {
        EndsBuffered(Channel(schedule, vectored, cap), q, left);
      }
    } else {
      var schedule := NeverEnds(cap, q, left);
      assert !FinishEnds(Channel(schedule, vectored, cap), q, left);
    }
  }

  /** At `i` or later the schedule has an event that is not a transfer of nothing. */
  ghost predicate MovesFrom(schedule: Schedule, i: nat) {
    exists j: nat :: j >= i && EventAt(schedule, j) != Move(0)
  }

  ghost function NextMove(schedule: Schedule, i: nat): (j: nat)
    requires MovesFrom(schedule, i)
    ensures j >= i && EventAt(schedule, j) != Move(0)
  {
    var j: nat :| j >= i && EventAt(schedule, j) != Move(0);
    j
  }

  /** Whatever is missing, the loop only goes on for ever if the sink ends up accepting nothing for ever. */
  lemma {:induction false} EndsIfMoves(ch: Channel, q: Queue, left: nat, mover: nat)
    requires forall i: nat :: MovesFrom(ch.schedule, i)
    requires BLOCK_SIZE <= ch.cap && mover >= q.clock && EventAt(ch.schedule, mover) != Move(0)
    ensures FinishEnds(ch, q, left)
    decreases left, if q.queued > 0 then 1 else 0, mover - q.clock
  {
    FinishNext(ch, q, left);
    if FinishRound(ch, q, left).GoesOn? {
      var r := FinishRound(ch, q, left);
      IdleRound(ch, q, left);
      if r.left < left || q.queued > 0 {
        assert MovesFrom(ch.schedule, r.q.clock);
        EndsIfMoves(ch, r.q, r.left, NextMove(ch.schedule, r.q.clock));
      } else {
        EndsIfMoves(ch, r.q, r.left, mover);
      }
    }
  }

  /** A round without headway empties the queue, and if that was empty it was one transfer of nothing. */
  lemma IdleRound(ch: Channel, q: Queue, left: nat)
    requires BLOCK_SIZE <= ch.cap && FinishRound(ch, q, left).GoesOn?
    ensures var r := FinishRound(ch, q, left);
            || r.left < left
            || (r.left == left && r.q.queued == 0
                && (q.queued == 0 ==> r.q.clock == q.clock + 1 && EventAt(ch.schedule, q.clock) == Move(0)))
  {
  }

  /** Enough rounds, if none of them is without headway. */
  function RoundsNeeded(left: nat): nat {
    2 * (left / BLOCK_SIZE) + if left % BLOCK_SIZE == 0 then 1 else 2
  }

  /** If every transfer moves something, the loop ends within a few rounds. */
  lemma {:induction false} EndsSoon(ch: Channel, q: Queue, left: nat, n: nat)
    requires NeverZero(ch.schedule) && BLOCK_SIZE <= ch.cap && n >= RoundsNeeded(left)
    ensures FinishRounds(ch, q, left, n).Some?
    decreases left
  {
    if left > 0 {
      match FinishRound(ch, q, left)
      case Answers(_) =>
      case GoesOn(q', left') =>
        Headway(ch, q, left);
        EndsSoon(ch, q', left', n - 1);
    }
  }

  /** Then a round completes the block, or moves some of a whole one. */
  lemma Headway(ch: Channel, q: Queue, left: nat)
    requires NeverZero(ch.schedule) && BLOCK_SIZE <= ch.cap && left > 0 && FinishRound(ch, q, left).GoesOn?
    ensures var r := FinishRound(ch, q, left); r.left < left && RoundsNeeded(r.left) < RoundsNeeded(left)
  {
    hide Handed;
    var due := ZerosOffered(left);
    HandedFails(ch, q, due, 0);
    NothingTaken(ch, q, due, 0);
  }

  // What the outcome of a write means

  /**
    A write that goes through the buffer: if it fits it needs no event and is taken whole, and if not
    it waits for the queue to be sent, and then as much is taken as an empty buffer holds.
  */
  lemma BufferedWrite(ch: Channel, q: Queue, whole: nat, rest: nat)
    requires !ch.Passes(whole + rest)
    ensures var k, h := whole + rest, Handed(ch, q, whole, rest);
            if k <= q.free then h == Outcome(Ready(k), Queue(q.clock, q.queued + k, q.free - k))
            else
              && (h.answer.Ready? <==> Flushed(ch, q).answer.Ready?)
              && (h.answer.Ready? ==> h.answer.value == h.q.queued == Min(k, ch.cap))
  {
  }

  /** Of a write that passes through, everything is taken if the sink takes it at two events. */
  lemma PassedWrite(ch: Channel, q: Queue, whole: nat, rest: nat)
    requires ch.Passes(whole + rest) && Flushed(ch, q).answer.Ready?
    ensures var c := Flushed(ch, q).q.clock;
            var first, second := EventAt(ch.schedule, c), EventAt(ch.schedule, c + 1);
            first.Move? && first.n >= whole && second.Move? && second.n >= rest ==>
              Handed(ch, q, whole, rest).answer == Ready(whole + rest)
  {
  }
}
