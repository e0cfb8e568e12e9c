/**
  The positions of a stream. Which one the automaton is at can be read off the bytes read so far, up
  to steps that read nothing; so the state a position prescribes is the one a run over its text ends in.
*/
module Reachability {
  import opened Bytes
  import opened Format
  import opened Automaton
  import opened Position
  import opened Grammar

  /** The header a step from here may need. */
  function Own(at: Phase): Option<seq<byte>> {
    if at.HasHeader() then Some(at.h) else None
  }

  function Complete(c: Cursor, e: Entry): Cursor {
    Cursor(c.done + [e], Head([]))
  }

  /** Where steps over no bytes lead in the end. */
  function AfterIdle(fmt: Format, c: Cursor): Cursor
    requires WellFormed(fmt, c)
  {
    match c.at
    case Between => c.(at := Head([]))
    case Headed(h) =>
      if SizeOf(fmt, h).None? then c
      else if SizeOf(fmt, h).value == 0 then Complete(c, Entry(h, [], []))
      else c.(at := Body(h, []))
    case Body(h, d) => if SizeOf(fmt, h) == Some(0) then Complete(c, Entry(h, [], [])) else c
    case BodyDone(h, d) =>
      if PadLen(|d|) == 0 then Complete(c, Entry(h, d, [])) else c.(at := Pad(h, d, []))
    case Pad(h, d, z) => if PadLen(|d|) == 0 then Complete(c, Entry(h, d, [])) else c
    case Padded(h, d, z) => Complete(c, Entry(h, d, z))
    case _ => c
  }

  lemma OneIdleStep(fmt: Format, c: Cursor)
    requires WellFormed(fmt, c)
    ensures var r := Next(fmt, StateAt(fmt, c.at), [], Own(c.at));
            if r.Err? || r.state == StateAt(fmt, c.at) then AfterIdle(fmt, c) == c
            else
              var c' := Follow(fmt, c, []);
              && WellFormed(fmt, c') && StateAt(fmt, c'.at) == r.state && Text(c') == Text(c)
              && AfterIdle(fmt, c') == AfterIdle(fmt, c) && Rank(r.state) < Rank(StateAt(fmt, c.at))
  {
    hide Text, Encode, EntryBytes;
    NextTracks(fmt, c, [], Own(c.at));
    assert Next(fmt, StateAt(fmt, c.at), [], Own(c.at)).Ok? ==> Text(c) + [] == Text(c);
  }

  /** Steps over no bytes, for as long as they lead anywhere. */
  function Idled(fmt: Format, c: Cursor): Cursor
    requires WellFormed(fmt, c)
    decreases Rank(StateAt(fmt, c.at))
  {
    var r := Next(fmt, StateAt(fmt, c.at), [], Own(c.at));
    if r.Err? || r.state == StateAt(fmt, c.at) then c
    else
      OneIdleStep(fmt, c);
      Idled(fmt, Follow(fmt, c, []))
  }

  lemma {:induction false} IdledIs(fmt: Format, c: Cursor)
    requires WellFormed(fmt, c)
    ensures Idled(fmt, c) == AfterIdle(fmt, c)
    decreases Rank(StateAt(fmt, c.at))
  {
    hide Next, Follow, AfterIdle, GoodPhase, StateAt;
    OneIdleStep(fmt, c);
    var r := Next(fmt, StateAt(fmt, c.at), [], Own(c.at));
    if r.Ok? && r.state != StateAt(fmt, c.at) {
      IdledIs(fmt, Follow(fmt, c, []));
    }
  }

  /** A sequence splits at a known length in only one way. */
  lemma SameSplit(a: seq<byte>, a': seq<byte>, w: seq<byte>, w': seq<byte>)
    requires a + w == a' + w' && |a| == |a'|
    ensures a == a' && w == w'
  {
    assert (a + w)[..|a|] == a && (a' + w')[..|a|] == a';
    assert (a + w)[|a|..] == w && (a' + w')[|a|..] == w';
  }

  /** Two whole entries in front are the same. */
  lemma SameEntry(fmt: Format, e: Entry, e': Entry, w: seq<byte>, w': seq<byte>)
    requires WellFormedEntry(fmt, e) && WellFormedEntry(fmt, e')
    requires EntryBytes(e) + w == EntryBytes(e') + w'
    ensures e == e' && w == w'
  {
    hide PadLen, AllZero;
    RegroupEntry(e, w);
    RegroupEntry(e', w');
    SameSplit(e.header, e'.header, e.data + (e.pad + w), e'.data + (e'.pad + w'));
    SameSplit(e.data, e'.data, e.pad + w, e'.pad + w');
    SameSplit(e.pad, e'.pad, w, w');
  }

  /** What was read of the current entry is that of at most one entry, and then of a complete one. */
  lemma TailOfEntry(fmt: Format, at: Phase, e: Entry, w: seq<byte>)
    requires GoodPhase(fmt, at) && WellFormedEntry(fmt, e)
    requires Tail(at) == EntryBytes(e) + w
    ensures w == [] && AfterIdle(fmt, Cursor([], at)) == Cursor([e], Head([]))
  {
    hide AllZero, PadLen;
    RegroupEntry(e, w);
    var rest := e.data + (e.pad + w);
    match at
    case Headed(h) =>
      assert Tail(at) == h + [];
      SameSplit(h, e.header, [], rest);
    case Body(h, d) =>
      SameSplit(h, e.header, d, rest);
    case BodyDone(h, d) =>
      SameSplit(h, e.header, d, rest);
      assert d + [] == d;
      SameSplit(d, e.data, [], e.pad + w);
    case Pad(h, d, z) =>
      assert Tail(at) == h + (d + z);
      SameSplit(h, e.header, d + z, rest);
      SameSplit(d, e.data, z, e.pad + w);
    case Padded(h, d, z) =>
      assert Tail(at) == h + (d + z);
      SameSplit(h, e.header, d + z, rest);
      SameSplit(d, e.data, z, e.pad + w);
      SameSplit(z, e.pad, [], w);
    case Trailer(k) => ZeroFront(e, rest, Tail(at));
    case Done => ZeroFront(e, rest, Tail(at));
    case _ =>
  }

  lemma ZeroFront(e: Entry, rest: seq<byte>, t: seq<byte>)
    requires AllZero(t) && t == e.header + rest
    ensures AllZero(e.header)
  {
    assert forall i :: 0 <= i < |e.header| ==> t[i] == e.header[i];
  }

  /** The position, after steps over no bytes, that the bytes since the last complete entry call for. */
  function Placed(fmt: Format, t: seq<byte>): Cursor {
    if |t| < BLOCK_SIZE then Cursor([], Head(t))
    else
      var h, rest := t[..BLOCK_SIZE], t[BLOCK_SIZE..];
      if AllZero(h) then Cursor([], if |rest| < BLOCK_SIZE then Trailer(|rest|) else Done)
      else if SizeOf(fmt, h).None? then Cursor([], Headed(h))
      else
        var n := SizeOf(fmt, h).value;
        if |rest| < n then Cursor([], Body(h, rest))
        else
          var d, z := rest[..n], rest[n..];
          if |z| < PadLen(n) then Cursor([], Pad(h, d, z)) else Cursor([Entry(h, d, z)], Head([]))
  }

  lemma TailPlaced(fmt: Format, at: Phase)
    requires GoodPhase(fmt, at)
    ensures AfterIdle(fmt, Cursor([], at)) == Placed(fmt, Tail(at))
  {
    hide PadLen;
    var t := Tail(at);
    match at
    case Headed(h) => assert t[..BLOCK_SIZE] == h && t[BLOCK_SIZE..] == [];
    case Body(h, d) => assert t[..BLOCK_SIZE] == h && t[BLOCK_SIZE..] == d;
    case BodyDone(h, d) => assert t[..BLOCK_SIZE] == h && t[BLOCK_SIZE..] == d && d[..|d|] == d && d[|d|..] == [];
    case Pad(h, d, z) => AssembledTail(h, d, z);
    case Padded(h, d, z) => AssembledTail(h, d, z);
    case _ =>
  }

  lemma AssembledTail(h: seq<byte>, d: seq<byte>, z: seq<byte>)
    requires |h| == BLOCK_SIZE
    ensures var t := h + d + z;
            t[..BLOCK_SIZE] == h && t[BLOCK_SIZE..][..|d|] == d && t[BLOCK_SIZE..][|d|..] == z
  {
  }

  lemma PrependEntry(fmt: Format, e: Entry, c: Cursor)
    requires WellFormed(fmt, c) && c.done != [] && c.done[0] == e
    ensures var rest := c.(done := c.done[1..]);
            && WellFormed(fmt, rest) && Text(c) == EntryBytes(e) + Text(rest)
            && AfterIdle(fmt, c) == Cursor([e] + AfterIdle(fmt, rest).done, AfterIdle(fmt, rest).at)
  {
    assert EntryBytes(e) + (Encode(c.done[1..]) + Tail(c.at)) == EntryBytes(e) + Encode(c.done[1..]) + Tail(c.at);
    assert c.done == [e] + c.done[1..];
    var f := AfterIdle(fmt, c).done;
    assert |f| > |c.done| ==> [e] + (c.done[1..] + [f[|c.done|]]) == c.done + [f[|c.done|]];
  }

  lemma NoText(fmt: Format, c: Cursor)
    requires WellFormed(fmt, c) && Text(c) == []
    ensures AfterIdle(fmt, c) == Cursor([], Head([]))
  {
    assert c.done != [] ==> WellFormedEntry(fmt, c.done[0]);
  }

  /** An entry that is not yet known to be complete, and the position past it. */
  lemma CompleteOrNot(fmt: Format, c: Cursor, c': Cursor)
    requires WellFormed(fmt, c) && WellFormed(fmt, c') && Text(c) == Text(c')
    requires c.done == [] && c'.done != []
    ensures AfterIdle(fmt, c) == AfterIdle(fmt, c')
  {
    hide AfterIdle, Tail;
    assert [] + Tail(c.at) == Tail(c.at);
    var rest := c'.(done := c'.done[1..]);
    PrependEntry(fmt, c'.done[0], c');
    assert WellFormedEntry(fmt, c'.done[0]);
    TailOfEntry(fmt, c.at, c'.done[0], Text(rest));
    NoText(fmt, rest);
  }

  /**
    The bytes read determine the position up to steps that read nothing. So a state that goes with a
    position is the state of the automaton at its offset.
  */
  lemma {:induction false} TextDetermines(fmt: Format, c: Cursor, c': Cursor)
    requires WellFormed(fmt, c) && WellFormed(fmt, c') && Text(c) == Text(c')
    ensures Idled(fmt, c) == Idled(fmt, c')
    decreases |c.done|
  {
    hide AfterIdle, Idled, GoodPhase;
    IdledIs(fmt, c);
    IdledIs(fmt, c');
    if c.done == [] && c'.done == [] {
      assert [] + Tail(c.at) == Tail(c.at) && [] + Tail(c'.at) == Tail(c'.at);
      TailPlaced(fmt, c.at);
      TailPlaced(fmt, c'.at);
    } else if c.done == [] {
      CompleteOrNot(fmt, c, c');
    } else if c'.done == [] {
      CompleteOrNot(fmt, c', c);
    } else {
      hide Text, Tail;
      var e, e' := c.done[0], c'.done[0];
      var rest, rest' := c.(done := c.done[1..]), c'.(done := c'.done[1..]);
      PrependEntry(fmt, e, c);
      PrependEntry(fmt, e', c');
      assert WellFormedEntry(fmt, e) && WellFormedEntry(fmt, e');
      SameEntry(fmt, e, e', Text(rest), Text(rest'));
      TextDetermines(fmt, rest, rest');
      IdledIs(fmt, rest);
      IdledIs(fmt, rest');
    }
  }

  /** A position past the zero block has nothing but zeros there. */
  lemma ZeroRest(fmt: Format, c: Cursor, es: seq<Entry>, k: nat, rest: seq<byte>)
    requires WellFormed(fmt, c) && WellFormedEntries(fmt, es) && k <= BLOCK_SIZE && rest != []
    requires Text(c) == Encode(es) + Zeros(BLOCK_SIZE + k) + rest
    ensures c.at.Trailer? || c.at.Done?
    ensures AllZero(rest) && k + |rest| <= BLOCK_SIZE
  {
    var z, tail := Zeros(BLOCK_SIZE), Zeros(k) + rest;
    assert Zeros(BLOCK_SIZE + k) == z + Zeros(k);
    assert Text(c) == Stream(es, z, tail);
    Located(fmt, c, es, z, tail);
    WithinLength(fmt, c, es, z);
    assert Text(c)[|Encode(es)| + BLOCK_SIZE + k..] == rest;
    assert Text(c)[|Encode(es)|..] == Tail(c.at);
    assert AllZero(Tail(c.at));
    forall i | 0 <= i < |rest| ensures rest[i] == 0 {
      assert rest[i] == Tail(c.at)[BLOCK_SIZE + k + i];
    }
  }

  /** A run over the text of a position cannot fail. */
  lemma NotStuck(fmt: Format, c: Cursor, c': Cursor, rest: seq<byte>, e: Malformed)
    requires WellFormed(fmt, c) && WellFormed(fmt, c') && Text(c') + rest == Text(c)
    ensures !Stuck(fmt, c'.at, rest, e) || rest == []
  {
    if rest != [] && Stuck(fmt, c'.at, rest, e) {
      if e == BadSize {
        assert Text(c) == Stream(c'.done, c'.at.h, rest);
        Located(fmt, c, c'.done, c'.at.h, rest);
        WithinLength(fmt, c, c'.done, c'.at.h);
      } else {
        ZeroRest(fmt, c, c'.done, if e == Eof then BLOCK_SIZE else c'.at.k, rest);
      }
    }
  }

  /** The automaton, run over the text of a position, ends at that position up to steps that read nothing. */
  lemma RunReaches(fmt: Format, c: Cursor) returns (c': Cursor)
    requires WellFormed(fmt, c)
    ensures WellFormed(fmt, c') && Text(c') == Text(c) && Idled(fmt, c') == Idled(fmt, c)
    ensures Verdict(fmt, Text(c)).Ok? && Verdict(fmt, Text(c)).state == StateAt(fmt, c'.at)
  {
    hide Text, GoodPhase, StateAt, Drive, Idled, Stuck;
    StartText(Text(c));
    AtStart(fmt);
    var rest;
    c', rest := DriveFollows(fmt, START, [], Text(c));
    var r := Verdict(fmt, Text(c));
    if r.Err? {
      NotStuck(fmt, c, c', rest, r.error);
    } else {
      assert Text(c') + [] == Text(c');
      TextDetermines(fmt, c, c');
    }
  }
}
