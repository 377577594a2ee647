/**
 * Data mode: the relay between the terminal (DTE) and a data connection (DCE). Direction 0 goes from the
 * terminal to the connection, direction 1 back. What poll, read and write report is a parameter.
 */
module Relay {
  import opened Ctype

  const SECOND: nat := 1000000000
  const POLLIN: nat := 1
  const POLLOUT: nat := 4
  const ESCAPE: seq<Byte> := [43, 43, 43]

  // ------------------------------------------------------------------ the environment

  /** What read reports on a source; the clock is read just before. */
  datatype Reading = NotReadable | ReadAgain | ReadError | ReadEnd | Data(bytes: seq<Byte>, now: nat)

  /** What write reports on a destination. */
  datatype Writing = NotWritable | WriteAgain | WriteError | Wrote(n: nat)

  /** One return from poll: for i in 0 and 1, the source of direction i, then the destination of the other one. */
  datatype Round = Round(inputs: seq<Reading>, outputs: seq<Writing>)

  // ------------------------------------------------------------------ the reference

  /** A direction: all bytes read from its source, all bytes written to its destination, and what waits. */
  datatype Direction = Direction(got: seq<Byte>, sent: seq<Byte>, pending: seq<Byte>)

  datatype Link = Link(forth: Direction, back: Direction, lastRx: nat) {
    function Dir(i: nat): Direction {
      if i == 0 then forth else back
    }

    function With(i: nat, d: Direction): Link {
      if i == 0 then this.(forth := d) else this.(back := d)
    }
  }

  const IDLE := Link(Direction([], [], []), Direction([], [], []), 0)

  /** Nothing is lost, duplicated or reordered: what was read is what was written and what waits. */
  predicate Conserved(d: Direction) {
    d.got == d.sent + d.pending
  }

  predicate AllConserved(l: Link) {
    Conserved(l.forth) && Conserved(l.back)
  }

  /** New data replaces the buffer. */
  function Receive(d: Direction, bytes: seq<Byte>): Direction {
    Direction(d.got + bytes, d.sent, bytes)
  }

  function Transmit(d: Direction, n: nat): Direction
    requires n <= |d.pending|
  {
    Direction(d.got, d.sent + d.pending[..n], d.pending[n..])
  }

  predicate IsEscape(l: Link, i: nat, bytes: seq<Byte>, now: nat) {
    i == 0 && bytes == ESCAPE && now - l.lastRx >= SECOND
  }

  datatype Progress = Continue | SkipWrite | Stop

  /** The reading part for source i. */
  function AfterRead(l: Link, i: nat, r: Reading): (Link, Progress)
    requires i < 2
  {
    match r
    case NotReadable => (l, Continue)
    case ReadAgain => (l, SkipWrite)
    case ReadError => (l, Stop)
    case ReadEnd => (l, Stop)
    case Data(bytes, now) =>
      if IsEscape(l, i, bytes, now) then (l, Stop)
      else (l.With(i, Receive(l.Dir(i), bytes)).(lastRx := now), Continue)
  }

  /** The writing part for direction j. */
  function AfterWrite(l: Link, j: nat, w: Writing): (Link, bool)
    requires j < 2 && (w.Wrote? ==> w.n <= |l.Dir(j).pending|)
  {
    match w
    case NotWritable => (l, false)
    case WriteAgain => (l, false)
    case WriteError => (l, true)
    case Wrote(n) => (l.With(j, Transmit(l.Dir(j), n)), false)
  }

  /** The contract of read and write: at least one byte and at most the buffer; at most what was asked. */
  predicate TurnAllowed(l: Link, mtu: nat, i: nat, r: Reading, w: Writing)
    requires i < 2
  {
    && (r.Data? ==> 1 <= |r.bytes| <= mtu)
    && (AfterRead(l, i, r).1 == Continue && w.Wrote? ==> w.n <= |AfterRead(l, i, r).0.Dir(1 - i).pending|)
  }

  /** One turn of the inner loop; true when the relay is over. */
  function Turn(l: Link, mtu: nat, i: nat, r: Reading, w: Writing): (Link, bool)
    requires i < 2 && TurnAllowed(l, mtu, i, r, w)
  {
    var (l', progress) := AfterRead(l, i, r);
    match progress
    case Continue => AfterWrite(l', 1 - i, w)
    case SkipWrite => (l', false)
    case Stop => (l', true)
  }

  predicate RoundAllowed(l: Link, mtu: nat, round: Round)
  {
    && |round.inputs| == 2 && |round.outputs| == 2
    && TurnAllowed(l, mtu, 0, round.inputs[0], round.outputs[0])
    && var (l1, over) := Turn(l, mtu, 0, round.inputs[0], round.outputs[0]);
       over || TurnAllowed(l1, mtu, 1, round.inputs[1], round.outputs[1])
  }

  function AfterRound(l: Link, mtu: nat, round: Round): (Link, bool)
    requires RoundAllowed(l, mtu, round)
  {
    var (l1, over) := Turn(l, mtu, 0, round.inputs[0], round.outputs[0]);
    if over then (l1, true) else Turn(l1, mtu, 1, round.inputs[1], round.outputs[1])
  }

  predicate RunAllowed(l: Link, mtu: nat, rounds: seq<Round>)
    decreases |rounds|
  {
    rounds == [] ||
    (RoundAllowed(l, mtu, rounds[0]) &&
     var (l1, over) := AfterRound(l, mtu, rounds[0]); over || RunAllowed(l1, mtu, rounds[1..]))
  }

  function AfterRun(l: Link, mtu: nat, rounds: seq<Round>): Link
    requires RunAllowed(l, mtu, rounds)
    decreases |rounds|
  {
    if rounds == [] then l
    else
      var (l1, over) := AfterRound(l, mtu, rounds[0]);
      if over then l1 else AfterRun(l1, mtu, rounds[1..])
  }

  // ------------------------------------------------------------------ conservation

  /** Bytes are missing: fewer were written and wait than were read. */
  predicate Short(d: Direction) {
    |d.got| > |d.sent| + |d.pending|
  }

  predicate SomeShort(l: Link) {
    Short(l.forth) || Short(l.back)
  }

  /** What a read does to a direction: it keeps all bytes when nothing waits, and loses those that wait. */
  lemma ReceiveConservesIff(d: Direction, bytes: seq<Byte>)
    requires Conserved(d)
    ensures Conserved(Receive(d, bytes)) <==> d.pending == []
    ensures d.pending != [] ==> Short(Receive(d, bytes))
  {
    if d.pending != [] {
      assert |d.got + bytes| != |d.sent + bytes|;
    }
  }

  lemma TransmitConserves(d: Direction, n: nat)
    requires n <= |d.pending|
    ensures Conserved(d) ==> Conserved(Transmit(d, n))
    ensures Short(d) ==> Short(Transmit(d, n))
  {
    assert d.pending == d.pending[..n] + d.pending[n..];
  }

  /** Data (other than an intercepted escape) only comes while nothing waits in its direction. */
  predicate SafeTurn(l: Link, i: nat, r: Reading)
    requires i < 2
  {
    r.Data? && !IsEscape(l, i, r.bytes, r.now) ==> l.Dir(i).pending == []
  }

  predicate SafeRound(l: Link, mtu: nat, round: Round)
    requires RoundAllowed(l, mtu, round)
  {
    && SafeTurn(l, 0, round.inputs[0])
    && var (l1, over) := Turn(l, mtu, 0, round.inputs[0], round.outputs[0]);
       over || SafeTurn(l1, 1, round.inputs[1])
  }

  predicate SafeRun(l: Link, mtu: nat, rounds: seq<Round>)
    requires RunAllowed(l, mtu, rounds)
    decreases |rounds|
  {
    rounds == [] ||
    (SafeRound(l, mtu, rounds[0]) &&
     var (l1, over) := AfterRound(l, mtu, rounds[0]); over || SafeRun(l1, mtu, rounds[1..]))
  }

  lemma ReadConservesIff(l: Link, i: nat, r: Reading)
    requires i < 2
    ensures AllConserved(l) ==>
              if SafeTurn(l, i, r) then AllConserved(AfterRead(l, i, r).0) else SomeShort(AfterRead(l, i, r).0)
    ensures SomeShort(l) ==> SomeShort(AfterRead(l, i, r).0)
  {
    hide Conserved;
    if r.Data? && Conserved(l.Dir(i)) {
      ReceiveConservesIff(l.Dir(i), r.bytes);
    }
  }

  lemma WriteConserves(l: Link, j: nat, w: Writing)
    requires j < 2 && (w.Wrote? ==> w.n <= |l.Dir(j).pending|)
    ensures AllConserved(l) ==> AllConserved(AfterWrite(l, j, w).0)
    ensures SomeShort(l) ==> SomeShort(AfterWrite(l, j, w).0)
  {
    hide Conserved, Short;
    if w.Wrote? {
      TransmitConserves(l.Dir(j), w.n);
    }
  }

  /** An unsafe turn loses bytes, and what is lost stays lost. */
  lemma TurnConservesIff(l: Link, mtu: nat, i: nat, r: Reading, w: Writing)
    requires i < 2 && TurnAllowed(l, mtu, i, r, w)
    ensures AllConserved(l) ==>
              if SafeTurn(l, i, r) then AllConserved(Turn(l, mtu, i, r, w).0) else SomeShort(Turn(l, mtu, i, r, w).0)
    ensures SomeShort(l) ==> SomeShort(Turn(l, mtu, i, r, w).0)
  {
    hide AllConserved, SomeShort, SafeTurn, AfterWrite, AfterRead;
    ReadConservesIff(l, i, r);
    if AfterRead(l, i, r).1 == Continue {
      WriteConserves(AfterRead(l, i, r).0, 1 - i, w);
    }
  }

  lemma RoundConservesIff(l: Link, mtu: nat, round: Round)
    requires RoundAllowed(l, mtu, round)
    ensures AllConserved(l) ==>
              if SafeRound(l, mtu, round) then AllConserved(AfterRound(l, mtu, round).0)
              else SomeShort(AfterRound(l, mtu, round).0)
    ensures SomeShort(l) ==> SomeShort(AfterRound(l, mtu, round).0)
  {
    hide AllConserved, SomeShort, SafeTurn, Turn, TurnAllowed;
    TurnConservesIff(l, mtu, 0, round.inputs[0], round.outputs[0]);
    var (l1, over) := Turn(l, mtu, 0, round.inputs[0], round.outputs[0]);
    if !over {
      TurnConservesIff(l1, mtu, 1, round.inputs[1], round.outputs[1]);
    }
  }

  lemma {:induction false} ShortStays(l: Link, mtu: nat, rounds: seq<Round>)
    requires RunAllowed(l, mtu, rounds) && SomeShort(l)
    ensures SomeShort(AfterRun(l, mtu, rounds))
    decreases |rounds|
  {
    hide AfterRound, RoundAllowed, SomeShort;
    if rounds == [] {
    } else {
      RoundConservesIff(l, mtu, rounds[0]);
      var (l1, over) := AfterRound(l, mtu, rounds[0]);
      if !over {
        ShortStays(l1, mtu, rounds[1..]);
      }
    }
  }

  lemma ShortIsNotConserved(l: Link)
    requires SomeShort(l)
    ensures !AllConserved(l)
  {
  }

  /**
   * Over every run, in each direction, the bytes read (an intercepted escape excepted) are the bytes written
   * followed by the bytes that wait, if and only if data only ever comes while nothing waits.
   */
  lemma {:induction false} RunConservesIff(l: Link, mtu: nat, rounds: seq<Round>)
    requires RunAllowed(l, mtu, rounds) && AllConserved(l)
    ensures AllConserved(AfterRun(l, mtu, rounds)) <==> SafeRun(l, mtu, rounds)
    decreases |rounds|
  {
    hide AllConserved, SomeShort, AfterRound, RoundAllowed, SafeRound;
    if rounds == [] {
    } else {
      RoundConservesIff(l, mtu, rounds[0]);
      var (l1, over) := AfterRound(l, mtu, rounds[0]);
      if !SafeRound(l, mtu, rounds[0]) {
        if !over {
          ShortStays(l1, mtu, rounds[1..]);
        }
        ShortIsNotConserved(AfterRun(l, mtu, rounds));
      } else if !over {
        RunConservesIff(l1, mtu, rounds[1..]);
      }
    }
  }

  // ------------------------------------------------------------------ what moves

  /** The reading is data, and not three plus signs from the terminal after a second of silence. */
  predicate IsReceived(l: Link, i: nat, r: Reading) {
    r.Data? && !(i == 0 && r.bytes == [43, 43, 43] && r.now - l.lastRx >= 1000000000)
  }

  /** The turn comes to its write. */
  predicate ReachesWrite(l: Link, i: nat, r: Reading) {
    r.NotReadable? || IsReceived(l, i, r)
  }

  /** The bytes that write takes in a turn. */
  function TakenInTurn(l: Link, i: nat, r: Reading, w: Writing): nat {
    if ReachesWrite(l, i, r) && w.Wrote? then w.n else 0
  }

  function ReadInTurn(l: Link, i: nat, r: Reading): seq<Byte> {
    if IsReceived(l, i, r) then r.bytes else []
  }

  /**
   * One turn for source i, in full: what is received is added to what was read and becomes what waits; what write
   * takes goes, from the front of what waits in the other direction, to what was sent.
   */
  lemma TurnMoves(l: Link, mtu: nat, i: nat, r: Reading, w: Writing)
    requires i < 2 && TurnAllowed(l, mtu, i, r, w)
    ensures TakenInTurn(l, i, r, w) <= |l.Dir(1 - i).pending|
    ensures var (l', over) := Turn(l, mtu, i, r, w);
            var n := TakenInTurn(l, i, r, w);
            && l'.Dir(i).got == l.Dir(i).got + ReadInTurn(l, i, r) && l'.Dir(i).sent == l.Dir(i).sent
            && l'.Dir(i).pending == (if IsReceived(l, i, r) then r.bytes else l.Dir(i).pending)
            && l'.Dir(1 - i).got == l.Dir(1 - i).got
            && l'.Dir(1 - i).sent == l.Dir(1 - i).sent + l.Dir(1 - i).pending[..n]
            && l'.Dir(1 - i).pending == l.Dir(1 - i).pending[n..]
            && l'.lastRx == (if IsReceived(l, i, r) then r.now else l.lastRx)
            && (over <==> r.ReadError? || r.ReadEnd? || (r.Data? && !IsReceived(l, i, r))
                          || (ReachesWrite(l, i, r) && w.WriteError?))
  {
    var d := l.Dir(1 - i);
    assert d.pending[..0] == [] && d.pending[0..] == d.pending && d.sent + [] == d.sent;
    assert l.Dir(i).got + [] == l.Dir(i).got;
  }

  /** What is read for direction j in a round, and what write takes of it: read in turn j, written in the other. */
  function ReadInRound(l: Link, mtu: nat, round: Round, j: nat): seq<Byte>
    requires RoundAllowed(l, mtu, round)
  {
    var (l1, over) := Turn(l, mtu, 0, round.inputs[0], round.outputs[0]);
    if j == 0 then ReadInTurn(l, 0, round.inputs[0]) else if over then [] else ReadInTurn(l1, 1, round.inputs[1])
  }

  function TakenInRound(l: Link, mtu: nat, round: Round, j: nat): nat
    requires RoundAllowed(l, mtu, round)
  {
    var (l1, over) := Turn(l, mtu, 0, round.inputs[0], round.outputs[0]);
    if j == 1 then TakenInTurn(l, 0, round.inputs[0], round.outputs[0])
    else if over then 0
    else TakenInTurn(l1, 1, round.inputs[1], round.outputs[1])
  }

  lemma RoundMoves(l: Link, mtu: nat, round: Round, j: nat)
    requires RoundAllowed(l, mtu, round) && j < 2
    ensures var l' := AfterRound(l, mtu, round).0;
            && l'.Dir(j).got == l.Dir(j).got + ReadInRound(l, mtu, round, j)
            && |l'.Dir(j).sent| == |l.Dir(j).sent| + TakenInRound(l, mtu, round, j)
  {
    hide Turn, TurnAllowed, TakenInTurn, ReadInTurn, IsReceived, ReachesWrite;
    TurnMoves(l, mtu, 0, round.inputs[0], round.outputs[0]);
    var (l1, over) := Turn(l, mtu, 0, round.inputs[0], round.outputs[0]);
    if !over {
      TurnMoves(l1, mtu, 1, round.inputs[1], round.outputs[1]);
    }
  }

  /** And over a run. */
  function ReadInRun(l: Link, mtu: nat, rounds: seq<Round>, j: nat): seq<Byte>
    requires RunAllowed(l, mtu, rounds)
    decreases |rounds|
  {
    if rounds == [] then []
    else
      var (l1, over) := AfterRound(l, mtu, rounds[0]);
      ReadInRound(l, mtu, rounds[0], j) + if over then [] else ReadInRun(l1, mtu, rounds[1..], j)
  }

  function TakenInRun(l: Link, mtu: nat, rounds: seq<Round>, j: nat): nat
    requires RunAllowed(l, mtu, rounds)
    decreases |rounds|
  {
    if rounds == [] then 0
    else
      var (l1, over) := AfterRound(l, mtu, rounds[0]);
      TakenInRound(l, mtu, rounds[0], j) + if over then 0 else TakenInRun(l1, mtu, rounds[1..], j)
  }

  /** Over every run, what was read is what read returned, and as many bytes were sent as write took. */
  lemma {:induction false} RunMoves(l: Link, mtu: nat, rounds: seq<Round>, j: nat)
    requires RunAllowed(l, mtu, rounds) && j < 2
    ensures AfterRun(l, mtu, rounds).Dir(j).got == l.Dir(j).got + ReadInRun(l, mtu, rounds, j)
    ensures |AfterRun(l, mtu, rounds).Dir(j).sent| == |l.Dir(j).sent| + TakenInRun(l, mtu, rounds, j)
    decreases |rounds|
  {
    hide AfterRound, RoundAllowed, ReadInRound, TakenInRound;
    if rounds == [] {
    } else {
      RoundMoves(l, mtu, rounds[0], j);
      var (l1, over) := AfterRound(l, mtu, rounds[0]);
      if !over {
        RunMoves(l1, mtu, rounds[1..], j);
        assert l.Dir(j).got + ReadInRound(l, mtu, rounds[0], j) + ReadInRun(l1, mtu, rounds[1..], j) ==
               l.Dir(j).got + (ReadInRound(l, mtu, rounds[0], j) + ReadInRun(l1, mtu, rounds[1..], j));
      }
    }
  }

  // ------------------------------------------------------------------ by the contract of poll

  /**
   * The contract of poll: a source is only ready when it was polled for input, that is while its buffer
   * is empty. (Errors and hang-ups are assumed to be reported on a source under the same condition.)
   */
  predicate PollKept(l: Link, round: Round)
    requires |round.inputs| == 2
  {
    && (l.forth.pending != [] ==> round.inputs[0] == NotReadable)
    && (l.back.pending != [] ==> round.inputs[1] == NotReadable)
  }

  predicate PollKeptThroughout(l: Link, mtu: nat, rounds: seq<Round>)
    requires RunAllowed(l, mtu, rounds)
    decreases |rounds|
  {
    rounds == [] ||
    (PollKept(l, rounds[0]) &&
     var (l1, over) := AfterRound(l, mtu, rounds[0]); over || PollKeptThroughout(l1, mtu, rounds[1..]))
  }

  /** The first turn of a round puts nothing into the buffer of the second one. */
  lemma PollKeptIsSafeRound(l: Link, mtu: nat, round: Round)
    requires RoundAllowed(l, mtu, round) && PollKept(l, round)
    ensures SafeRound(l, mtu, round)
  {
  }

  lemma {:induction false} PollKeptIsSafe(l: Link, mtu: nat, rounds: seq<Round>)
    requires RunAllowed(l, mtu, rounds) && PollKeptThroughout(l, mtu, rounds)
    ensures SafeRun(l, mtu, rounds)
    decreases |rounds|
  {
    hide AfterRound, RoundAllowed, SafeRound, PollKept;
    if rounds == [] {
    } else {
      PollKeptIsSafeRound(l, mtu, rounds[0]);
      var (l1, over) := AfterRound(l, mtu, rounds[0]);
      if !over {
        PollKeptIsSafe(l1, mtu, rounds[1..]);
      }
    }
  }

  /** Over every run in which poll reports sources by its contract, nothing is lost. */
  lemma RelayConserves(l: Link, mtu: nat, rounds: seq<Round>)
    requires RunAllowed(l, mtu, rounds) && PollKeptThroughout(l, mtu, rounds) && AllConserved(l)
    ensures AllConserved(AfterRun(l, mtu, rounds))
  {
    hide AllConserved, AfterRun, SafeRun, PollKeptThroughout, RunAllowed;
    PollKeptIsSafe(l, mtu, rounds);
    RunConservesIff(l, mtu, rounds);
  }

  const NO_OUTPUT: seq<Writing> := [NotWritable, NotWritable]

  /** One byte comes and waits; then the terminal hangs up, which makes it readable although not polled. */
  function HangUpRun(first: Byte, second: Byte): seq<Round> {
    [Round([Data([first], 0), NotReadable], NO_OUTPUT), Round([Data([second], 0), NotReadable], NO_OUTPUT)]
  }

  /** What is read after a hang-up overwrites what waits: the first byte is never written. */
  lemma HangUpLosesBytes(first: Byte, second: Byte, mtu: nat)
    requires mtu >= 1
    ensures var rounds := HangUpRun(first, second);
            && RunAllowed(IDLE, mtu, rounds) && !SafeRun(IDLE, mtu, rounds)
            && AfterRun(IDLE, mtu, rounds).forth == Direction([first, second], [], [second])
  {
    var rounds := HangUpRun(first, second);
    var l1 := Link(Direction([first], [], [first]), IDLE.back, 0);
    var l2 := Link(Direction([first, second], [], [second]), IDLE.back, 0);
    assert [] + [first] == [first] && [first] + [second] == [first, second];
    assert RoundAllowed(IDLE, mtu, rounds[0]) && AfterRound(IDLE, mtu, rounds[0]) == (l1, false);
    assert RoundAllowed(l1, mtu, rounds[1]) && AfterRound(l1, mtu, rounds[1]) == (l2, false);
    assert rounds[1..][0] == rounds[1] && rounds[1..][1..] == [];
    assert RunAllowed(l1, mtu, rounds[1..]) && AfterRun(l1, mtu, rounds[1..]) == l2;
    assert !SafeRun(l1, mtu, rounds[1..]);
  }

  // ------------------------------------------------------------------ the program's relay

  function Piece(memory: seq<Byte>, at: nat, n: nat): (p: seq<Byte>)
    requires at + n <= |memory|
    ensures |p| == n
  {
    memory[at..at + n]
  }

  lemma PieceDrains(memory: seq<Byte>, at: nat, n: nat, k: nat)
    requires at + n <= |memory| && k <= n
    ensures Piece(memory, at + k, n - k) == Piece(memory, at, n)[k..]
  {
  }

  /** Writing over one half leaves every piece of the other half alone. */
  lemma PiecesAfterCopy(before: seq<Byte>, after: seq<Byte>, base: nat, data: seq<Byte>, at: nat, n: nat)
    requires |before| == |after| && base + |data| <= |before| && at + n <= |before|
    requires forall k :: 0 <= k < |before| ==>
               after[k] == if base <= k < base + |data| then data[k - base] else before[k]
    requires at + n <= base || base + |data| <= at
    ensures Piece(after, base, |data|) == data && Piece(after, at, n) == Piece(before, at, n)
  {
  }

  class Pump {
    const mtu: nat
    var len: seq<nat>
    var offset: seq<nat>
    var bytes: seq<nat>
    var bufs: array<Byte>
    var events: seq<nat>
    var lastRx: nat
    ghost var link: Link

    function Base(i: nat): nat {
      if i == 0 then 0 else mtu
    }

    /** The buffer of direction i holds what waits, and the counter at its far end what was delivered. */
    ghost predicate Holds(i: nat, d: Direction)
      requires i < 2 && |len| == |offset| == |bytes| == 2 && bufs.Length == mtu + mtu
      reads this, bufs
    {
      && offset[i] + len[i] <= mtu
      && d.pending == Piece(bufs[..], Base(i) + offset[i], len[i])
      && bytes[1 - i] == |d.sent|
    }

    ghost predicate Valid()
      reads this, bufs
    {
      && |len| == |offset| == |bytes| == 2 && |events| == 4 && bufs.Length == mtu + mtu
      && Holds(0, link.forth) && Holds(1, link.back) && lastRx == link.lastRx
    }

    constructor (mtu: nat)
      ensures Valid() && link == IDLE && this.mtu == mtu && fresh(bufs)
    {
      this.mtu := mtu;
      len, offset, bytes, events := [0, 0], [0, 0], [0, 0], [0, 0, 0, 0];
      bufs := new Byte[mtu + mtu];
      lastRx, link := 0, IDLE;
    }

    /** Direction i waits for exactly one of its two ends: its source when nothing waits, else its destination. */
    ghost predicate WaitsForOneEnd(i: nat)
      requires i < 2 && |events| == 4
      reads this
    {
      if link.Dir(i).pending == [] then events[i] == POLLIN && events[3 - i] == 0
      else events[i] == 0 && events[3 - i] == POLLOUT
    }

    method SetEvents()
      requires Valid()
      modifies this`events
      ensures Valid()
      ensures WaitsForOneEnd(0) && WaitsForOneEnd(1)
    {
      hide Piece;
      for i := 0 to 2
        invariant Valid()
        invariant (i > 0 ==> WaitsForOneEnd(0)) && (i > 1 ==> WaitsForOneEnd(1))
      {
        if len[i] > 0 {
          events := events[i := 0][3 - i := POLLOUT];
        } else {
          events := events[i := POLLIN][3 - i := 0];
        }
      }
    }

    /** read: the data lands at the start of the buffer of direction i. */
    method Fill(i: nat, data: seq<Byte>)
      requires Valid() && i < 2 && |data| <= mtu
      modifies this`link, this`len, this`offset, bufs
      ensures Valid() && link == old(link).With(i, Receive(old(link).Dir(i), data))
    {
      hide Piece;
      ghost var before := bufs[..];
      CopyIn(Base(i), data);
      PiecesAfterCopy(before, bufs[..], Base(i), data, Base(1 - i) + offset[1 - i], len[1 - i]);
      len, offset := len[i := |data|], offset[i := 0];
      link := link.With(i, Receive(link.Dir(i), data));
      assert Holds(i, link.Dir(i)) && Holds(1 - i, link.Dir(1 - i));
    }

    method CopyIn(base: nat, data: seq<Byte>)
      requires base + |data| <= bufs.Length
      modifies bufs
      ensures forall k :: 0 <= k < bufs.Length ==>
                bufs[..][k] == if base <= k < base + |data| then data[k - base] else old(bufs[..])[k]
    {
      forall k | base <= k < base + |data| {
        bufs[k] := data[k - base];
      }
    }

    /** write: n bytes leave the buffer of direction j. */
    method Drain(j: nat, n: nat)
      requires Valid() && j < 2 && n <= len[j]
      modifies this`link, this`len, this`offset, this`bytes
      ensures Valid() && link == old(link).With(j, Transmit(old(link).Dir(j), n))
    {
      hide Piece;
      PieceDrains(bufs[..], Base(j) + offset[j], len[j], n);
      assert Holds(j, link.Dir(j)) && Holds(1 - j, link.Dir(1 - j));
      len, offset := len[j := len[j] - n], offset[j := offset[j] + n];
      bytes := bytes[1 - j := bytes[1 - j] + n];
      link := link.With(j, Transmit(link.Dir(j), n));
      assert Holds(j, link.Dir(j)) && Holds(1 - j, link.Dir(1 - j));
    }

    /** One turn of the inner loop of at_connect_mtu. */
    method ServeEnd(i: nat, r: Reading, w: Writing) returns (over: bool)
      requires Valid() && i < 2 && TurnAllowed(link, mtu, i, r, w)
      modifies this`link, this`lastRx, this`len, this`offset, this`bytes, bufs
      ensures Valid() && (link, over) == Turn(old(link), mtu, i, r, w)
    {
      hide Receive, Transmit, Piece;
      match r {
        case NotReadable =>
        case ReadAgain => return false;
        case ReadError => return true;
        case ReadEnd => return true;
        case Data(data, now) =>
          if i == 0 && |data| == 3 && data == ESCAPE && now - lastRx >= SECOND {
            return true;
          }
          Fill(i, data);
          lastRx, link := now, link.(lastRx := now);
      }
      match w {
        case NotWritable => over := false;
        case WriteAgain => over := false;
        case WriteError => over := true;
        case Wrote(n) =>
          Drain(1 - i, n);
          over := false;
      }
    }

    lemma CountersAre()
      requires Valid()
      ensures bytes[1] == |link.forth.sent| && bytes[0] == |link.back.sent|
    {
    }

    /** The counters are those of the link, which count what write takes. */
    lemma CountersFollow(rounds: seq<Round>)
      requires Valid() && RunAllowed(link, mtu, rounds)
      ensures forall j :: 0 <= j < 2 ==>
                |AfterRun(link, mtu, rounds).Dir(j).sent| == bytes[1 - j] + TakenInRun(link, mtu, rounds, j)
    {
      hide RunAllowed, AfterRun, TakenInRun;
      RunMoves(link, mtu, rounds, 0);
      RunMoves(link, mtu, rounds, 1);
    }

    /** The relay loop, for as many returns from poll as are given. */
    method Run(rounds: seq<Round>)
      requires Valid() && RunAllowed(link, mtu, rounds)
      modifies this`link, this`lastRx, this`len, this`offset, this`bytes, this`events, bufs
      ensures Valid() && link == AfterRun(old(link), mtu, rounds)
      ensures forall j :: 0 <= j < 2 ==>
                bytes[1 - j] == old(bytes[1 - j]) + TakenInRun(old(link), mtu, rounds, j)
    {
      hide Turn, TurnAllowed, Holds, TakenInRun;
      CountersFollow(rounds);
      var k := 0;
      var over := false;
      assert rounds[0..] == rounds;
      while k < |rounds| && !over
        invariant k <= |rounds| && Valid()
        invariant !over ==> RunAllowed(link, mtu, rounds[k..])
        invariant AfterRun(old(link), mtu, rounds) == if over then link else AfterRun(link, mtu, rounds[k..])
        decreases |rounds| - k, !over
      {
        SetEvents();
        assert rounds[k..][0] == rounds[k] && rounds[k..][1..] == rounds[k + 1..];
        over := ServeEnd(0, rounds[k].inputs[0], rounds[k].outputs[0]);
        if !over {
          over := ServeEnd(1, rounds[k].inputs[1], rounds[k].outputs[1]);
        }
        k := k + 1;
      }
      CountersAre();
    }
  }
}
