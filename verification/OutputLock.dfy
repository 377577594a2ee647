/**
 * Output to the terminal: any number of threads send unsolicited messages while the reader thread sends
 * intermediate ones and runs data mode. One recursive lock serialises them; writes may be partial.
 */
module OutputLock {
  import opened Ctype

  const READER: nat := 0

  /** Begin and End mark, without text, the span of at_connect_mtu under the lock. */
  datatype Kind = Unsolicited | Intermediate | Announced | Relayed | Begin | End

  datatype Message = Message(sender: nat, kind: Kind, text: seq<Byte>)

  /** Where a thread is: outside, waiting for the lock with a message, or holding it. */
  datatype Pc =
    | Idle
    | Waiting(msg: Message)
    | Writing(msg: Message, left: seq<Byte>)
    | WaitingToConnect(script: seq<Message>)
    | Announcing(script: seq<Message>)
    | WritingAnnounce(msg: Message, left: seq<Byte>, script: seq<Message>)
    | Relaying

  /** The log and the list of sent messages are history: what completed, and what was asked for. */
  datatype State = State(
    pcs: map<nat, Pc>, owner: Option<nat>, depth: nat, data: bool,
    output: seq<Byte>, log: seq<Message>, sent: seq<Message>,
    discarded: nat, assertionFailed: bool)

  datatype Event =
    | Send(t: nat, kind: Kind, text: seq<Byte>)
    | Acquire(t: nat)
    | Write(t: nat, n: nat)
    | Finish(t: nat)
    | Connect(texts: seq<seq<Byte>>)
    | AcquireToConnect
    | Announce
    | EnterData
    | RelayOut(bytes: seq<Byte>)
    | LeaveData

  predicate Init(s: State) {
    && READER in s.pcs && (forall t :: t in s.pcs ==> s.pcs[t] == Idle)
    && s.owner == None && s.depth == 0 && !s.data
    && s.output == [] && s.log == [] && s.sent == [] && s.discarded == 0 && !s.assertionFailed
  }

  // ------------------------------------------------------------------ steps

  predicate At(s: State, t: nat, pc: Pc) {
    t in s.pcs && s.pcs[t] == pc
  }

  function Reader(s: State): Pc {
    if READER in s.pcs then s.pcs[READER] else Idle
  }

  /** Intermediate messages come from the reader, and not while it is inside at_connect. */
  predicate Enabled(s: State, e: Event) {
    match e
    case Send(t, kind, _) => At(s, t, Idle) && (kind == Unsolicited || (kind == Intermediate && t == READER))
    case Acquire(t) => t in s.pcs && s.pcs[t].Waiting? && s.owner == None
    case Write(t, n) =>
      t in s.pcs && (s.pcs[t].Writing? || s.pcs[t].WritingAnnounce?) && 1 <= n <= |s.pcs[t].left|
    case Finish(t) => t in s.pcs && (s.pcs[t].Writing? || s.pcs[t].WritingAnnounce?) && s.pcs[t].left == []
    case Connect(_) => At(s, READER, Idle)
    case AcquireToConnect => READER in s.pcs && Reader(s).WaitingToConnect? && s.owner == None
    case Announce => READER in s.pcs && Reader(s).Announcing? && Reader(s).script != []
    case EnterData => At(s, READER, Announcing([]))
    case RelayOut(_) => At(s, READER, Relaying)
    case LeaveData => At(s, READER, Relaying)
  }

  function Goto(s: State, t: nat, pc: Pc): State {
    s.(pcs := s.pcs[t := pc])
  }

  function Log(s: State, m: Message): State {
    s.(log := s.log + [m])
  }

  function Lock(s: State, t: nat): State {
    s.(owner := Some(t), depth := s.depth + 1)
  }

  function Unlock(s: State): State {
    if s.depth <= 1 then s.(owner := None, depth := 0) else s.(depth := s.depth - 1)
  }

  /** assert (!m->data) */
  function AssertCommandMode(s: State): State {
    s.(assertionFailed := s.assertionFailed || s.data)
  }

  function Script(texts: seq<seq<Byte>>): seq<Message> {
    seq(|texts|, i requires 0 <= i < |texts| => Message(READER, Announced, texts[i]))
  }

  function Next(s: State, e: Event): State
    requires Enabled(s, e)
  {
    match e
    case Send(t, kind, text) =>
      var m := Message(t, kind, text);
      Goto(s, t, Waiting(m)).(sent := s.sent + [m])
    case Acquire(t) =>
      var m := s.pcs[t].msg;
      if m.kind == Unsolicited && s.data then Goto(s, t, Idle).(discarded := s.discarded + 1)
      else
        var s' := Goto(Lock(s, t), t, Writing(m, m.text));
        if m.kind == Unsolicited then s' else AssertCommandMode(s')
    case Write(t, n) =>
      var pc := s.pcs[t];
      Goto(s, t, WithLeft(pc, pc.left[n..])).(output := s.output + pc.left[..n])
    case Finish(t) =>
      var pc := s.pcs[t];
      Goto(Log(Unlock(s), pc.msg), t, if pc.Writing? then Idle else Announcing(pc.script))
    case Connect(texts) => Goto(s, READER, WaitingToConnect(Script(texts)))
    case AcquireToConnect =>
      var m := Message(READER, Begin, []);
      Goto(AssertCommandMode(Log(Lock(s, READER), m)), READER, Announcing(Reader(s).script)).(sent := s.sent + [m])
    case Announce =>
      var script := Reader(s).script;
      Goto(AssertCommandMode(Lock(s, READER)), READER, WritingAnnounce(script[0], script[0].text, script[1..]))
        .(sent := s.sent + [script[0]])
    case EnterData => Goto(s, READER, Relaying).(data := true)
    case RelayOut(bytes) =>
      var m := Message(READER, Relayed, bytes);
      Log(s, m).(output := s.output + bytes, sent := s.sent + [m])
    case LeaveData =>
      var m := Message(READER, End, []);
      Goto(Log(Unlock(s), m), READER, Idle).(data := false, sent := s.sent + [m])
  }

  function WithLeft(pc: Pc, left: seq<Byte>): Pc
    requires pc.Writing? || pc.WritingAnnounce?
  {
    match pc
    case Writing(m, _) => Writing(m, left)
    case WritingAnnounce(m, _, script) => WritingAnnounce(m, left, script)
  }

  predicate Possible(s: State, events: seq<Event>)
    decreases |events|
  {
    events == [] || (Enabled(s, events[0]) && Possible(Next(s, events[0]), events[1..]))
  }

  function RunAll(s: State, events: seq<Event>): State
    requires Possible(s, events)
    decreases |events|
  {
    if events == [] then s else RunAll(Next(s, events[0]), events[1..])
  }

  // ------------------------------------------------------------------ histories

  function Flatten(log: seq<Message>): seq<Byte> {
    if log == [] then [] else Flatten(log[..|log| - 1]) + log[|log| - 1].text
  }

  /** The messages of one thread, in order. */
  function Of(log: seq<Message>, t: nat): seq<Message> {
    if log == [] then []
    else Of(log[..|log| - 1], t) + if log[|log| - 1].sender == t then [log[|log| - 1]] else []
  }

  /** A session is open: the last mark is a Begin. */
  predicate Open(log: seq<Message>) {
    log != [] &&
    (log[|log| - 1].kind == Begin || (log[|log| - 1].kind != End && Open(log[..|log| - 1])))
  }

  /** Only the reader writes while a session is open. */
  predicate Exclusive(log: seq<Message>) {
    log == [] ||
    (Exclusive(log[..|log| - 1]) && (Open(log[..|log| - 1]) ==> log[|log| - 1].sender == READER))
  }

  lemma Snoc(log: seq<Message>, m: Message)
    ensures Flatten(log + [m]) == Flatten(log) + m.text
    ensures forall t :: Of(log + [m], t) == Of(log, t) + if m.sender == t then [m] else []
    ensures Open(log + [m]) <==> m.kind == Begin || (m.kind != End && Open(log))
    ensures Exclusive(log + [m]) <==> Exclusive(log) && (Open(log) ==> m.sender == READER)
  {
    assert (log + [m])[..|log|] == log;
  }

  /** Between a Begin and the next End there are only messages of the reader. */
  lemma {:induction false} ExclusiveSpans(log: seq<Message>, i: nat, j: nat)
    requires Exclusive(log) && i < j < |log|
    requires log[i].kind == Begin && forall k :: i < k < j ==> log[k].kind != End
    ensures log[j].sender == READER
    decreases |log|
  {
    var before := log[..|log| - 1];
    if j == |log| - 1 {
      OpenSince(before, i);
    } else {
      ExclusiveSpans(before, i, j);
    }
  }

  lemma {:induction false} OpenSince(log: seq<Message>, i: nat)
    requires i < |log| && log[i].kind == Begin && forall k :: i < k < |log| ==> log[k].kind != End
    ensures Open(log)
    decreases |log|
  {
    if i == |log| - 1 {
    } else {
      OpenSince(log[..|log| - 1], i);
    }
  }

  // ------------------------------------------------------------------ the invariant

  predicate Holds(pc: Pc) {
    pc.Writing? || pc.Announcing? || pc.WritingAnnounce? || pc.Relaying?
  }

  predicate InSession(pc: Pc) {
    pc.Announcing? || pc.WritingAnnounce? || pc.Relaying?
  }

  /** What a thread has already written of the message it is writing. */
  function Written(pc: Pc): seq<Byte> {
    if (pc.Writing? || pc.WritingAnnounce?) && |pc.left| <= |pc.msg.text|
    then pc.msg.text[..|pc.msg.text| - |pc.left|]
    else []
  }

  function InProgress(s: State): seq<Byte> {
    if s.owner.Some? && s.owner.value in s.pcs then Written(s.pcs[s.owner.value]) else []
  }

  /** The message a thread has sent and not completed. */
  function InFlight(pc: Pc): seq<Message> {
    if pc.Waiting? || pc.Writing? || pc.WritingAnnounce? then [pc.msg] else []
  }

  /** A thread's own state is sound. */
  predicate SoundPc(t: nat, pc: Pc) {
    match pc
    case Idle => true
    case Waiting(m) => m.sender == t && (m.kind == Unsolicited || m.kind == Intermediate)
    case Writing(m, left) =>
      && m.sender == t && (m.kind == Unsolicited || m.kind == Intermediate)
      && |left| <= |m.text| && left == m.text[|m.text| - |left|..]
    case WaitingToConnect(script) => t == READER && AnnounceScript(script)
    case Announcing(script) => t == READER && AnnounceScript(script)
    case WritingAnnounce(m, left, script) =>
      && t == READER && AnnounceScript(script) && m.sender == READER && m.kind == Announced
      && |left| <= |m.text| && left == m.text[|m.text| - |left|..]
    case Relaying => t == READER
  }

  predicate AnnounceScript(script: seq<Message>) {
    forall i :: 0 <= i < |script| ==> script[i].sender == READER && script[i].kind == Announced
  }

  /** Exactly the owner of the lock is past the lock, twice when it announces. */
  predicate LockInv(s: State) {
    && (forall t :: t in s.pcs ==> (Holds(s.pcs[t]) <==> s.owner == Some(t)))
    && (s.owner.Some? ==> s.owner.value in s.pcs)
    && s.depth == (if s.owner == None then 0 else if s.pcs[s.owner.value].WritingAnnounce? then 2 else 1)
  }

  predicate DataInv(s: State) {
    && s.data == Reader(s).Relaying?
    && !s.assertionFailed && s.discarded == 0
  }

  predicate HistoryInv(s: State) {
    && s.output == Flatten(s.log) + InProgress(s)
    && (forall t :: t in s.pcs ==> Of(s.sent, t) == Of(s.log, t) + InFlight(s.pcs[t]))
    && Exclusive(s.log) && (Open(s.log) <==> InSession(Reader(s)))
  }

  predicate SoundPcs(s: State) {
    READER in s.pcs && forall t :: t in s.pcs ==> SoundPc(t, s.pcs[t])
  }

  /** Nothing is sent or completed for anyone but the threads. */
  predicate KnownSenders(s: State) {
    (forall m :: m in s.log ==> m.sender in s.pcs) && (forall m :: m in s.sent ==> m.sender in s.pcs)
  }

  predicate Inv(s: State) {
    SoundPcs(s) && LockInv(s) && DataInv(s) && HistoryInv(s) && KnownSenders(s)
  }

  lemma InitHolds(s: State)
    requires Init(s)
    ensures Inv(s)
  {
  }

  /** The thread an event moves. */
  function Actor(e: Event): nat {
    match e
    case Send(t, _, _) => t
    case Acquire(t) => t
    case Write(t, _) => t
    case Finish(t) => t
    case _ => READER
  }

  function PcOf(s: State, t: nat): Pc {
    if t in s.pcs then s.pcs[t] else Idle
  }

  /** What the invariant says of one thread. */
  lemma ThreadFacts(s: State, t: nat)
    requires SoundPcs(s) && LockInv(s) && t in s.pcs
    ensures SoundPc(t, s.pcs[t]) && (Holds(s.pcs[t]) <==> s.owner == Some(t))
    ensures s.owner == Some(t) ==> s.depth == if s.pcs[t].WritingAnnounce? then 2 else 1
    ensures s.owner == None ==> s.depth == 0
    ensures READER in s.pcs && (Holds(Reader(s)) <==> s.owner == Some(READER))
  {
  }

  /** Only thread t moves, soundly, and the lock moves with it. */
  predicate Moved(s: State, s': State, t: nat) {
    && t in s.pcs && t in s'.pcs && s'.pcs == s.pcs[t := s'.pcs[t]] && SoundPc(t, s'.pcs[t])
    && s'.owner == (if Holds(s'.pcs[t]) then Some(t) else if Holds(s.pcs[t]) then None else s.owner)
    && (Holds(s'.pcs[t]) ==> s.owner == None || s.owner == Some(t))
    && s'.depth == if Holds(s'.pcs[t]) then (if s'.pcs[t].WritingAnnounce? then 2 else 1)
                   else if Holds(s.pcs[t]) then 0 else s.depth
  }

  lemma MoveKeepsLock(s: State, s': State, t: nat)
    requires SoundPcs(s) && LockInv(s) && Moved(s, s', t)
    ensures SoundPcs(s') && LockInv(s')
  {
    hide SoundPc, Holds;
  }

  lemma AcquireMoves(s: State, t: nat)
    requires SoundPcs(s) && LockInv(s) && Enabled(s, Acquire(t))
    ensures Moved(s, Next(s, Acquire(t)), t)
  {
    ThreadFacts(s, t);
    hide SoundPcs, LockInv;
  }

  lemma WriteMoves(s: State, t: nat, n: nat)
    requires SoundPcs(s) && LockInv(s) && Enabled(s, Write(t, n))
    ensures Moved(s, Next(s, Write(t, n)), t)
  {
    ThreadFacts(s, t);
    hide SoundPcs, LockInv;
    var pc := s.pcs[t];
    assert pc.left[n..] == pc.msg.text[|pc.msg.text| - |pc.left[n..]|..];
  }

  lemma FinishMoves(s: State, t: nat)
    requires SoundPcs(s) && LockInv(s) && Enabled(s, Finish(t))
    ensures Moved(s, Next(s, Finish(t)), t)
  {
    ThreadFacts(s, t);
    hide SoundPcs, LockInv;
  }

  lemma AnnounceMoves(s: State)
    requires SoundPcs(s) && LockInv(s) && Enabled(s, Announce)
    ensures Moved(s, Next(s, Announce), READER)
  {
    ThreadFacts(s, READER);
    hide SoundPcs, LockInv;
  }

  /** Every event moves its own thread, and the lock with it. */
  lemma NextMoves(s: State, e: Event)
    requires SoundPcs(s) && LockInv(s) && Enabled(s, e)
    ensures Moved(s, Next(s, e), Actor(e))
  {
    match e {
      case Acquire(t) => AcquireMoves(s, t);
      case Write(t, n) => WriteMoves(s, t, n);
      case Finish(t) => FinishMoves(s, t);
      case Announce => AnnounceMoves(s);
      case _ =>
        ThreadFacts(s, Actor(e));
        hide SoundPcs, LockInv;
    }
  }

  /** Threads stay sound, and exactly the owner is past the lock. */
  lemma NextKeepsLock(s: State, e: Event)
    requires Inv(s) && Enabled(s, e)
    ensures SoundPcs(Next(s, e)) && LockInv(Next(s, e))
  {
    hide Next, SoundPcs, LockInv, DataInv, HistoryInv, Holds, SoundPc, Enabled;
    NextMoves(s, e);
    MoveKeepsLock(s, Next(s, e), Actor(e));
  }

  /** Data mode is the reader's relaying state; the assertions hold and nothing is discarded. */
  lemma NextKeepsData(s: State, e: Event)
    requires Inv(s) && Enabled(s, e)
    ensures DataInv(Next(s, e))
  {
    ThreadFacts(s, READER);
    NextMoves(s, e);
    ThreadFacts(s, Actor(e));
    hide SoundPcs, LockInv, HistoryInv;
  }

  lemma WriteExtendsWritten(s: State, t: nat, n: nat)
    requires Inv(s) && Enabled(s, Write(t, n))
    ensures InProgress(Next(s, Write(t, n))) == InProgress(s) + s.pcs[t].left[..n]
  {
    hide SoundPcs, LockInv, DataInv, HistoryInv;
    ThreadFacts(s, t);
    var pc := s.pcs[t];
    assert Written(WithLeft(pc, pc.left[n..])) == Written(pc) + pc.left[..n];
  }

  lemma FinishCompletes(s: State, t: nat)
    requires Inv(s) && Enabled(s, Finish(t))
    ensures InProgress(s) == s.pcs[t].msg.text
  {
    ThreadFacts(s, t);
    hide SoundPcs, LockInv, DataInv, HistoryInv;
  }

  lemma FinishLeavesNothing(s: State, t: nat)
    requires Inv(s) && Enabled(s, Finish(t))
    ensures InProgress(Next(s, Finish(t))) == []
  {
    FinishMoves(s, t);
    hide Inv, SoundPc;
    assert Next(s, Finish(t)).pcs[t] == if s.pcs[t].Writing? then Idle else Announcing(s.pcs[t].script);
  }

  /** A move of a thread with nothing written, before and after, leaves the message in progress alone. */
  lemma MoveKeepsInProgress(s: State, s': State, t: nat)
    requires LockInv(s) && Moved(s, s', t)
    requires Written(s.pcs[t]) == Written(s'.pcs[t]) == []
    ensures InProgress(s') == InProgress(s)
  {
    hide SoundPc, Holds, Written;
  }

  /** Before and after any other event, its thread has written nothing of a message. */
  lemma NothingWrittenAround(s: State, e: Event)
    requires Enabled(s, e) && !e.Write? && !e.Finish?
    ensures Actor(e) in s.pcs && Written(s.pcs[Actor(e)]) == [] && Written(PcOf(Next(s, e), Actor(e))) == []
  {
  }

  lemma StartHasWrittenNothing(s: State, e: Event)
    requires Inv(s) && Enabled(s, e) && !e.Write? && !e.Finish?
    ensures InProgress(Next(s, e)) == InProgress(s)
    ensures e.AcquireToConnect? || e.RelayOut? || e.LeaveData? ==> InProgress(s) == []
  {
    ThreadFacts(s, Actor(e));
    NextMoves(s, e);
    hide SoundPcs, LockInv, HistoryInv, DataInv, SoundPc, Moved;
    NothingWrittenAround(s, e);
    hide Next, Enabled, Written;
    MoveKeepsInProgress(s, Next(s, e), Actor(e));
  }

  /** The bytes out are the completed messages, whole and in order, and the part of the one being written. */
  lemma NextKeepsOutput(s: State, e: Event)
    requires Inv(s) && Enabled(s, e)
    ensures Next(s, e).output == Flatten(Next(s, e).log) + InProgress(Next(s, e))
  {
    hide Flatten, Of, Open, Exclusive, SoundPcs, LockInv, DataInv, SoundPc, InProgress;
    match e {
      case Write(t, n) => WriteExtendsWritten(s, t, n);
      case Finish(t) =>
        FinishCompletes(s, t);
        FinishLeavesNothing(s, t);
        Snoc(s.log, s.pcs[t].msg);
      case AcquireToConnect =>
        StartHasWrittenNothing(s, e);
        Snoc(s.log, Message(READER, Begin, []));
      case RelayOut(bytes) =>
        StartHasWrittenNothing(s, e);
        Snoc(s.log, Message(READER, Relayed, bytes));
      case LeaveData =>
        StartHasWrittenNothing(s, e);
        Snoc(s.log, Message(READER, End, []));
      case _ => StartHasWrittenNothing(s, e);
    }
  }

  /** The message that an event sends, if any, and the one that it completes. */
  function SentBy(s: State, e: Event): seq<Message> {
    match e
    case Send(t, kind, text) => [Message(t, kind, text)]
    case AcquireToConnect => [Message(READER, Begin, [])]
    case Announce => if Reader(s).Announcing? && Reader(s).script != [] then [Reader(s).script[0]] else []
    case RelayOut(bytes) => [Message(READER, Relayed, bytes)]
    case LeaveData => [Message(READER, End, [])]
    case _ => []
  }

  function CompletedBy(s: State, e: Event): seq<Message> {
    match e
    case Finish(t) => InFlight(PcOf(s, t))
    case AcquireToConnect => [Message(READER, Begin, [])]
    case RelayOut(bytes) => [Message(READER, Relayed, bytes)]
    case LeaveData => [Message(READER, End, [])]
    case _ => []
  }

  lemma NextHistory(s: State, e: Event)
    requires Enabled(s, e)
    ensures Next(s, e).sent == s.sent + SentBy(s, e) && Next(s, e).log == s.log + CompletedBy(s, e)
    ensures |SentBy(s, e)| <= 1 && |CompletedBy(s, e)| <= 1
  {
  }

  /** Sent and completed messages are the moving thread's own, and balance what it has in flight. */
  lemma FlightBalances(s: State, e: Event)
    requires SoundPcs(s) && LockInv(s) && DataInv(s) && Enabled(s, e)
    ensures InFlight(PcOf(s, Actor(e))) + SentBy(s, e) == CompletedBy(s, e) + InFlight(PcOf(Next(s, e), Actor(e)))
    ensures forall m :: m in SentBy(s, e) || m in CompletedBy(s, e) ==> m.sender == Actor(e)
  {
    NextMoves(s, e);
    ThreadFacts(s, Actor(e));
    hide SoundPcs, LockInv, Moved;
    assert e.Acquire? ==> !s.data;
  }

  lemma OfConcat(log: seq<Message>, ms: seq<Message>, t: nat)
    requires |ms| <= 1
    ensures Of(log + ms, t) == Of(log, t) + if ms != [] && ms[0].sender == t then ms else []
  {
    if ms == [] {
      assert log + ms == log;
    } else {
      Snoc(log, ms[0]);
      assert ms == [ms[0]];
    }
  }

  lemma Rebalance(
    done: seq<Message>, flight: seq<Message>, sent: seq<Message>, completed: seq<Message>, flight': seq<Message>)
    requires flight + sent == completed + flight'
    ensures (done + flight) + sent == (done + completed) + flight'
  {
    assert (done + flight) + sent == done + (flight + sent);
    assert (done + completed) + flight' == done + (completed + flight');
  }

  lemma OfOwn(log: seq<Message>, ms: seq<Message>, t: nat)
    requires |ms| <= 1 && forall m :: m in ms ==> m.sender == t
    ensures Of(log + ms, t) == Of(log, t) + ms
    ensures forall u :: u != t ==> Of(log + ms, u) == Of(log, u)
  {
    forall u ensures Of(log + ms, u) == Of(log, u) + if ms != [] && ms[0].sender == u then ms else [] {
      OfConcat(log, ms, u);
    }
    assert ms != [] ==> ms[0] in ms;
  }

  /** No thread's message is lost, repeated or overtaken by a later one of the same thread. */
  lemma NextKeepsSent(s: State, e: Event, t: nat)
    requires Inv(s) && Enabled(s, e) && t in Next(s, e).pcs
    ensures Of(Next(s, e).sent, t) == Of(Next(s, e).log, t) + InFlight(Next(s, e).pcs[t])
  {
    NextMoves(s, e);
    FlightBalances(s, e);
    NextHistory(s, e);
    hide Next, Enabled, Of, SoundPcs, LockInv, DataInv, SoundPc, Holds;
    hide InFlight, SentBy, CompletedBy, Exclusive, Open, Flatten;
    var actor := Actor(e);
    OfOwn(s.sent, SentBy(s, e), actor);
    OfOwn(s.log, CompletedBy(s, e), actor);
    assert Of(s.sent, t) == Of(s.log, t) + InFlight(s.pcs[t]);
    if t == actor {
      Rebalance(Of(s.log, t), InFlight(s.pcs[t]), SentBy(s, e), CompletedBy(s, e), InFlight(Next(s, e).pcs[t]));
    } else {
      assert Next(s, e).pcs[t] == s.pcs[t];
    }
  }

  /** What completes a message opens or closes a session, or leaves it as it is. */
  lemma SessionFollowsMarks(s: State, e: Event)
    requires SoundPcs(s) && LockInv(s) && DataInv(s) && Enabled(s, e)
    ensures CompletedBy(s, e) == [] ==> (InSession(Reader(Next(s, e))) <==> InSession(Reader(s)))
    ensures CompletedBy(s, e) != [] ==>
              var m := CompletedBy(s, e)[0];
              && (InSession(Reader(Next(s, e))) <==> m.kind == Begin || (m.kind != End && InSession(Reader(s))))
              && (InSession(Reader(s)) ==> m.sender == READER)
  {
    NextMoves(s, e);
    ThreadFacts(s, Actor(e));
    hide SoundPcs, LockInv, Moved;
  }

  /** While a session is open only the reader completes messages. */
  lemma NextKeepsSessions(s: State, e: Event)
    requires Inv(s) && Enabled(s, e)
    ensures Exclusive(Next(s, e).log) && (Open(Next(s, e).log) <==> InSession(Reader(Next(s, e))))
  {
    NextHistory(s, e);
    SessionFollowsMarks(s, e);
    hide Next, Flatten, Of, Open, Exclusive, SoundPcs, LockInv, DataInv, InSession, CompletedBy, SentBy;
    if CompletedBy(s, e) == [] {
      assert Next(s, e).log == s.log;
    } else {
      assert CompletedBy(s, e) == [CompletedBy(s, e)[0]];
      Snoc(s.log, CompletedBy(s, e)[0]);
    }
  }

  lemma NextKeepsSenders(s: State, e: Event)
    requires Inv(s) && Enabled(s, e)
    ensures KnownSenders(Next(s, e))
  {
    NextMoves(s, e);
    FlightBalances(s, e);
    NextHistory(s, e);
    hide Next, Enabled, SoundPcs, LockInv, DataInv, HistoryInv, SoundPc, Holds, SentBy, CompletedBy, InFlight;
  }

  lemma NextHolds(s: State, e: Event)
    requires Inv(s) && Enabled(s, e)
    ensures Inv(Next(s, e))
  {
    hide Next, Flatten, Of, Open, Exclusive, SoundPcs, LockInv, DataInv, InFlight, InSession, KnownSenders;
    NextKeepsSenders(s, e);
    NextKeepsLock(s, e);
    NextKeepsData(s, e);
    NextKeepsOutput(s, e);
    NextKeepsSessions(s, e);
    forall t | t in Next(s, e).pcs
      ensures Of(Next(s, e).sent, t) == Of(Next(s, e).log, t) + InFlight(Next(s, e).pcs[t])
    {
      NextKeepsSent(s, e, t);
    }
  }

  lemma {:induction false} RunHolds(s: State, events: seq<Event>)
    requires Inv(s) && Possible(s, events)
    ensures Inv(RunAll(s, events))
    decreases |events|
  {
    hide Inv, Next, Enabled;
    if events == [] {
    } else {
      NextHolds(s, events[0]);
      RunHolds(Next(s, events[0]), events[1..]);
    }
  }

  // ------------------------------------------------------------------ results over every run

  /**
   * Whatever the threads do and however partial the writes are: the output is a sequence of whole
   * messages and at most one message in progress; every message is some thread's, and every thread's
   * completed messages are the first ones it sent; the assertions on command mode never fail; and no
   * message is ever discarded.
   */
  lemma OutputIsWholeMessages(s: State, events: seq<Event>)
    requires Init(s) && Possible(s, events)
    ensures var s' := RunAll(s, events);
            && s'.output == Flatten(s'.log) + InProgress(s')
            && (forall t :: t in s'.pcs ==> Of(s'.log, t) <= Of(s'.sent, t))
            && (forall m :: m in s'.log || m in s'.sent ==> m.sender in s'.pcs)
            && (s'.owner == None ==> s'.output == Flatten(s'.log))
            && (Open(s'.log) ==> s'.owner == Some(READER))
            && !s'.assertionFailed && s'.discarded == 0
  {
    hide Flatten, Of, Open, Exclusive, Possible, RunAll;
    InitHolds(s);
    RunHolds(s, events);
  }

  /** Nothing of another thread lands between the start of at_connect's output and the end of data mode. */
  lemma SessionsAreExclusive(s: State, events: seq<Event>, i: nat, j: nat)
    requires Init(s) && Possible(s, events)
    requires i < j < |RunAll(s, events).log| && RunAll(s, events).log[i].kind == Begin
    requires forall k :: i < k < j ==> RunAll(s, events).log[k].kind != End
    ensures RunAll(s, events).log[j].sender == READER
  {
    hide Flatten, Of, Open, Exclusive, Possible, RunAll;
    InitHolds(s);
    RunHolds(s, events);
    ExclusiveSpans(RunAll(s, events).log, i, j);
  }

  /** Data mode is only seen by the thread that holds the lock for it. */
  lemma DataModeBelongsToReader(s: State, events: seq<Event>, t: nat)
    requires Init(s) && Possible(s, events) && RunAll(s, events).data
    requires t in RunAll(s, events).pcs && Holds(RunAll(s, events).pcs[t])
    ensures t == READER
  {
    hide Flatten, Of, Open, Exclusive, Possible, RunAll;
    InitHolds(s);
    RunHolds(s, events);
    assert Holds(Reader(RunAll(s, events)));
  }

  // ------------------------------------------------------------------ what is asked for, and what write takes

  /** The bytes that write takes in an event. */
  function BytesTaken(e: Event): nat {
    match e
    case Write(_, n) => n
    case RelayOut(bytes) => |bytes|
    case _ => 0
  }

  function AllBytesTaken(events: seq<Event>): nat {
    if events == [] then 0 else BytesTaken(events[0]) + AllBytesTaken(events[1..])
  }

  /** Over every run, as many bytes are out as write took. */
  lemma {:induction false} OutputIsWhatWriteTook(s: State, events: seq<Event>)
    requires Possible(s, events)
    ensures |RunAll(s, events).output| == |s.output| + AllBytesTaken(events)
    decreases |events|
  {
    if events == [] {
    } else {
      StepTakesBytes(s, events[0]);
      hide Next, Enabled, BytesTaken;
      OutputIsWhatWriteTook(Next(s, events[0]), events[1..]);
    }
  }

  /** A write takes the first bytes of what is left. */
  lemma StepTakesBytes(s: State, e: Event)
    requires Enabled(s, e)
    ensures |Next(s, e).output| == |s.output| + BytesTaken(e) && s.output <= Next(s, e).output
    ensures e.Write? ==>
              && Next(s, e).output == s.output + s.pcs[e.t].left[..e.n]
              && (Next(s, e).pcs[e.t].Writing? || Next(s, e).pcs[e.t].WritingAnnounce?)
              && Next(s, e).pcs[e.t].left == s.pcs[e.t].left[e.n..] && Next(s, e).pcs[e.t].msg == s.pcs[e.t].msg
    ensures e.RelayOut? ==> Next(s, e).output == s.output + e.bytes
  {
  }

  /** The messages of one kind, in order. */
  function OfKind(ms: seq<Message>, kind: Kind): seq<Message> {
    if ms == [] then []
    else OfKind(ms[..|ms| - 1], kind) + if ms[|ms| - 1].kind == kind then [ms[|ms| - 1]] else []
  }

  /** What an event asks to be sent; a connection asks for all its announcements at once. */
  function AskedBy(e: Event, kind: Kind): seq<Message> {
    match e
    case Send(t, k, text) => if k == kind then [Message(t, kind, text)] else []
    case Connect(texts) =>
      if kind == Announced then seq(|texts|, i requires 0 <= i < |texts| => Message(0, Announced, texts[i])) else []
    case RelayOut(bytes) => if kind == Relayed then [Message(0, Relayed, bytes)] else []
    case AcquireToConnect => if kind == Begin then [Message(0, Begin, [])] else []
    case LeaveData => if kind == End then [Message(0, End, [])] else []
    case _ => []
  }

  function AllAskedBy(events: seq<Event>, kind: Kind): seq<Message> {
    if events == [] then [] else AskedBy(events[0], kind) + AllAskedBy(events[1..], kind)
  }

  /** The announcements that the reader has still to make. */
  function ToAnnounce(pc: Pc): seq<Message> {
    match pc
    case WaitingToConnect(script) => script
    case Announcing(script) => script
    case WritingAnnounce(_, _, script) => script
    case _ => []
  }

  function Outstanding(s: State, kind: Kind): seq<Message> {
    if kind == Announced then ToAnnounce(Reader(s)) else []
  }

  lemma OfKindConcat(ms: seq<Message>, more: seq<Message>, kind: Kind)
    requires |more| <= 1
    ensures OfKind(ms + more, kind) == OfKind(ms, kind) + if more != [] && more[0].kind == kind then more else []
  {
    if more == [] {
      assert ms + more == ms;
    } else {
      assert (ms + more)[..|ms|] == ms && more == [more[0]];
    }
  }

  /** Announcements: the first outstanding one, if any. */
  lemma StepAnnouncesWhatIsAsked(s: State, e: Event)
    requires SoundPcs(s) && Enabled(s, e)
    ensures (if SentBy(s, e) != [] && SentBy(s, e)[0].kind == Announced then SentBy(s, e) else [])
            + ToAnnounce(Reader(Next(s, e))) == ToAnnounce(Reader(s)) + AskedBy(e, Announced)
  {
    hide SoundPc;
    if e.Announce? {
      assert SoundPc(READER, s.pcs[READER]);
      AnnouncingIsSound(Reader(s).script);
      assert Reader(s).script == [Reader(s).script[0]] + Reader(s).script[1..];
    }
  }

  lemma AnnouncingIsSound(script: seq<Message>)
    requires SoundPc(READER, Announcing(script)) && script != []
    ensures script[0].kind == Announced
  {
  }

  /** What an event sends, of each kind: what it is asked for, or what was outstanding. */
  lemma StepSendsWhatIsAsked(s: State, e: Event, kind: Kind)
    requires SoundPcs(s) && Enabled(s, e)
    ensures (if SentBy(s, e) != [] && SentBy(s, e)[0].kind == kind then SentBy(s, e) else [])
            + Outstanding(Next(s, e), kind) == Outstanding(s, kind) + AskedBy(e, kind)
  {
    if kind == Announced {
      hide Next, Enabled, SoundPcs, SentBy, AskedBy;
      StepAnnouncesWhatIsAsked(s, e);
    } else if e.Announce? {
      assert SoundPc(READER, s.pcs[READER]);
      AnnouncingIsSound(Reader(s).script);
    }
  }

  /** Over every run, for each kind: what is sent or outstanding is what was, then all that was asked for, in order. */
  lemma {:induction false} SentIsAskedFor(s: State, events: seq<Event>, kind: Kind)
    requires Inv(s) && Possible(s, events)
    ensures OfKind(RunAll(s, events).sent, kind) + Outstanding(RunAll(s, events), kind) ==
            OfKind(s.sent, kind) + Outstanding(s, kind) + AllAskedBy(events, kind)
    decreases |events|
  {
    if events == [] {
    } else {
      var e := events[0];
      StepSendsWhatIsAsked(s, e, kind);
      NextHistory(s, e);
      NextHolds(s, e);
      hide Inv, Next, Enabled, OfKind, Outstanding, AskedBy, SentBy, CompletedBy;
      OfKindConcat(s.sent, SentBy(s, e), kind);
      SentIsAskedFor(Next(s, e), events[1..], kind);
      var own := if SentBy(s, e) != [] && SentBy(s, e)[0].kind == kind then SentBy(s, e) else [];
      Regroup(OfKind(s.sent, kind), own, Outstanding(Next(s, e), kind), Outstanding(s, kind), AskedBy(e, kind),
              AllAskedBy(events[1..], kind));
    }
  }

  lemma Regroup(
    sent: seq<Message>, own: seq<Message>, left: seq<Message>, before: seq<Message>, asked: seq<Message>,
    more: seq<Message>)
    requires own + left == before + asked
    ensures (sent + own) + left + more == sent + before + (asked + more)
  {
    assert (sent + own) + left + more == sent + (own + left) + more;
    assert sent + before + (asked + more) == sent + (before + asked) + more;
  }

  // ------------------------------------------------------------------ progress

  /** An event by which what was asked for goes on: nothing new is sent, no new connection is made. */
  predicate GoesOn(e: Event) {
    !e.Send? && !e.Connect?
  }

  predicate AllGoOn(events: seq<Event>) {
    forall i :: 0 <= i < |events| ==> GoesOn(events[i])
  }

  /** What the owner of the lock does next. */
  function OwnNext(u: nat, pc: Pc): Event {
    match pc
    case Announcing(script) => if script == [] then EnterData else Announce
    case Relaying => LeaveData
    case _ => if (pc.Writing? || pc.WritingAnnounce?) && pc.left != [] then Write(u, |pc.left|) else Finish(u)
  }

  /** What a thread that waits does once the lock is free. */
  function FirstStep(t: nat, pc: Pc): Event {
    if pc.Waiting? then Acquire(t) else AcquireToConnect
  }

  /** There is no deadlock: whenever some thread is not idle, some thread that is not idle can go on. */
  lemma SomeThreadCanMove(s: State, t: nat)
    requires Inv(s) && t in s.pcs && s.pcs[t] != Idle
    ensures exists e :: Enabled(s, e) && GoesOn(e) && PcOf(s, Actor(e)) != Idle
  {
    hide HistoryInv, KnownSenders, DataInv;
    if s.owner.Some? {
      OwnerCanMove(s, s.owner.value);
    } else {
      ThreadFacts(s, t);
      assert Enabled(s, FirstStep(t, s.pcs[t])) && GoesOn(FirstStep(t, s.pcs[t]));
    }
  }

  lemma OwnerCanMove(s: State, u: nat)
    requires SoundPcs(s) && LockInv(s) && s.owner == Some(u)
    ensures u in s.pcs && s.pcs[u] != Idle
    ensures var e := OwnNext(u, s.pcs[u]); Enabled(s, e) && GoesOn(e) && Actor(e) == u
  {
    ThreadFacts(s, u);
  }

  function ScriptWork(script: seq<Message>): nat {
    if script == [] then 0 else 2 + ScriptWork(script[1..])
  }

  /** How many steps the owner of the lock is from giving it back. */
  function WorkLeft(pc: Pc): nat {
    match pc
    case Writing(_, left) => if left == [] then 1 else 2
    case Announcing(script) => 2 + 2 * ScriptWork(script)
    case WritingAnnounce(_, left, script) => 2 + 2 * ScriptWork(script) + if left == [] then 1 else 2
    case Relaying => 1
    case _ => 0
  }

  lemma OwnNextWorks(s: State, u: nat)
    requires SoundPcs(s) && LockInv(s) && s.owner == Some(u)
    requires u in s.pcs && Enabled(s, OwnNext(u, s.pcs[u]))
    ensures var s' := Next(s, OwnNext(u, s.pcs[u]));
            && s'.pcs == s.pcs[u := s'.pcs[u]] && s.sent <= s'.sent
            && (if s'.owner == None then s'.pcs[u] == Idle
                else s'.owner == Some(u) && WorkLeft(s'.pcs[u]) < WorkLeft(s.pcs[u]))
  {
    ThreadFacts(s, u);
    NextMoves(s, OwnNext(u, s.pcs[u]));
    hide SoundPcs, LockInv, SoundPc;
  }

  /** From s the events are possible and bring the threads to pcs, with the lock free. */
  predicate Reaches(s: State, events: seq<Event>, pcs: map<nat, Pc>) {
    && AllGoOn(events) && Possible(s, events)
    && RunAll(s, events).pcs == pcs && RunAll(s, events).owner == None && s.sent <= RunAll(s, events).sent
  }

  ghost predicate CanReach(s: State, pcs: map<nat, Pc>) {
    exists events :: Reaches(s, events, pcs)
  }

  lemma {:induction false} RunConcat(s: State, a: seq<Event>, b: seq<Event>)
    requires Possible(s, a) && Possible(RunAll(s, a), b)
    ensures Possible(s, a + b) && RunAll(s, a + b) == RunAll(RunAll(s, a), b)
    decreases |a|
  {
    hide Next, Enabled;
    if a == [] {
      assert a + b == b;
    } else {
      assert (a + b)[0] == a[0] && (a + b)[1..] == a[1..] + b;
      RunConcat(Next(s, a[0]), a[1..], b);
    }
  }

  lemma ReachesAfter(s: State, e: Event, more: seq<Event>, pcs: map<nat, Pc>)
    requires Enabled(s, e) && GoesOn(e) && s.sent <= Next(s, e).sent && Reaches(Next(s, e), more, pcs)
    ensures Reaches(s, [e] + more, pcs)
  {
    hide Next, Enabled, GoesOn;
    assert ([e] + more)[0] == e && ([e] + more)[1..] == more;
  }

  lemma ReachesThen(s: State, a: seq<Event>, pcs: map<nat, Pc>, b: seq<Event>, pcs': map<nat, Pc>)
    requires Reaches(s, a, pcs) && Reaches(RunAll(s, a), b, pcs')
    ensures Reaches(s, a + b, pcs')
  {
    hide Next, Enabled, GoesOn;
    RunConcat(s, a, b);
  }

  /** The owner of the lock can finish what it does and give it back, while the others stay where they are. */
  lemma {:induction false} OwnerCanFinish(s: State, u: nat)
    requires Inv(s) && s.owner == Some(u)
    ensures u in s.pcs && CanReach(s, s.pcs[u := Idle])
    decreases if u in s.pcs then WorkLeft(s.pcs[u]) else 0
  {
    hide HistoryInv, KnownSenders, DataInv, SoundPcs, LockInv, Next, Enabled, GoesOn, WorkLeft, OwnNext;
    hide Possible, RunAll, Reaches;
    OwnerCanMove(s, u);
    OwnNextWorks(s, u);
    var e := OwnNext(u, s.pcs[u]);
    NextHolds(s, e);
    var s1 := Next(s, e);
    var more := [];
    if s1.owner == None {
      NothingReaches(s1);
      assert s1.pcs == s.pcs[u := Idle];
    } else {
      OwnerCanFinish(s1, u);
      more :| Reaches(s1, more, s1.pcs[u := Idle]);
      assert s1.pcs[u := Idle] == s.pcs[u := Idle];
    }
    ReachesAfter(s, e, more, s.pcs[u := Idle]);
  }

  lemma NothingReaches(s: State)
    requires s.owner == None
    ensures Reaches(s, [], s.pcs)
  {
  }

  function Busy(pcs: map<nat, Pc>): set<nat> {
    set t | t in pcs && pcs[t] != Idle
  }

  /** A thread that waits for a free lock can take it. */
  lemma WaiterCanStart(s: State, t: nat)
    requires Inv(s) && s.owner == None && t in s.pcs && s.pcs[t] != Idle
    ensures var e := FirstStep(t, s.pcs[t]);
            && Enabled(s, e) && GoesOn(e) && Next(s, e).owner == Some(t) && s.sent <= Next(s, e).sent
            && t in Next(s, e).pcs && Next(s, e).pcs == s.pcs[t := Next(s, e).pcs[t]]
  {
    hide HistoryInv, KnownSenders;
    ThreadFacts(s, t);
    NextMoves(s, FirstStep(t, s.pcs[t]));
    hide SoundPcs, LockInv, SoundPc;
  }

  /** And then it can finish. */
  lemma WaiterCanFinish(s: State, t: nat)
    requires Inv(s) && s.owner == None && t in s.pcs && s.pcs[t] != Idle
    ensures CanReach(s, s.pcs[t := Idle])
  {
    hide Inv, Reaches, Next, Enabled, FirstStep, GoesOn;
    var e := FirstStep(t, s.pcs[t]);
    WaiterCanStart(s, t);
    NextHolds(s, e);
    var s1 := Next(s, e);
    assert s1.pcs[t := Idle] == s.pcs[t := Idle];
    OwnerCanFinish(s1, t);
    var more :| Reaches(s1, more, s1.pcs[t := Idle]);
    ReachesAfter(s, e, more, s.pcs[t := Idle]);
  }

  lemma {:induction false} RunReaches(s: State, events: seq<Event>, pcs: map<nat, Pc>)
    requires Inv(s) && Reaches(s, events, pcs)
    ensures Inv(RunAll(s, events))
  {
    hide Inv, Next, Enabled;
    RunHolds(s, events);
  }

  lemma BusyShrinks(pcs: map<nat, Pc>, t: nat)
    requires t in pcs && pcs[t] != Idle
    ensures |Busy(pcs[t := Idle])| < |Busy(pcs)|
  {
    assert Busy(pcs[t := Idle]) == Busy(pcs) - {t} && t in Busy(pcs);
  }

  /** From every sound state, what is under way can be brought to its end. */
  lemma {:induction false} AllCanFinish(s: State)
    requires Inv(s)
    ensures exists events, pcs :: Reaches(s, events, pcs) && Busy(pcs) == {}
    decreases |Busy(s.pcs)|
  {
    if s.owner == None && Busy(s.pcs) == {} {
      NothingReaches(s);
    } else {
      var t := SomeBusy(s);
      hide Inv, RunAll, Possible, Next, Enabled, Busy, AllGoOn;
      if s.owner.Some? {
        OwnerCanFinish(s, t);
      } else {
        WaiterCanFinish(s, t);
      }
      var events :| Reaches(s, events, s.pcs[t := Idle]);
      RunReaches(s, events, s.pcs[t := Idle]);
      BusyShrinks(s.pcs, t);
      AllCanFinish(RunAll(s, events));
      var more, pcs :| Reaches(RunAll(s, events), more, pcs) && Busy(pcs) == {};
      ReachesThen(s, events, s.pcs[t := Idle], more, pcs);
    }
  }

  lemma SomeBusy(s: State) returns (t: nat)
    requires Inv(s) && (s.owner.Some? || Busy(s.pcs) != {})
    ensures t in s.pcs && s.pcs[t] != Idle && (s.owner.Some? ==> s.owner == Some(t))
  {
    hide HistoryInv, KnownSenders, DataInv;
    if s.owner.Some? {
      t := s.owner.value;
      OwnerCanMove(s, t);
    } else {
      t :| t in Busy(s.pcs);
    }
  }

  /** Every thread is idle, and all that it sent, before or since, is in the output. */
  predicate AllOut(s: State, s': State) {
    && (forall t :: t in s'.pcs ==> s'.pcs[t] == Idle && Of(s'.log, t) == Of(s'.sent, t))
    && s'.output == Flatten(s'.log) && s'.owner == None && !s'.data && s.sent <= s'.sent
  }

  /**
   * From every state that can be reached, without anything new being sent, every message under way gets
   * out whole, data mode ends and the lock is free again: no thread can be stuck for good.
   */
  lemma EverythingCanGetOut(s: State, events: seq<Event>)
    requires Init(s) && Possible(s, events)
    ensures exists more :: AllGoOn(more) && Possible(RunAll(s, events), more)
                           && AllOut(RunAll(s, events), RunAll(RunAll(s, events), more))
  {
    hide Flatten, Of, Open, Exclusive, Possible, RunAll, Next, Enabled, SoundPc;
    InitHolds(s);
    RunHolds(s, events);
    var s1 := RunAll(s, events);
    AllCanFinish(s1);
    var more, pcs :| Reaches(s1, more, pcs) && Busy(pcs) == {};
    RunHolds(s1, more);
    IdleIsOut(s1, RunAll(s1, more));
  }

  lemma IdleIsOut(s: State, s': State)
    requires Inv(s') && s'.owner == None && Busy(s'.pcs) == {} && s.sent <= s'.sent
    ensures AllOut(s, s')
  {
    hide Flatten, Of, Open, Exclusive, SoundPc;
    forall t | t in s'.pcs ensures s'.pcs[t] == Idle && Of(s'.log, t) == Of(s'.sent, t) {
      assert t !in Busy(s'.pcs);
      assert Of(s'.sent, t) == Of(s'.log, t) + InFlight(s'.pcs[t]);
    }
  }

  // ------------------------------------------------------------------ the writing loop

  /** What write reports for what is left of a message. */
  datatype WriteResult = Interrupted | Failed | Wrote(n: nat)

  /** write never takes more than it is given. */
  predicate Allowed(left: nat, results: seq<WriteResult>)
    decreases |results|
  {
    results == [] || left == 0 ||
    match results[0]
    case Wrote(n) => n <= left && Allowed(left - n, results[1..])
    case _ => Allowed(left, results[1..])
  }

  lemma AllowedStep(left: nat, results: seq<WriteResult>, k: nat)
    requires k < |results| && left > 0 && Allowed(left, results[k..])
    ensures match results[k]
            case Wrote(n) => n <= left && Allowed(left - n, results[k + 1..])
            case _ => Allowed(left, results[k + 1..])
  {
    assert results[k..][1..] == results[k + 1..];
  }

  /** The bytes that write took. */
  function Taken(results: seq<WriteResult>): nat {
    if results == [] then 0
    else Taken(results[..|results| - 1]) + match results[|results| - 1] case Wrote(n) => n case _ => 0
  }

  /** The loop goes on: nothing failed, and every write took something. */
  predicate NoFailure(results: seq<WriteResult>) {
    forall i :: 0 <= i < |results| ==> results[i] != Failed && results[i] != Wrote(0)
  }

  /**
   * at_write_unlocked on the results of its writes, as far as they are given: what is out is always a
   * prefix of the message; it is the whole message on success, and the loop only gives up on a failure.
   */
  method WriteUnlocked(blob: seq<Byte>, results: seq<WriteResult>)
    returns (ok: bool, failed: bool, output: seq<Byte>, used: nat)
    requires Allowed(|blob|, results)
    ensures used <= |results| && output <= blob && |output| == Taken(results[..used])
    ensures ok <==> output == blob && !failed
    ensures failed <==> used > 0 && !NoFailure(results[..used])
    ensures failed ==> NoFailure(results[..used - 1])
    ensures !ok && !failed ==> used == |results|
  {
    var len := |blob|;
    output, used, failed := [], 0, false;
    assert results[0..] == results;
    while len > 0 && used < |results|
      invariant used <= |results| && 0 <= len && len + |output| == |blob| && !failed
      invariant output == blob[..|output|] && |output| == Taken(results[..used])
      invariant Allowed(len, results[used..]) && NoFailure(results[..used])
      decreases |results| - used
    {
      var val := results[used];
      AllowedStep(len, results, used);
      assert results[..used + 1] == results[..used] + [val] && results[..used + 1][..used] == results[..used];
      used := used + 1;
      if val == Failed || val == Wrote(0) {
        assert results[..used][used - 1] == val && results[..used - 1] == results[..used][..used - 1];
        return false, true, output, used;
      }
      if val.Wrote? {
        output := output + blob[|output|..|output| + val.n];
        len := len - val.n;
      }
    }
    ok := len == 0;
  }
}
