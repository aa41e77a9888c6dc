/** How a connection is shut down (font/connection.cpp, font/connection.h): completions of asynchronous reads
    and writes, dispatcher tasks and calls from protocols, in any order, each a step of one state. */
module ConnectionProtocol {

  const NETWORKMESSAGE_MAXSIZE: int := 16768

  datatype CloseState = NotClosing | Requested | Closing

  /** Outcome of an asynchronous operation. */
  datatype Error = Success | Aborted | Eof | ConnectionReset | Other

  datatype Reading = NoRead | HeaderRead | PacketRead

  /** What the connection does to the outside, as a log. */
  datatype Io = StartRead | StartWrite | CloseSocket | ScheduleRelease | Delete

  /** The fields of a connection, and around them: the read and the writes in flight, what is scheduled for
      it, and the log. */
  datatype State = State(
    closeState: CloseState, pendingRead: int, pendingWrite: int, readError: bool, writeError: bool,
    socketClosed: bool, refCount: nat, hasProtocol: bool,
    reading: Reading, writing: nat, closeTasks: nat, releaseTasks: nat, deleted: bool, log: seq<Io>)

  const INITIAL: State :=
    State(NotClosing, 0, 0, false, false, false, 0, false, NoRead, 0, 0, 0, false, [])

  // ----- order of the log

  datatype Phase = Open | Closed | Releasing | Gone | Broken

  function Advance(p: Phase, e: Io): Phase {
    if p == Open && (e == StartRead || e == StartWrite) then Open
    else if p == Open && e == CloseSocket then Closed
    else if p == Closed && e == ScheduleRelease then Releasing
    else if p == Releasing && e == Delete then Gone
    else Broken
  }

  function PhaseOf(log: seq<Io>): Phase {
    if log == [] then Open else Advance(PhaseOf(log[..|log| - 1]), log[|log| - 1])
  }

  lemma {:induction false} PhaseSnoc(log: seq<Io>, e: Io)
    ensures PhaseOf(log + [e]) == Advance(PhaseOf(log), e)
  {
    assert (log + [e])[..|log|] == log;
  }

  /** No read or write starts once the socket is closed; it is closed once, the release is scheduled once and
      after that, and the connection is deleted last and only once released. */
  predicate InOrder(log: seq<Io>) {
    && (forall i, j :: 0 <= i < j < |log| && log[i] == CloseSocket ==> log[j] == ScheduleRelease || log[j] == Delete)
    && (forall i, j :: 0 <= i < j < |log| && log[i] == ScheduleRelease ==> log[j] == Delete)
    && (forall i :: 0 <= i < |log| - 1 ==> log[i] != Delete)
    && (forall j :: 0 <= j < |log| && log[j] == ScheduleRelease ==> CloseSocket in log[..j])
    && (forall j :: 0 <= j < |log| && log[j] == Delete ==> ScheduleRelease in log[..j])
  }

  /** What may follow a log in order. */
  predicate Fits(log: seq<Io>, e: Io) {
    && Delete !in log
    && (e != Delete ==> ScheduleRelease !in log)
    && (e == Delete ==> ScheduleRelease in log)
    && (e == ScheduleRelease ==> CloseSocket in log)
    && (e != Delete && e != ScheduleRelease ==> CloseSocket !in log)
  }

  lemma {:induction false} InOrderSnoc(log: seq<Io>, e: Io)
    ensures InOrder(log + [e]) <==> InOrder(log) && Fits(log, e)
  {
    var n := |log|;
    var more := log + [e];
    assert more[..n] == log && forall j :: 0 <= j <= n ==> more[..j] == log[..j];
    assert forall j :: 0 <= j < n ==> more[j] == log[j];
    assert more[n] == e;
  }

  /** What the phase says of the log. */
  predicate Says(log: seq<Io>) {
    && (PhaseOf(log) == Open <==> CloseSocket !in log)
    && (PhaseOf(log) == Gone <==> Delete in log)
    && (PhaseOf(log) == Releasing || PhaseOf(log) == Gone <==> ScheduleRelease in log)
    && (ScheduleRelease in log ==> CloseSocket in log)
  }

  lemma {:induction false} SaysSnoc(log: seq<Io>, e: Io)
    requires PhaseOf(log) != Broken ==> Says(log)
    ensures PhaseOf(log) != Broken && Fits(log, e) <==> PhaseOf(log + [e]) != Broken
    ensures PhaseOf(log + [e]) != Broken ==> Says(log + [e])
  {
    PhaseSnoc(log, e);
    hide PhaseOf;
    assert forall x: Io :: x in log + [e] <==> x in log || x == e;
  }

  lemma {:induction false} PhaseMeaning(log: seq<Io>)
    ensures PhaseOf(log) != Broken <==> InOrder(log)
    ensures PhaseOf(log) != Broken ==> Says(log)
  {
    if log == [] {
      assert InOrder(log) && Says(log);
    } else {
      var n := |log| - 1;
      PhaseMeaning(log[..n]);
      SaysSnoc(log[..n], log[n]);
      InOrderSnoc(log[..n], log[n]);
      assert log == log[..n] + [log[n]];
      hide InOrder, PhaseOf, Says, Fits;
    }
  }

  // ----- the handlers, as steps

  function Less(n: nat): nat { if n > 0 then n - 1 else 0 }

  function Start(s: State, e: Io): State { s.(log := s.log + [e]) }

  function StartReading(s: State, r: Reading): State {
    Start(s.(pendingRead := s.pendingRead + 1, reading := r), StartRead)
  }

  /** `closeConnection` */
  function RequestClose(s: State): State {
    if s.closeState != NotClosing then s else s.(closeState := Requested, closeTasks := s.closeTasks + 1)
  }

  /** `closingConnection`: the socket is closed once no write is in flight, the release scheduled once
      nothing is. */
  function Finish(s: State): State {
    if s.pendingWrite == 0 || s.writeError then
      var c := if s.socketClosed then s else Start(s.(socketClosed := true), CloseSocket);
      if c.pendingRead == 0 then Start(c.(releaseTasks := c.releaseTasks + 1), ScheduleRelease) else c
    else s
  }

  /** `handleReadError`: an abort is the closing itself, anything else asks for it. */
  function ReadFailed(s: State, error: Error): State {
    (if error == Aborted then s else RequestClose(s)).(readError := true)
  }

  function WriteFailed(s: State, error: Error): State {
    (if error == Aborted then s else RequestClose(s)).(writeError := true)
  }

  /** `send`: refused while closing, started if no other is in flight, otherwise left to the message pool. */
  function Sent(s: State): State {
    if s.closeState == Closing || s.writeError || s.pendingWrite != 0 then s
    else Start(s.(pendingWrite := s.pendingWrite + 1, writing := s.writing + 1), StartWrite)
  }

  /** What a protocol may do to its connection while it handles a message. */
  datatype Call = CallClose | CallSend

  function React(s: State, calls: seq<Call>): State
    decreases |calls|
  {
    if calls == [] then s
    else React(if calls[0] == CallClose then RequestClose(s) else Sent(s), calls[1..])
  }

  datatype Event =
    | Accept
    | Close
    | CloseTask
    | HeaderDone(error: Error, size: int)
    | PacketDone(error: Error, known: bool, calls: seq<Call>)
    | WriteDone(error: Error)
    | Send
    | Release
    | AddRef
    | UnRef

  /** When a step can happen: operations complete only if in flight, tasks run only if scheduled, a
      connection is accepted once at the start, and references are given back only by their holders. */
  predicate Enabled(s: State, e: Event) {
    && !s.deleted
    && match e
       case Accept => s.log == [] && s.closeState == NotClosing
       case CloseTask => s.closeTasks > 0
       case HeaderDone(_, _) => s.reading == HeaderRead
       case PacketDone(_, _, _) => s.reading == PacketRead
       case WriteDone(_) => s.writing > 0
       case Release => s.releaseTasks > 0
       case UnRef => s.refCount > 0
       case _ => true
  }

  function HeaderStep(s: State, error: Error, size: int): State {
    var t := s.(pendingRead := s.pendingRead - 1, reading := NoRead);
    if t.closeState == Closing then Finish(t)
    else if error == Success && 0 < size < NETWORKMESSAGE_MAXSIZE - 16 then StartReading(t, PacketRead)
    else ReadFailed(t, error)
  }

  /** A packet goes to the protocol, which an unknown first byte leaves without; then the next header is read. */
  function PacketStep(s: State, error: Error, known: bool, calls: seq<Call>): State {
    var t := s.(pendingRead := s.pendingRead - 1, reading := NoRead);
    if t.closeState == Closing then Finish(t)
    else if error != Success then ReadFailed(t, error)
    else if !t.hasProtocol && !known then RequestClose(t)
    else StartReading(React(t.(hasProtocol := true), calls), HeaderRead)
  }

  function WriteStep(s: State, error: Error): State {
    Written(s.(pendingWrite := s.pendingWrite - 1, writing := Less(s.writing)), error)
  }

  function Written(t: State, error: Error): State {
    var u := if error != Success then WriteFailed(t, error) else t;
    if u.closeState == Closing then Finish(u) else u
  }

  function CloseTaskStep(s: State): State {
    var t := s.(closeTasks := Less(s.closeTasks));
    if t.closeState != Requested then t else Finish(t.(closeState := Closing, hasProtocol := false))
  }

  /** `releaseConnection`: tried again while someone holds a reference. */
  function ReleaseStep(s: State): State {
    if s.refCount > 0 then s
    else Start(s.(releaseTasks := Less(s.releaseTasks), deleted := true), Delete)
  }

  function Step(s: State, e: Event): State {
    match e
    case Accept => StartReading(s, HeaderRead)
    case Close => RequestClose(s)
    case CloseTask => CloseTaskStep(s)
    case HeaderDone(error, size) => HeaderStep(s, error, size)
    case PacketDone(error, known, calls) => PacketStep(s, error, known, calls)
    case WriteDone(error) => WriteStep(s, error)
    case Send => Sent(s)
    case Release => ReleaseStep(s)
    case AddRef => s.(refCount := s.refCount + 1)
    case UnRef => s.(refCount := if s.refCount > 0 then s.refCount - 1 else 0)
  }

  lemma {:induction false} WriteDoneIs(s: State, error: Error)
    ensures Step(s, WriteDone(error)) == Written(s.(pendingWrite := s.pendingWrite - 1, writing := Less(s.writing)), error)
  {
    hide Written;
  }

  // ----- what every step keeps

  /** Completions still to come. */
  function Remaining(s: State): int { s.pendingRead + s.pendingWrite }

  predicate Counts(s: State) {
    && s.pendingRead == (if s.reading == NoRead then 0 else 1)
    && s.pendingWrite == s.writing <= 1
    && (s.writeError ==> s.writing == 0)
    && (s.reading != NoRead ==> s.log != [])
    && s.closeTasks == (if s.closeState == Requested then 1 else 0)
  }

  predicate Inv(s: State) {
    && Counts(s)
    && s.releaseTasks + (if s.deleted then 1 else 0) == (if s.closeState == Closing && Remaining(s) == 0 then 1 else 0)
    && (s.socketClosed <==> s.closeState == Closing && s.pendingWrite == 0)
    && PhaseOf(s.log) ==
       if s.deleted then Gone else if s.releaseTasks > 0 then Releasing else if s.socketClosed then Closed else Open
  }

  /** A state between the pieces of a handler while the connection is not closing. */
  predicate Active(s: State) {
    && Counts(s) && s.closeState != Closing && s.releaseTasks == 0 && !s.deleted && !s.socketClosed && PhaseOf(s.log) == Open
  }

  lemma {:induction false} ReactKeeps(s: State, calls: seq<Call>)
    requires Active(s)
    ensures Active(React(s, calls)) && React(s, calls).reading == s.reading
    decreases |calls|
  {
    if calls != [] {
      PhaseSnoc(s.log, StartWrite);
      ReactKeeps(if calls[0] == CallClose then RequestClose(s) else Sent(s), calls[1..]);
    }
  }

  lemma {:induction false} FinishKeeps(s: State)
    requires Counts(s) && s.closeState == Closing && s.releaseTasks == 0 && !s.deleted
    requires s.socketClosed ==> s.pendingWrite == 0
    requires PhaseOf(s.log) == if s.socketClosed then Closed else Open
    ensures Inv(Finish(s)) && Remaining(Finish(s)) == Remaining(s)
  {
    hide PhaseOf;
    PhaseSnoc(s.log, CloseSocket);
    PhaseSnoc(s.log, ScheduleRelease);
    PhaseSnoc(s.log + [CloseSocket], ScheduleRelease);
    assert s.writeError ==> s.pendingWrite == 0;
  }

  lemma {:induction false} HeaderKeeps(s: State, error: Error, size: int)
    requires Inv(s) && Enabled(s, HeaderDone(error, size))
    ensures Inv(HeaderStep(s, error, size))
  {
    hide PhaseOf;
    PhaseSnoc(s.log, StartRead);
    if s.closeState == Closing {
      FinishKeeps(s.(pendingRead := s.pendingRead - 1, reading := NoRead));
      hide Finish;
    }
  }

  lemma {:induction false} PacketKeeps(s: State, error: Error, known: bool, calls: seq<Call>)
    requires Inv(s) && Enabled(s, PacketDone(error, known, calls))
    ensures Inv(PacketStep(s, error, known, calls))
  {
    hide PhaseOf, React;
    var t := s.(pendingRead := s.pendingRead - 1, reading := NoRead);
    if s.closeState == Closing {
      FinishKeeps(t);
      hide Finish;
    } else {
      var u := t.(hasProtocol := true);
      ReactKeeps(u, calls);
      PhaseSnoc(React(u, calls).log, StartRead);
    }
  }

  lemma {:induction false} WriteKeeps(s: State, error: Error)
    requires Inv(s) && Enabled(s, WriteDone(error))
    ensures Inv(WriteStep(s, error))
  {
    hide PhaseOf;
    var t := s.(pendingWrite := s.pendingWrite - 1, writing := s.writing - 1);
    assert Less(s.writing) == s.writing - 1;
    var u := if error != Success then WriteFailed(t, error) else t;
    if u.closeState == Closing {
      FinishKeeps(u);
      hide Finish;
    }
  }

  lemma {:induction false} CloseTaskKeeps(s: State)
    requires Inv(s) && Enabled(s, CloseTask)
    ensures Inv(CloseTaskStep(s))
  {
    hide PhaseOf;
    FinishKeeps(s.(closeTasks := 0, closeState := Closing, hasProtocol := false));
    hide Finish;
  }

  lemma {:induction false} CallsKeep(s: State, e: Event)
    requires Inv(s) && Enabled(s, e) && (e == Accept || e == Close || e == Send || e == Release || e == AddRef || e == UnRef)
    ensures Inv(Step(s, e))
  {
    PhaseSnoc(s.log, StartRead);
    PhaseSnoc(s.log, StartWrite);
    PhaseSnoc(s.log, Delete);
    hide PhaseOf;
  }

  lemma {:induction false} StepKeeps(s: State, e: Event)
    requires Inv(s) && Enabled(s, e)
    ensures Inv(Step(s, e))
  {
    hide Inv, HeaderStep, PacketStep, WriteStep, CloseTaskStep, Finish;
    match e
    case CloseTask => CloseTaskKeeps(s);
    case HeaderDone(error, size) => HeaderKeeps(s, error, size);
    case PacketDone(error, known, calls) => PacketKeeps(s, error, known, calls);
    case WriteDone(error) => WriteKeeps(s, error);
    case _ => CallsKeep(s, e);
  }

  // ----- runs

  predicate EnabledRun(s: State, es: seq<Event>)
    decreases |es|
  {
    es == [] || (Enabled(s, es[0]) && EnabledRun(Step(s, es[0]), es[1..]))
  }

  function Run(s: State, es: seq<Event>): State
    decreases |es|
  {
    if es == [] then s else Run(Step(s, es[0]), es[1..])
  }

  /** On every run: pending counts stay in {0, 1} and count what is in flight, the log stays in order (the
      socket is closed at most once and nothing is read or written after that, the release is scheduled at
      most once), the socket is closed only with no write in flight, and the release is scheduled, and the
      connection deleted, only with nothing pending and nothing else scheduled. */
  lemma {:induction false} EveryRunIsSafe(es: seq<Event>)
    requires EnabledRun(INITIAL, es)
    ensures var s := Run(INITIAL, es);
      && s.pendingRead in {0, 1} && s.pendingWrite in {0, 1} && s.writing == s.pendingWrite
      && InOrder(s.log)
      && (CloseSocket in s.log <==> s.socketClosed)
      && (s.socketClosed ==> s.writing == 0)
      && (ScheduleRelease in s.log ==> s.reading == NoRead && s.writing == 0 && s.closeTasks == 0)
      && (Delete in s.log ==> s.deleted && s.releaseTasks == 0)
  {
    RunKeeps(INITIAL, es);
    PhaseMeaning(Run(INITIAL, es).log);
  }

  lemma {:induction false} RunKeeps(s: State, es: seq<Event>)
    requires Inv(s) && EnabledRun(s, es)
    ensures Inv(Run(s, es))
    decreases |es|
  {
    if es != [] {
      StepKeeps(s, es[0]);
      RunKeeps(Step(s, es[0]), es[1..]);
    }
  }

  function Completions(es: seq<Event>): nat {
    if es == [] then 0
    else (if es[0].HeaderDone? || es[0].PacketDone? || es[0].WriteDone? then 1 else 0) + Completions(es[1..])
  }

  /** Once closing, a connection stays so, each completion brings the release one step nearer, nothing else
      moves it away, and the release is scheduled exactly when none remains; at most two do. */
  lemma {:induction false} ClosingProgress(s: State, es: seq<Event>)
    requires Inv(s) && s.closeState == Closing && EnabledRun(s, es)
    ensures var t := Run(s, es);
      && t.closeState == Closing && Remaining(t) == Remaining(s) - Completions(es)
      && 0 <= Remaining(t) <= Remaining(s) <= 2
      && (t.releaseTasks > 0 || t.deleted <==> Completions(es) == Remaining(s))
    decreases |es|
  {
    if es != [] {
      var t := Step(s, es[0]);
      StepKeeps(s, es[0]);
      assert t.closeState == Closing && Remaining(t) == Remaining(s) - Completions([es[0]]) by {
        assert [es[0]][1..] == [];
        CompletionStep(s, es[0]);
      }
      ClosingProgress(t, es[1..]);
    }
  }

  lemma {:induction false} FinishRemaining(s: State)
    ensures Finish(s).closeState == s.closeState && Remaining(Finish(s)) == Remaining(s)
  {
  }

  lemma {:induction false} CompletionStep(s: State, e: Event)
    requires Inv(s) && s.closeState == Closing && Enabled(s, e)
    ensures var t := Step(s, e);
      t.closeState == Closing
      && Remaining(t) == Remaining(s) - if e.HeaderDone? || e.PacketDone? || e.WriteDone? then 1 else 0
  {
    hide Finish, PhaseOf, React;
    var t := s.(pendingRead := s.pendingRead - 1, reading := NoRead);
    FinishRemaining(t);
    if e.WriteDone? {
      var u := s.(pendingWrite := s.pendingWrite - 1, writing := s.writing - 1);
      FinishRemaining(u);
      FinishRemaining(WriteFailed(u, e.error));
    }
  }

  /** A requested close is carried out: its one task is scheduled, finds the request still standing, and
      closes the connection. */
  lemma {:induction false} RequestIsCarriedOut(s: State)
    requires Inv(s)
    ensures Enabled(s, CloseTask) <==> s.closeState == Requested
    ensures s.closeState == Requested ==> Step(s, CloseTask).closeState == Closing
    ensures s.closeState == Requested ==> (Step(s, CloseTask).socketClosed <==> s.writing == 0)
  {
    if s.closeState == Requested { StepKeeps(s, CloseTask); }
  }

  // ----- the connection itself

  /** A connection; the ghost fields are what the network and the dispatcher hold for it. */
  class Connection {
    var closeState: CloseState
    var pendingRead: int
    var pendingWrite: int
    var readError: bool
    var writeError: bool
    var socketClosed: bool
    var refCount: nat
    var hasProtocol: bool
    var lockDepth: nat  // the recursive lock
    ghost var reading: Reading
    ghost var writing: nat
    ghost var closeTasks: nat
    ghost var releaseTasks: nat
    ghost var deleted: bool
    ghost var log: seq<Io>

    ghost function Now(): State
      reads this
    {
      State(closeState, pendingRead, pendingWrite, readError, writeError, socketClosed, refCount, hasProtocol,
            reading, writing, closeTasks, releaseTasks, deleted, log)
    }

    constructor ()
      ensures Now() == INITIAL && Inv(Now()) && lockDepth == 0
    {
      closeState, pendingRead, pendingWrite, refCount, hasProtocol := NotClosing, 0, 0, 0, false;
      readError, writeError, socketClosed, lockDepth := false, false, false, 0;
      reading, writing, closeTasks, releaseTasks, deleted, log := NoRead, 0, 0, 0, false, [];
    }

    /** `async_read`, of a header or of a packet */
    method AsyncRead(r: Reading)
      modifies `pendingRead, `reading, `log
      ensures Now() == StartReading(old(Now()), r)
    {
      pendingRead := pendingRead + 1;
      reading, log := r, log + [StartRead];
    }

    /** `internalSend` */
    method InternalSend()
      modifies `pendingWrite, `writing, `log
      ensures Now() == Start(old(Now()).(pendingWrite := old(pendingWrite) + 1, writing := old(writing) + 1), StartWrite)
    {
      pendingWrite := pendingWrite + 1;
      writing, log := writing + 1, log + [StartWrite];
    }

    /** `closeConnection`, also from within a handler: the lock is recursive. */
    method CloseConnection()
      modifies this
      ensures Now() == RequestClose(old(Now())) && lockDepth == old(lockDepth)
    {
      lockDepth := lockDepth + 1;
      if closeState == NotClosing {
        closeState := Requested;
        closeTasks := closeTasks + 1;
      }
      lockDepth := lockDepth - 1;
    }

    /** `closingConnection`: gives the lock back itself exactly when it schedules the release. */
    method ClosingConnection() returns (done: bool)
      requires lockDepth == 1
      modifies this
      ensures Now() == Finish(old(Now())) && lockDepth == (if done then 0 else 1)
      ensures done <==> releaseTasks == old(releaseTasks) + 1
    {
      if pendingWrite == 0 || writeError {
        if !socketClosed {
          socketClosed := true;
          log := log + [CloseSocket];
        }
        if pendingRead == 0 {
          lockDepth := 0;
          releaseTasks := releaseTasks + 1;
          log := log + [ScheduleRelease];
          return true;
        }
      }
      done := false;
    }

    /** Every handler of a closing connection ends like this. */
    method FinishClosing()
      requires lockDepth == 1
      modifies this
      ensures Now() == Finish(old(Now())) && lockDepth == 0
    {
      hide Finish;
      var done := ClosingConnection();
      if !done { lockDepth := 0; }
    }

    /** `closeConnectionTask` */
    method CloseConnectionTask()
      requires lockDepth == 0
      modifies this
      ensures Now() == Step(old(Now()), CloseTask) && lockDepth == 0
      ensures old(Inv(Now()) && Enabled(Now(), CloseTask)) ==> Inv(Now())
    {
      if Inv(Now()) && Enabled(Now(), CloseTask) { StepKeeps(Now(), CloseTask); }
      hide Inv, Enabled, Finish, PhaseOf;
      lockDepth := 1;
      closeTasks := Less(closeTasks);
      if closeState != Requested {
        lockDepth := 0;
        return;
      }
      closeState := Closing;
      if hasProtocol {
        hasProtocol := false;
      }
      FinishClosing();
    }

    /** `acceptConnection` */
    method AcceptConnection()
      requires Inv(Now()) && Enabled(Now(), Accept)
      modifies this
      ensures Now() == Step(old(Now()), Accept) && Inv(Now()) && lockDepth == old(lockDepth)
    {
      StepKeeps(Now(), Accept);
      hide Inv, Enabled;
      AsyncRead(HeaderRead);
    }

    method HandleReadError(error: Error)
      modifies this
      ensures Now() == ReadFailed(old(Now()), error) && lockDepth == old(lockDepth)
    {
      if error != Aborted { CloseConnection(); }
      readError := true;
    }

    /** `parseHeader`, when the read of a header completes */
    method ParseHeader(error: Error, size: int)
      requires lockDepth == 0 && Inv(Now()) && Enabled(Now(), HeaderDone(error, size))
      modifies this
      ensures Now() == Step(old(Now()), HeaderDone(error, size)) && Inv(Now()) && lockDepth == 0
    {
      StepKeeps(Now(), HeaderDone(error, size));
      hide Inv, Enabled, Finish, ReadFailed, RequestClose, StartReading, PhaseOf;
      lockDepth := 1;
      pendingRead := pendingRead - 1;
      reading := NoRead;
      if closeState == Closing {
        FinishClosing();
        return;
      }
      if error == Success && 0 < size < NETWORKMESSAGE_MAXSIZE - 16 {
        AsyncRead(PacketRead);
      } else {
        HandleReadError(error);
      }
      lockDepth := 0;
    }

    /** What the protocol does to the connection while it handles a message */
    method OnRecvMessage(calls: seq<Call>)
      modifies this
      ensures Now() == React(old(Now()), calls) && lockDepth == old(lockDepth)
      decreases |calls|
    {
      if calls != [] {
        if calls[0] == CallClose {
          CloseConnection();
        } else {
          var sent := SendMessage();
        }
        OnRecvMessage(calls[1..]);
      }
    }

    /** `parsePacket`, when the read of a packet completes */
    method ParsePacket(error: Error, known: bool, calls: seq<Call>)
      requires lockDepth == 0 && Inv(Now()) && Enabled(Now(), PacketDone(error, known, calls))
      modifies this
      ensures Now() == Step(old(Now()), PacketDone(error, known, calls)) && Inv(Now()) && lockDepth == 0
    {
      StepKeeps(Now(), PacketDone(error, known, calls));
      hide Inv, Enabled, Finish, ReadFailed, React, RequestClose, StartReading, PhaseOf;
      lockDepth := 1;
      pendingRead := pendingRead - 1;
      reading := NoRead;
      if closeState == Closing {
        FinishClosing();
        return;
      }
      if error == Success {
        DispatchPacket(known, calls);
      } else {
        HandleReadError(error);
      }
      lockDepth := 0;
    }

    /** The packet goes to the protocol its first byte selects, or to the one already there. */
    method DispatchPacket(known: bool, calls: seq<Call>)
      modifies this
      ensures Now() ==
        (if !old(hasProtocol) && !known then RequestClose(old(Now()))
         else StartReading(React(old(Now()).(hasProtocol := true), calls), HeaderRead))
      ensures lockDepth == old(lockDepth)
    {
      hide React, RequestClose, StartReading;
      if !hasProtocol {
        if !known {
          CloseConnection();
          return;
        }
        hasProtocol := true;
      }
      OnRecvMessage(calls);
      AsyncRead(HeaderRead);
    }

    /** `send`: true unless the connection is closing or has failed to write. */
    method SendMessage() returns (sent: bool)
      modifies this
      ensures Now() == Sent(old(Now())) && lockDepth == old(lockDepth)
      ensures sent <==> old(closeState) != Closing && !old(writeError)
    {
      lockDepth := lockDepth + 1;
      if closeState == Closing || writeError {
        lockDepth := lockDepth - 1;
        return false;
      }
      if pendingWrite == 0 {
        InternalSend();
      }
      lockDepth := lockDepth - 1;
      sent := true;
    }

    method HandleWriteError(error: Error)
      modifies this
      ensures Now() == WriteFailed(old(Now()), error) && lockDepth == old(lockDepth)
    {
      if error != Aborted { CloseConnection(); }
      writeError := true;
    }

    /** `onWriteOperation`, when a write completes */
    method OnWriteOperation(error: Error)
      requires lockDepth == 0 && Inv(Now()) && Enabled(Now(), WriteDone(error))
      modifies this
      ensures Now() == Step(old(Now()), WriteDone(error)) && Inv(Now()) && lockDepth == 0
    {
      hide *;
      ghost var s := Now();
      StepKeeps(s, WriteDone(error));
      WriteDoneIs(s, error);
      TakeWrite();
      LeaveWrite(error);
    }

    method TakeWrite()
      modifies this
      ensures lockDepth == 1
      ensures var s := old(Now()); Now() == s.(pendingWrite := s.pendingWrite - 1, writing := Less(s.writing))
    {
      lockDepth := 1;
      pendingWrite := pendingWrite - 1;
      writing := Less(writing);
    }

    method LeaveWrite(error: Error)
      requires lockDepth == 1
      modifies this
      ensures Now() == Written(old(Now()), error) && lockDepth == 0
    {
      hide Finish, WriteFailed;
      if error != Success {
        HandleWriteError(error);
      }
      if closeState == Closing {
        FinishClosing();
        return;
      }
      lockDepth := 0;
    }

    /** `releaseConnection` and `deleteConnectionTask`: put off while referenced */
    method ReleaseConnection()
      requires Inv(Now()) && Enabled(Now(), Release)
      modifies this
      ensures Now() == Step(old(Now()), Release) && Inv(Now())
    {
      StepKeeps(Now(), Release);
      hide Inv, Enabled;
      if refCount == 0 {
        releaseTasks := Less(releaseTasks);
        deleted, log := true, log + [Delete];
      }
    }

    /** `addRef` and `unRef` */
    method CountRef(added: bool)
      requires Inv(Now()) && Enabled(Now(), if added then AddRef else UnRef)
      modifies this
      ensures Now() == Step(old(Now()), if added then AddRef else UnRef) && Inv(Now())
    {
      StepKeeps(Now(), if added then AddRef else UnRef);
      refCount := if added then refCount + 1 else refCount - 1;
    }
  }
}
