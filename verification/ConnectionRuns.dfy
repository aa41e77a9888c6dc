/** What a whole run of a connection comes to, told from its events alone: when it is being closed, what it is
    waiting for, and when it may be deleted (font/connection.cpp). */
module ConnectionRuns {
  import opened ConnectionProtocol

  // ----- what the events say

  /** Why a connection is closed: it is asked to, a read or a write fails other than by an abort, a header announces
      a size out of range, the first packet is for no protocol, or a protocol asks for it. */
  predicate Reason(before: seq<Event>, e: Event) {
    match e
    case Close => true
    case HeaderDone(error, size) => error != Aborted && (error != Success || size <= 0 || size >= 16752)
    case PacketDone(error, known, calls) =>
      if error == Success then (!known && !Served(before)) || CallClose in calls else error != Aborted
    case WriteDone(error) => error != Success && error != Aborted
    case _ => false
  }

  predicate HasReason(es: seq<Event>) { exists i: nat :: i < |es| && Reason(es[..i], es[i]) }

  predicate IsServed(e: Event) { e.PacketDone? && e.error == Success }

  /** A packet has been read. */
  predicate Served(es: seq<Event>) { exists i: nat :: i < |es| && IsServed(es[i]) }

  predicate IsAbortedRead(e: Event) { (e.HeaderDone? || e.PacketDone?) && e.error == Aborted }

  predicate ReadAborted(es: seq<Event>) { exists i: nat :: i < |es| && IsAbortedRead(es[i]) }

  predicate IsFailedWrite(e: Event) { e.WriteDone? && e.error != Success }

  predicate WriteHasFailed(es: seq<Event>) { exists i: nat :: i < |es| && IsFailedWrite(es[i]) }

  /** A read has failed, by its outcome or its size, before the connection was closing. */
  predicate IsFailedRead(before: seq<Event>, e: Event) {
    && CloseTask !in before
    && ((e.HeaderDone? && (e.error != Success || e.size <= 0 || e.size >= 16752)) || (e.PacketDone? && e.error != Success))
  }

  predicate ReadHasFailed(es: seq<Event>) { exists i: nat :: i < |es| && IsFailedRead(es[..i], es[i]) }

  /** What is to be read next: nothing before the connection is accepted, a packet after a header, else a header. */
  function Awaited(es: seq<Event>): Reading {
    if es == [] then NoRead
    else
      match es[|es| - 1]
      case Accept => HeaderRead
      case HeaderDone(_, _) => PacketRead
      case PacketDone(_, _, _) => HeaderRead
      case _ => Awaited(es[..|es| - 1])
  }

  function Count(es: seq<Event>, e: Event): nat {
    if es == [] then 0 else Count(es[..|es| - 1], e) + if es[|es| - 1] == e then 1 else 0
  }

  // ----- one event more

  lemma {:induction false} RunSnoc(s: State, es: seq<Event>, e: Event)
    ensures EnabledRun(s, es + [e]) <==> EnabledRun(s, es) && Enabled(Run(s, es), e)
    ensures Run(s, es + [e]) == Step(Run(s, es), e)
    decreases |es|
  {
    hide Step, Enabled;
    if es == [] {
      assert [] + [e] == [e] && [e][1..] == [];
    } else {
      RunSnoc(Step(s, es[0]), es[1..], e);
      assert (es + [e])[1..] == es[1..] + [e];
    }
  }

  lemma {:induction false} SaidOneMore(es: seq<Event>, e: Event)
    ensures HasReason(es + [e]) <==> HasReason(es) || Reason(es, e)
    ensures Served(es + [e]) <==> Served(es) || IsServed(e)
    ensures ReadAborted(es + [e]) <==> ReadAborted(es) || IsAbortedRead(e)
    ensures WriteHasFailed(es + [e]) <==> WriteHasFailed(es) || IsFailedWrite(e)
    ensures ReadHasFailed(es + [e]) <==> ReadHasFailed(es) || IsFailedRead(es, e)
  {
    hide Reason, IsServed, IsAbortedRead, IsFailedWrite, IsFailedRead;
    var more := es + [e];
    assert more[|es|] == e && more[..|es|] == es;
    assert forall i: nat :: i < |es| ==> more[i] == es[i] && more[..i] == es[..i];
  }

  lemma {:induction false} CountedOneMore(es: seq<Event>, e: Event)
    ensures Awaited(es + [e]) == if e == Accept || e.PacketDone? then HeaderRead else if e.HeaderDone? then PacketRead else Awaited(es)
    ensures forall x: Event {:trigger Count(es + [e], x)} :: Count(es + [e], x) == Count(es, x) + if x == e then 1 else 0
    ensures CloseTask in es + [e] <==> CloseTask in es || e == CloseTask
  {
    assert (es + [e])[..|es|] == es;
  }

  // ----- the law of runs

  /** What a run has come to, by its events. */
  predicate Explained(es: seq<Event>, s: State) {
    && (s.closeState != NotClosing <==> HasReason(es))
    && (s.closeState == Closing <==> CloseTask in es)
    && (s.closeState == NotClosing ==> (s.hasProtocol <==> Served(es)))
    && (s.closeState == NotClosing ==> s.reading == if ReadAborted(es) then NoRead else Awaited(es))
    && (Awaited(es) != NoRead || ReadAborted(es) ==> s.log != [])
    && (s.writeError <==> WriteHasFailed(es)) && (s.readError <==> ReadHasFailed(es))
    && s.refCount + Count(es, UnRef) == Count(es, AddRef)
  }

  lemma {:induction false} ReactCloses(s: State, calls: seq<Call>)
    ensures var t := React(s, calls);
      && (s.closeState != Closing ==> t.closeState != Closing)
      && (t.closeState != NotClosing <==> s.closeState != NotClosing || CallClose in calls)
      && t.hasProtocol == s.hasProtocol && t.writeError == s.writeError && t.readError == s.readError && t.refCount == s.refCount
      && |t.log| >= |s.log|
    decreases |calls|
  {
    if calls != [] {
      ReactCloses(if calls[0] == CallClose then RequestClose(s) else Sent(s), calls[1..]);
      assert calls == [calls[0]] + calls[1..];
    }
  }

  lemma {:induction false} FinishSame(s: State)
    ensures var t := Finish(s);
      && t.closeState == s.closeState && t.hasProtocol == s.hasProtocol && t.writeError == s.writeError
      && t.readError == s.readError && t.refCount == s.refCount && t.reading == s.reading && |t.log| >= |s.log|
  {
  }

  lemma {:induction false} HeaderExplained(es: seq<Event>, s: State, e: Event)
    requires Inv(s) && Explained(es, s) && Enabled(s, e) && e.HeaderDone?
    ensures Explained(es + [e], Step(s, e))
  {
    hide HasReason, Served, ReadAborted, WriteHasFailed, ReadHasFailed, Awaited, Count, React, Finish, PhaseOf;
    SaidOneMore(es, e);
    CountedOneMore(es, e);
    FinishSame(s.(pendingRead := s.pendingRead - 1, reading := NoRead));
  }

  lemma {:induction false} PacketExplained(es: seq<Event>, s: State, e: Event)
    requires Inv(s) && Explained(es, s) && Enabled(s, e) && e.PacketDone?
    ensures Explained(es + [e], Step(s, e))
  {
    hide HasReason, Served, ReadAborted, WriteHasFailed, ReadHasFailed, Awaited, Count, React, Finish, PhaseOf;
    SaidOneMore(es, e);
    CountedOneMore(es, e);
    var t := s.(pendingRead := s.pendingRead - 1, reading := NoRead);
    FinishSame(t);
    ReactCloses(t.(hasProtocol := true), e.calls);
  }

  lemma {:induction false} WriteExplained(es: seq<Event>, s: State, e: Event)
    requires Inv(s) && Explained(es, s) && Enabled(s, e) && e.WriteDone?
    ensures Explained(es + [e], Step(s, e))
  {
    hide HasReason, Served, ReadAborted, WriteHasFailed, ReadHasFailed, Awaited, Count, React, Finish, PhaseOf;
    SaidOneMore(es, e);
    CountedOneMore(es, e);
    var t := s.(pendingWrite := s.pendingWrite - 1, writing := Less(s.writing));
    FinishSame(if e.error != Success then WriteFailed(t, e.error) else t);
  }

  lemma {:induction false} TaskExplained(es: seq<Event>, s: State, e: Event)
    requires Inv(s) && Explained(es, s) && Enabled(s, e) && e == CloseTask
    ensures Explained(es + [e], Step(s, e))
  {
    hide HasReason, Served, ReadAborted, WriteHasFailed, ReadHasFailed, Awaited, Count, React, Finish, PhaseOf;
    SaidOneMore(es, e);
    CountedOneMore(es, e);
    FinishSame(s.(closeTasks := Less(s.closeTasks), closeState := Closing, hasProtocol := false));
  }

  lemma {:induction false} CallExplained(es: seq<Event>, s: State, e: Event)
    requires Inv(s) && Explained(es, s) && Enabled(s, e) && !e.HeaderDone? && !e.PacketDone? && !e.WriteDone? && e != CloseTask
    ensures Explained(es + [e], Step(s, e))
  {
    hide HasReason, Served, ReadAborted, WriteHasFailed, ReadHasFailed, Awaited, Count, React, Finish, PhaseOf;
    SaidOneMore(es, e);
    CountedOneMore(es, e);
  }

  lemma {:induction false} StepExplained(es: seq<Event>, s: State, e: Event)
    requires Inv(s) && Explained(es, s) && Enabled(s, e)
    ensures Explained(es + [e], Step(s, e))
  {
    hide *;
    match e
    case HeaderDone(error, size) => HeaderExplained(es, s, e);
    case PacketDone(error, known, calls) => PacketExplained(es, s, e);
    case WriteDone(error) => WriteExplained(es, s, e);
    case CloseTask => TaskExplained(es, s, e);
    case _ => CallExplained(es, s, e);
  }

  /** On every run a connection is being closed exactly if there has been a reason, and closing exactly if the task
      for it has run; until then it is waiting for the next header or packet unless a read was aborted. */
  lemma {:induction false} EveryRunIsExplained(es: seq<Event>)
    requires EnabledRun(INITIAL, es)
    ensures Inv(Run(INITIAL, es)) && Explained(es, Run(INITIAL, es))
    decreases |es|
  {
    if es != [] {
      var before, e := es[..|es| - 1], es[|es| - 1];
      assert es == before + [e];
      RunSnoc(INITIAL, before, e);
      EveryRunIsExplained(before);
      StepKeeps(Run(INITIAL, before), e);
      StepExplained(before, Run(INITIAL, before), e);
    }
  }

  /** A released connection is deleted exactly when all references have been given back. */
  lemma {:induction false} DeletedUnreferenced(es: seq<Event>)
    requires EnabledRun(INITIAL, es + [Release])
    ensures Run(INITIAL, es + [Release]).deleted <==> Count(es, AddRef) == Count(es, UnRef)
    ensures !Run(INITIAL, es + [Release]).deleted ==> Run(INITIAL, es + [Release]) == Run(INITIAL, es)
  {
    RunSnoc(INITIAL, es, Release);
    EveryRunIsExplained(es);
    hide Run, EnabledRun, PhaseOf, HasReason, Served, ReadAborted, WriteHasFailed, ReadHasFailed, Awaited, Count;
  }

  lemma {:induction false} SendStep(s: State)
    requires Inv(s)
    ensures var starts := s.writing == 0 && s.closeState != Closing && !s.writeError;
      Step(s, Send).log == (if starts then s.log + [StartWrite] else s.log) && Step(s, Send).writing == s.writing + if starts then 1 else 0
  {
    hide PhaseOf;
  }

  /** A message is sent at once exactly when none is in flight, the connection is not closing and no write failed. */
  lemma {:induction false} SendStarts(es: seq<Event>)
    requires EnabledRun(INITIAL, es + [Send])
    ensures var s, t := Run(INITIAL, es), Run(INITIAL, es + [Send]);
      var starts := s.writing == 0 && CloseTask !in es && !WriteHasFailed(es);
      t.log == (if starts then s.log + [StartWrite] else s.log) && t.writing == s.writing + if starts then 1 else 0
  {
    hide Run, EnabledRun, Step, Inv, HasReason, Served, ReadAborted, WriteHasFailed, ReadHasFailed, Awaited, Count;
    RunSnoc(INITIAL, es, Send);
    EveryRunIsExplained(es);
    SendStep(Run(INITIAL, es));
  }

  /** What can happen next: until the connection is deleted it can be asked to close, to send and to be referenced;
      it can be accepted once, before anything else; what is in flight can complete with any outcome, and scheduled
      tasks run. */
  lemma {:induction false} WhatCanHappen(es: seq<Event>, error: Error, size: int, known: bool, calls: seq<Call>)
    requires EnabledRun(INITIAL, es)
    ensures var s := Run(INITIAL, es);
      && (!s.deleted ==> Enabled(s, Close) && Enabled(s, Send) && Enabled(s, AddRef))
      && (!s.deleted ==> (Enabled(s, UnRef) <==> Count(es, AddRef) > Count(es, UnRef)))
      && (Enabled(s, Accept) <==> s.log == [] && !HasReason(es))
      && (Enabled(s, HeaderDone(error, size)) <==> s.pendingRead == 1 && s.reading == HeaderRead)
      && (Enabled(s, PacketDone(error, known, calls)) <==> s.pendingRead == 1 && s.reading == PacketRead)
      && (Enabled(s, WriteDone(error)) <==> s.pendingWrite == 1)
      && (Enabled(s, CloseTask) <==> HasReason(es) && CloseTask !in es)
      && (Enabled(s, Release) <==> ScheduleRelease in s.log && Delete !in s.log)
  {
    hide Run, EnabledRun, Inv, Enabled, PhaseOf, Says, InOrder, HasReason, Served, ReadAborted, WriteHasFailed, ReadHasFailed,
      Awaited, Count;
    EveryRunIsExplained(es);
    PhaseMeaning(Run(INITIAL, es).log);
    EnabledIs(Run(INITIAL, es), error, size, known, calls);
  }

  lemma {:induction false} EnabledIs(s: State, error: Error, size: int, known: bool, calls: seq<Call>)
    requires Inv(s) && (PhaseOf(s.log) != Broken ==> Says(s.log))
    ensures !s.deleted ==> Enabled(s, Close) && Enabled(s, Send) && Enabled(s, AddRef)
    ensures !s.deleted ==> (Enabled(s, UnRef) <==> s.refCount > 0)
    ensures Enabled(s, Accept) <==> s.log == [] && s.closeState == NotClosing
    ensures Enabled(s, HeaderDone(error, size)) <==> s.pendingRead == 1 && s.reading == HeaderRead
    ensures Enabled(s, PacketDone(error, known, calls)) <==> s.pendingRead == 1 && s.reading == PacketRead
    ensures Enabled(s, WriteDone(error)) <==> s.pendingWrite == 1
    ensures Enabled(s, CloseTask) <==> s.closeState == Requested
    ensures Enabled(s, Release) <==> ScheduleRelease in s.log && Delete !in s.log
  {
    hide PhaseOf;
  }
}
