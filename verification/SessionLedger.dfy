/** The session ledger: one terminal event per session, over every interleaving
    of emits, outcome reports, concurrent cancels and closes. A cancel suspends
    twice, so it is two methods here: what runs before it waits and after. */
module SessionLedger {
  import opened Results

  datatype Outcome = Completed | Failed | Cancelled

  /** What the sink received without throwing. */
  datatype Delivered =
    | Body(event: string, sequence: nat)
    | Closed(outcome: Outcome, reason: Option<string>, sequence: nat)

  /** A session as data; `reports` are the outcomes written before the terminal event. */
  datatype Session = Session(
    outcome: Outcome,
    run: Option<nat>,
    started: nat,
    ended: set<nat>,
    sequence: nat,
    terminal: bool,
    delivered: seq<Delivered>,
    reports: seq<Outcome>)

  const NEW_SESSION := Session(Completed, None, 0, {}, 0, false, [], [])

  function Reported(s: Session, o: Outcome): Session {
    if s.terminal then s
    else s.(outcome := if s.outcome == Completed then o else s.outcome, reports := s.reports + [o])
  }

  /** A sink that throws leaves the sequence where it was. */
  function Emitted(s: Session, event: string, throws: bool): Session {
    if s.terminal || throws then s
    else s.(sequence := s.sequence + 1, delivered := s.delivered + [Body(event, s.sequence)])
  }

  function Terminated(s: Session, reason: Option<string>, throws: bool): Session {
    if s.terminal || throws then s
    else s.(sequence := s.sequence + 1, terminal := true,
            delivered := s.delivered + [Closed(s.outcome, reason, s.sequence)])
  }

  function CancelEnded(s: Session, reason: string, throws: bool): Session {
    Terminated(Reported(s, Cancelled), Some(reason), throws)
  }

  class LedgerSession {
    var outcome: Outcome
    var run: Option<nat>
    var started: nat
    var ended: set<nat>
    var sequence: nat
    var terminal: bool
    var delivered: seq<Delivered>
    ghost var reports: seq<Outcome>

    ghost function State(): Session
      reads this
    {
      Session(outcome, run, started, ended, sequence, terminal, delivered, reports)
    }

    constructor ()
      ensures State() == NEW_SESSION
    {
      outcome, run, started, ended := Completed, None, 0, {};
      sequence, terminal, delivered, reports := 0, false, [], [];
    }

    method SetOutcome(o: Outcome)
      modifies this
      ensures State() == Reported(old(State()), o)
    {
      if !terminal {
        reports := reports + [o];
      }
      if terminal || outcome != Completed {
        return;
      }
      outcome := o;
    }

    method RunStarted() returns (id: nat)
      modifies this
      ensures id == old(started)
      ensures State() == old(State()).(run := Some(id), started := id + 1)
    {
      id := started;
      run, started := Some(id), id + 1;
    }

    method RunEnded(id: nat)
      modifies this
      ensures State() == old(State()).(ended := old(ended) + {id})
    {
      ended := ended + {id};
    }

    method Emit(event: string, throws: bool) returns (threw: bool)
      modifies this
      ensures State() == Emitted(old(State()), event, throws) && threw == (throws && !old(terminal))
    {
      if terminal {
        return false;
      }
      if throws {
        return true;
      }
      delivered := delivered + [Body(event, sequence)];
      sequence := sequence + 1;
      return false;
    }

    method Terminate(reason: Option<string>, throws: bool) returns (threw: bool)
      modifies this
      ensures State() == Terminated(old(State()), reason, throws) && threw == (throws && !old(terminal))
    {
      if terminal {
        return false;
      }
      if throws {
        return true;
      }
      delivered := delivered + [Closed(outcome, reason, sequence)];
      sequence, terminal := sequence + 1, true;
      return false;
    }
  }

  datatype CloseResult =
    | AlreadyClosed
    | Ended(outcome: Outcome, finalSequence: nat)
    | CloseFailed(code: string)

  datatype CancelStart = Nothing | Unknown | Proceed(session: LedgerSession)

  class Ledger {
    var sessions: map<string, LedgerSession>
    var closed: set<string>

    constructor ()
      ensures sessions == map[] && closed == {}
    {
      sessions, closed := map[], {};
    }

    method Open(id: string) returns (session: LedgerSession)
      modifies this
      ensures fresh(session) && session.State() == NEW_SESSION
      ensures sessions == old(sessions)[id := session] && closed == old(closed)
    {
      session := new LedgerSession();
      sessions := sessions[id := session];
    }

    /** `cancel` up to its first wait: which session, if any, is to be stopped. */
    method CancelBegin(id: string) returns (start: CancelStart)
      ensures start == if id in closed then Nothing
                       else if id !in sessions then Unknown
                       else if sessions[id].terminal then Nothing
                       else Proceed(sessions[id])
    {
      if id in closed {
        return Nothing;
      }
      if id !in sessions {
        return Unknown;
      }
      return if sessions[id].terminal then Nothing else Proceed(sessions[id]);
    }

    /** `cancel` after its waits, on the session it began with. */
    method CancelEnd(session: LedgerSession, reason: string, throws: bool) returns (threw: bool)
      modifies session
      ensures session.State() == CancelEnded(old(session.State()), reason, throws)
      ensures threw == (throws && !old(session.terminal))
    {
      session.SetOutcome(Cancelled);
      threw := session.Terminate(Some(reason), throws);
    }

    method Close(id: string, throws: bool) returns (r: CloseResult)
      modifies this, if id in sessions then {sessions[id]} else {}
      ensures id in old(closed) ==> r == AlreadyClosed
      ensures id !in old(closed) && id !in old(sessions) ==> r == CloseFailed("VES_DRIVER_SESSION_UNKNOWN")
      ensures id in old(closed) || id !in old(sessions) ==>
                sessions == old(sessions) && closed == old(closed) &&
                (id in old(sessions) ==> old(sessions)[id].State() == old(sessions[id].State()))
      ensures id !in old(closed) && id in old(sessions) ==>
                var s := Terminated(old(sessions[id].State()), None, throws);
                && old(sessions)[id].State() == s
                && (if s.terminal then
                      r == Ended(s.outcome, s.sequence) && sessions == old(sessions) - {id} && closed == old(closed) + {id}
                    else r.CloseFailed? && sessions == old(sessions) && closed == old(closed))
    {
      if id in closed {
        return AlreadyClosed;
      }
      if id !in sessions {
        return CloseFailed("VES_DRIVER_SESSION_UNKNOWN");
      }
      var session := sessions[id];
      var threw := session.Terminate(None, throws);
      if threw {
        return CloseFailed("SINK_THREW");
      }
      sessions := sessions - {id};
      closed := closed + {id};
      return Ended(session.outcome, session.sequence);
    }
  }

  // ---- Every interleaving ----

  datatype Wait = Stopping | AwaitingRun(run: Option<nat>) | Settled

  datatype CancelTask = CancelTask(session: nat, reason: string, wait: Wait)

  /** Sessions by handle: a suspended cancel keeps its session even after the id was closed or reopened. */
  datatype World = World(all: seq<Session>, open': map<string, nat>, closed: set<string>, cancels: seq<CancelTask>)

  const NEW_WORLD := World([], map[], {}, [])

  datatype Step =
    | Open(id: string)
    | Emit(session: nat, event: string, throws: bool)
    | Report(session: nat, outcome: Outcome)
    | StartRun(session: nat)
    | EndRun(session: nat, run: nat)
    | Cancel(id: string, reason: string, stops: bool, throws: bool)
    | StopSettled(task: nat)
    | StopFailed(task: nat)
    | Resume(task: nat, throws: bool)
    | Close(id: string, throws: bool)

  predicate Handles(w: World) {
    && (forall id :: id in w.open' ==> w.open'[id] < |w.all|)
    && (forall i :: 0 <= i < |w.cancels| ==> w.cancels[i].session < |w.all|)
  }

  function On(w: World, i: nat, s: Session): World
    requires i < |w.all|
  {
    w.(all := w.all[i := s])
  }

  predicate RunOver(s: Session, wait: Wait) { wait.AwaitingRun? && (wait.run.None? || wait.run.value in s.ended) }

  /** A step that is not enabled leaves the world as it is. */
  function Next(w: World, step: Step): World
    requires Handles(w)
  {
    match step
    case Open(id) => w.(all := w.all + [NEW_SESSION], open' := w.open'[id := |w.all|])
    case Emit(i, event, throws) => if i < |w.all| then On(w, i, Emitted(w.all[i], event, throws)) else w
    case Report(i, o) => if i < |w.all| then On(w, i, Reported(w.all[i], o)) else w
    case StartRun(i) =>
      if i < |w.all| then On(w, i, w.all[i].(run := Some(w.all[i].started), started := w.all[i].started + 1)) else w
    case EndRun(i, run) => if i < |w.all| then On(w, i, w.all[i].(ended := w.all[i].ended + {run})) else w
    case Cancel(id, reason, stops, throws) =>
      if id in w.closed || id !in w.open' || w.all[w.open'[id]].terminal then w
      else if stops then w.(cancels := w.cancels + [CancelTask(w.open'[id], reason, Stopping)])
      else On(w, w.open'[id], CancelEnded(w.all[w.open'[id]], reason, throws))
    case StopSettled(t) =>
      if t < |w.cancels| && w.cancels[t].wait == Stopping then
        w.(cancels := w.cancels[t := w.cancels[t].(wait := AwaitingRun(w.all[w.cancels[t].session].run))])
      else w
    case StopFailed(t) =>
      if t < |w.cancels| && w.cancels[t].wait == Stopping then
        w.(cancels := w.cancels[t := w.cancels[t].(wait := Settled)])
      else w
    case Resume(t, throws) =>
      if t < |w.cancels| && RunOver(w.all[w.cancels[t].session], w.cancels[t].wait) then
        On(w.(cancels := w.cancels[t := w.cancels[t].(wait := Settled)]), w.cancels[t].session,
           CancelEnded(w.all[w.cancels[t].session], w.cancels[t].reason, throws))
      else w
    case Close(id, throws) =>
      if id in w.closed || id !in w.open' then w
      else
        var s := Terminated(w.all[w.open'[id]], None, throws);
        if s.terminal then On(w, w.open'[id], s).(open' := w.open' - {id}, closed := w.closed + {id})
        else On(w, w.open'[id], s)
  }

  /** The first failed or cancelled report, or completed. */
  function FirstEnd(reports: seq<Outcome>): Outcome {
    if reports == [] then Completed else if reports[0] != Completed then reports[0] else FirstEnd(reports[1..])
  }

  lemma {:induction false} FirstEndSnoc(reports: seq<Outcome>, o: Outcome)
    ensures FirstEnd(reports + [o]) == if FirstEnd(reports) != Completed then FirstEnd(reports) else o
  {
    if reports == [] {
      assert [] + [o] == [o] && [o][1..] == [];
    } else {
      assert (reports + [o])[1..] == reports[1..] + [o];
      FirstEndSnoc(reports[1..], o);
    }
  }

  predicate EndsWithOutcome(delivered: seq<Delivered>, o: Outcome)
    requires delivered != []
  {
    delivered[|delivered| - 1].Closed? && delivered[|delivered| - 1].outcome == o
  }

  /** Deliveries numbered 0, 1, 2, ...; the terminal event once, last, saying the first failed or
      cancelled report there was before it. */
  ghost predicate SessionSound(s: Session) {
    && |s.delivered| == s.sequence
    && (forall i :: 0 <= i < |s.delivered| ==> s.delivered[i].sequence == i)
    && (forall i :: 0 <= i < |s.delivered| && s.delivered[i].Closed? ==> s.terminal && i == |s.delivered| - 1)
    && (s.terminal ==> s.delivered != [] && EndsWithOutcome(s.delivered, s.outcome))
    && s.outcome == FirstEnd(s.reports)
  }

  lemma ReportedSound(s: Session, o: Outcome)
    requires SessionSound(s)
    ensures SessionSound(Reported(s, o))
  {
    FirstEndSnoc(s.reports, o);
    hide FirstEnd;
  }

  lemma SentSound(s: Session, event: string, reason: Option<string>, throws: bool)
    requires SessionSound(s)
    ensures SessionSound(Emitted(s, event, throws)) && SessionSound(Terminated(s, reason, throws))
  {
    hide FirstEnd;
  }

  ghost predicate Sound(w: World) {
    Handles(w) && forall i :: 0 <= i < |w.all| ==> SessionSound(w.all[i])
  }

  lemma NextSound(w: World, step: Step)
    requires Sound(w)
    ensures Sound(Next(w, step))
  {
    hide SessionSound, Emitted, Terminated, Reported;
    NextHandles(w, step);
    match step {
      case Open(_) => NewSound();
      case Emit(i, event, throws) =>
        if i < |w.all| {
          SentSound(w.all[i], event, None, throws);
        }
      case Report(i, o) =>
        if i < |w.all| {
          ReportedSound(w.all[i], o);
        }
      case StartRun(i) =>
        if i < |w.all| {
          RunsImmaterial(w.all[i], Next(w, step).all[i]);
        }
      case EndRun(i, _) =>
        if i < |w.all| {
          RunsImmaterial(w.all[i], Next(w, step).all[i]);
        }
      case Cancel(id, reason, stops, throws) =>
        if id in w.open' {
          ReportedSound(w.all[w.open'[id]], Cancelled);
          SentSound(Reported(w.all[w.open'[id]], Cancelled), "", Some(reason), throws);
        }
      case Resume(t, throws) =>
        if t < |w.cancels| {
          var i := w.cancels[t].session;
          ReportedSound(w.all[i], Cancelled);
          SentSound(Reported(w.all[i], Cancelled), "", Some(w.cancels[t].reason), throws);
        }
      case Close(id, throws) =>
        if id in w.open' {
          SentSound(w.all[w.open'[id]], "", None, throws);
        }
      case _ =>
    }
  }

  lemma NewSound()
    ensures SessionSound(NEW_SESSION)
  {
  }

  lemma RunsImmaterial(s: Session, t: Session)
    requires SessionSound(s) && t == s.(run := t.run, started := t.started, ended := t.ended)
    ensures SessionSound(t)
  {
  }

  function RunSteps(w: World, steps: seq<Step>): (r: World)
    requires Handles(w)
    ensures Handles(r)
    decreases |steps|
  {
    if steps == [] then w else NextHandles(w, steps[0]); RunSteps(Next(w, steps[0]), steps[1..])
  }

  lemma NextHandles(w: World, step: Step)
    requires Handles(w)
    ensures Handles(Next(w, step))
  {
    hide Terminated, Reported, Emitted, CancelEnded;
  }

  /** Over every interleaving, every session is sound. */
  lemma {:induction false} EveryInterleavingSound(w: World, steps: seq<Step>)
    requires Sound(w)
    ensures Sound(RunSteps(w, steps))
    decreases |steps|
  {
    hide Next, SessionSound;
    if steps != [] {
      NextSound(w, steps[0]);
      NextHandles(w, steps[0]);
      EveryInterleavingSound(Next(w, steps[0]), steps[1..]);
    }
  }

  /** After the terminal event nothing is delivered, numbered or relabelled. */
  predicate Frozen(s: Session, t: Session) {
    t.terminal && t.delivered == s.delivered && t.sequence == s.sequence && t.outcome == s.outcome
  }

  lemma NextFreezes(w: World, step: Step, i: nat)
    requires Handles(w) && i < |w.all| && w.all[i].terminal
    ensures Handles(Next(w, step)) && i < |Next(w, step).all| && Frozen(w.all[i], Next(w, step).all[i])
  {
    NextHandles(w, step);
  }

  lemma {:induction false} TerminalIsFinal(w: World, steps: seq<Step>, i: nat)
    requires Handles(w) && i < |w.all| && w.all[i].terminal
    ensures i < |RunSteps(w, steps).all|
    ensures Frozen(w.all[i], RunSteps(w, steps).all[i])
    decreases |steps|
  {
    hide Next;
    if steps != [] {
      NextFreezes(w, steps[0], i);
      TerminalIsFinal(Next(w, steps[0]), steps[1..], i);
    }
  }

  /** A close that succeeds after any interleaving reports the outcome its terminal event carries and
      the number of events delivered, and both stay true after any further interleaving. */
  lemma CloseReportsTruth(before: seq<Step>, id: string, throws: bool, later: seq<Step>)
    requires var w := RunSteps(NEW_WORLD, before);
             id !in w.closed && id in w.open' && !(throws && !w.all[w.open'[id]].terminal)
    ensures var w := RunSteps(NEW_WORLD, before);
            var i := w.open'[id];
            var reply := Ended(Terminated(w.all[i], None, throws).outcome, Terminated(w.all[i], None, throws).sequence);
            Handles(Next(w, Close(id, throws))) &&
            var end := RunSteps(Next(w, Close(id, throws)), later);
            && i < |end.all| && end.all[i].terminal
            && |end.all[i].delivered| == reply.finalSequence > 0
            && end.all[i].delivered[reply.finalSequence - 1].Closed?
            && end.all[i].delivered[reply.finalSequence - 1].outcome == reply.outcome
  {
    var w := RunSteps(NEW_WORLD, before);
    EveryInterleavingSound(NEW_WORLD, before);
    var step := Close(id, throws);
    NextSound(w, step);
    NextHandles(w, step);
    var w' := Next(w, step);
    assert w'.all[w.open'[id]] == Terminated(w.all[w.open'[id]], None, throws);
    TerminalIsFinal(w', later, w.open'[id]);
  }
}
