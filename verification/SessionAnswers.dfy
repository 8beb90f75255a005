/** What each call of the session ledger does over a whole interleaving: which events
    are delivered, which outcome stands, and when a cancel or a close ends a session. */
module SessionAnswers {
  import opened Results
  import opened SessionLedger

  /** The events of a session's deliveries, without the closing one. */
  function Bodies(delivered: seq<Delivered>): seq<string> {
    if delivered == [] then []
    else Bodies(delivered[..|delivered| - 1]) + (match delivered[|delivered| - 1] case Body(e, _) => [e] case Closed(_, _, _) => [])
  }

  /** A cancel that ends session `i` in this step: one that need not stop it first, or one resumed after
      the run it waited for. */
  predicate EndsByCancel(w: World, step: Step, i: nat)
    requires i < |w.all|
  {
    match step
    case Cancel(id, _, stops, _) => !stops && id in w.open' && id !in w.closed && w.open'[id] == i && !w.all[i].terminal
    case Resume(t, _) =>
      && t < |w.cancels| && w.cancels[t].session == i && w.cancels[t].wait.AwaitingRun?
      && (w.cancels[t].wait.run.Some? ==> w.cancels[t].wait.run.value in w.all[i].ended)
    case _ => false
  }

  /** What one step hands to the sink of session `i`, and which outcome it reports for it. */
  function Event(w: World, step: Step, i: nat): seq<string>
    requires i < |w.all|
  {
    if step.Emit? && step.session == i && !step.throws && !w.all[i].terminal then [step.event] else []
  }

  function Verdict(w: World, step: Step, i: nat): seq<Outcome>
    requires i < |w.all|
  {
    if w.all[i].terminal then []
    else if step.Report? && step.session == i then [step.outcome]
    else if EndsByCancel(w, step, i) then [Cancelled]
    else []
  }

  function Events(w: World, steps: seq<Step>, i: nat): seq<string>
    requires Handles(w) && i < |w.all|
    decreases |steps|
  {
    if steps == [] then []
    else NextKeeps(w, steps[0], i); Event(w, steps[0], i) + Events(Next(w, steps[0]), steps[1..], i)
  }

  function Verdicts(w: World, steps: seq<Step>, i: nat): seq<Outcome>
    requires Handles(w) && i < |w.all|
    decreases |steps|
  {
    if steps == [] then []
    else NextKeeps(w, steps[0], i); Verdict(w, steps[0], i) + Verdicts(Next(w, steps[0]), steps[1..], i)
  }

  lemma NextKeeps(w: World, step: Step, i: nat)
    requires Handles(w) && i < |w.all|
    ensures Handles(Next(w, step)) && i < |Next(w, step).all|
  {
    NextHandles(w, step);
  }

  lemma BodiesSnoc(delivered: seq<Delivered>, d: Delivered)
    ensures Bodies(delivered + [d]) == Bodies(delivered) + (match d case Body(e, _) => [e] case Closed(_, _, _) => [])
  {
    assert (delivered + [d])[..|delivered|] == delivered;
  }

  lemma StepTells(w: World, step: Step, i: nat)
    requires Handles(w) && i < |w.all|
    ensures Handles(Next(w, step)) && i < |Next(w, step).all|
    ensures Bodies(Next(w, step).all[i].delivered) == Bodies(w.all[i].delivered) + Event(w, step, i)
    ensures Next(w, step).all[i].reports == w.all[i].reports + Verdict(w, step, i)
  {
    hide Bodies;
    NextKeeps(w, step, i);
    var s := w.all[i];
    forall d
      ensures Bodies(s.delivered + [d]) == Bodies(s.delivered) + (match d case Body(e, _) => [e] case Closed(_, _, _) => [])
    {
      BodiesSnoc(s.delivered, d);
    }
  }

  /** Over every interleaving, what a session delivers besides its closing event is exactly what was
      emitted to it before that event without a throw, in order; and its outcome is the first failure or
      cancellation among what was reported to it before, a cancel that ends it counting as one. */
  lemma {:induction false} InterleavingTells(w: World, steps: seq<Step>, i: nat)
    requires Sound(w) && i < |w.all|
    ensures i < |RunSteps(w, steps).all|
    ensures var end := RunSteps(w, steps).all[i];
            && Bodies(end.delivered) == Bodies(w.all[i].delivered) + Events(w, steps, i)
            && end.reports == w.all[i].reports + Verdicts(w, steps, i)
            && end.outcome == FirstEnd(w.all[i].reports + Verdicts(w, steps, i))
    decreases |steps|
  {
    hide Next, Bodies, Event, Verdict, SessionSound, FirstEnd;
    EveryInterleavingSound(w, steps);
    StepsTell(w, steps, i);
    SoundOutcome(RunSteps(w, steps).all[i]);
  }

  lemma {:induction false} StepsTell(w: World, steps: seq<Step>, i: nat)
    requires Handles(w) && i < |w.all|
    ensures i < |RunSteps(w, steps).all|
    ensures Bodies(RunSteps(w, steps).all[i].delivered) == Bodies(w.all[i].delivered) + Events(w, steps, i)
    ensures RunSteps(w, steps).all[i].reports == w.all[i].reports + Verdicts(w, steps, i)
    decreases |steps|
  {
    hide Next, Bodies, Event, Verdict;
    if steps != [] {
      StepTells(w, steps[0], i);
      StepsTell(Next(w, steps[0]), steps[1..], i);
    }
  }

  lemma SoundOutcome(s: Session)
    requires SessionSound(s)
    ensures s.outcome == FirstEnd(s.reports)
  {
  }

  /** The session ended in this step with this closing event, one past the deliveries there were. */
  predicate EndedNow(s: Session, t: Session, outcome: Outcome, reason: Option<string>) {
    t.terminal && t.outcome == outcome && t.delivered == s.delivered + [Closed(outcome, reason, |s.delivered|)]
  }

  /** A cancel of an open session ends it at once if it need not stop it, and otherwise leaves a task; one
      of an ended, closed or unknown session does nothing. */
  lemma CancelEnds(w: World, id: string, reason: string, stops: bool, throws: bool)
    requires Sound(w)
    ensures var end := Next(w, Cancel(id, reason, stops, throws));
            if id in w.closed || id !in w.open' || w.all[w.open'[id]].terminal then end == w
            else
              var i := w.open'[id];
              && end.open' == w.open' && end.closed == w.closed && |end.all| == |w.all|
              && (forall j :: 0 <= j < |w.all| && j != i ==> end.all[j] == w.all[j])
              && (stops ==> end.all == w.all && end.cancels == w.cancels + [CancelTask(i, reason, Stopping)])
              && (!stops ==> end.cancels == w.cancels)
              && (!stops && !throws ==>
                    EndedNow(w.all[i], end.all[i], if w.all[i].outcome == Completed then Cancelled else w.all[i].outcome, Some(reason)))
              && (!stops && throws ==> !end.all[i].terminal && end.all[i].delivered == w.all[i].delivered)
  {
    if id in w.open' {
      assert SessionSound(w.all[w.open'[id]]);
    }
    hide FirstEnd;
  }

  /** A suspended cancel ends its session only after the stop has settled and the run that was going on
      then, if any, has ended; until then resuming it changes nothing. */
  lemma ResumeEnds(w: World, t: nat, throws: bool)
    requires Sound(w) && t < |w.cancels|
    ensures var (task, end) := (w.cancels[t], Next(w, Resume(t, throws)));
            var s := w.all[task.session];
            if !task.wait.AwaitingRun? || (task.wait.run.Some? && task.wait.run.value !in s.ended) then end == w
            else
              && end.cancels == w.cancels[t := task.(wait := Settled)]
              && (s.terminal ==> end.all == w.all)
              && (!s.terminal && !throws ==>
                    EndedNow(s, end.all[task.session], if s.outcome == Completed then Cancelled else s.outcome, Some(task.reason)))
              && (!s.terminal && throws ==> !end.all[task.session].terminal && end.all[task.session].delivered == s.delivered)
  {
    assert SessionSound(w.all[w.cancels[t].session]);
    hide FirstEnd;
  }

  /** A task waits for its stop once: one that settles hands it the run going on then, one that fails ends
      the wait, and a task that is past its stop is left alone. */
  lemma StopHandsOver(w: World, t: nat)
    requires Handles(w)
    ensures var settled, failed := Next(w, StopSettled(t)), Next(w, StopFailed(t));
            if t < |w.cancels| && w.cancels[t].wait == Stopping then
              var task := w.cancels[t];
              && settled == w.(cancels := w.cancels[t := CancelTask(task.session, task.reason, AwaitingRun(w.all[task.session].run))])
              && failed == w.(cancels := w.cancels[t := CancelTask(task.session, task.reason, Settled)])
              && forall throws :: Handles(failed) ==> Next(failed, Resume(t, throws)) == failed
            else settled == w && failed == w
  {
  }

  /** Opening gives the id a session of its own, with nothing delivered, reported or run, and keeps the
      sessions there were, the one that had the id among them. */
  lemma OpenStarts(w: World, id: string)
    requires Handles(w)
    ensures var end := Next(w, Open(id));
            && id in end.open' && end.open'[id] == |w.all| && |end.all| == |w.all| + 1 && end.all[..|w.all|] == w.all
            && end.open' - {id} == w.open' - {id}
            && end.closed == w.closed && end.cancels == w.cancels
            && var s := end.all[|w.all|];
               !s.terminal && s.outcome == Completed && s.delivered == [] && s.reports == [] && s.sequence == 0 && s.run == None
  {
  }

  /** Closing an open session ends it, with the outcome that stands, unless it has ended; then the id is
      closed for good. If the sink throws, the session stays open. */
  lemma CloseEnds(w: World, id: string, throws: bool)
    requires Sound(w)
    ensures var end := Next(w, Close(id, throws));
            if id in w.closed || id !in w.open' then end == w
            else
              var i := w.open'[id];
              var s := w.all[i];
              && |end.all| == |w.all| && (forall j :: 0 <= j < |w.all| && j != i ==> end.all[j] == w.all[j])
              && end.cancels == w.cancels
              && (throws && !s.terminal ==> end == w)
              && (!throws || s.terminal ==> id !in end.open' && end.closed == w.closed + {id})
              && (s.terminal ==> end.all[i] == s)
              && (!s.terminal && !throws ==> EndedNow(s, end.all[i], s.outcome, None))
  {
    if id in w.open' {
      assert SessionSound(w.all[w.open'[id]]);
    }
    hide FirstEnd;
  }

  /** No run gets the number of an earlier one: over any steps the next number never falls, and a started
      run takes it. */
  lemma {:induction false} RunsAreNumbered(w: World, steps: seq<Step>, i: nat)
    requires Handles(w) && i < |w.all|
    ensures i < |RunSteps(w, steps).all| && RunSteps(w, steps).all[i].started >= w.all[i].started
    ensures var end := RunSteps(w, steps);
            && Next(end, StartRun(i)).all[i].run == Some(end.all[i].started)
            && Next(end, StartRun(i)).all[i].started == end.all[i].started + 1
    decreases |steps|
  {
    if steps != [] {
      NextNumber(w, steps[0], i);
      hide Next;
      RunsAreNumbered(Next(w, steps[0]), steps[1..], i);
    }
  }

  lemma NextNumber(w: World, step: Step, i: nat)
    requires Handles(w) && i < |w.all|
    ensures Handles(Next(w, step)) && i < |Next(w, step).all| && Next(w, step).all[i].started >= w.all[i].started
    ensures step.EndRun? && step.session == i ==> Next(w, step).all[i].ended == w.all[i].ended + {step.run}
  {
    NextHandles(w, step);
  }
}
