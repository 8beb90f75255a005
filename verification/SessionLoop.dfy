/** The ledger at work: an event loop that calls the ledger's own methods in any
    order and keeps the cancels that wait. Each turn is one step of the world over
    which the session theorems are proved. */
module SessionLoop {
  import opened Results
  import opened SessionLedger

  ghost function States(handles: seq<LedgerSession>): (states: seq<Session>)
    reads handles
    ensures |states| == |handles|
    ensures forall i :: 0 <= i < |handles| ==> states[i] == handles[i].State()
  {
    if handles == [] then [] else States(handles[..|handles| - 1]) + [handles[|handles| - 1].State()]
  }

  class EventLoop {
    const ledger: Ledger
    /** Every session ever opened; a waiting cancel keeps its session by position. */
    var handles: seq<LedgerSession>
    var index: map<string, nat>
    var cancels: seq<CancelTask>

    ghost predicate Valid()
      reads this, ledger, handles
    {
      && ledger.sessions.Keys == index.Keys
      && (forall id :: id in index ==> index[id] < |handles| && handles[index[id]] == ledger.sessions[id])
      && (forall i, j :: 0 <= i < j < |handles| ==> handles[i] != handles[j])
      && (forall t :: 0 <= t < |cancels| ==> cancels[t].session < |handles|)
    }

    ghost function View(): (w: World)
      requires Valid()
      reads this, ledger, handles
      ensures Handles(w)
    {
      World(States(handles), index, ledger.closed, cancels)
    }

    constructor ()
      ensures Valid() && fresh(ledger) && View() == NEW_WORLD
    {
      ledger := new Ledger();
      handles, index, cancels := [], map[], [];
    }

    method OpenSession(id: string)
      requires Valid()
      modifies this, ledger
      ensures Valid() && View() == Next(old(View()), Open(id))
      ensures |handles| == |old(handles)| + 1 && handles[..|old(handles)|] == old(handles) && fresh(handles[|old(handles)|])
    {
      hide States;
      var session := ledger.Open(id);
      index := index[id := |handles|];
      handles := handles + [session];
      assert View().all == old(View().all) + [NEW_SESSION];
    }

    method EmitOn(i: nat, event: string, throws: bool)
      requires Valid() && i < |handles|
      modifies handles[i]
      ensures Valid() && View() == Next(old(View()), Emit(i, event, throws))
    {
      var _ := handles[i].Emit(event, throws);
      assert View().all == old(View()).all[i := Emitted(old(View()).all[i], event, throws)];
    }

    method ReportOn(i: nat, o: Outcome)
      requires Valid() && i < |handles|
      modifies handles[i]
      ensures Valid() && View() == Next(old(View()), Report(i, o))
    {
      handles[i].SetOutcome(o);
      assert View().all == old(View()).all[i := Reported(old(View()).all[i], o)];
    }

    method StartRunOn(i: nat)
      requires Valid() && i < |handles|
      modifies handles[i]
      ensures Valid() && View() == Next(old(View()), StartRun(i))
    {
      var _ := handles[i].RunStarted();
      assert View().all == Next(old(View()), StartRun(i)).all;
    }

    method EndRunOn(i: nat, run: nat)
      requires Valid() && i < |handles|
      modifies handles[i]
      ensures Valid() && View() == Next(old(View()), EndRun(i, run))
    {
      handles[i].RunEnded(run);
      assert View().all == Next(old(View()), EndRun(i, run)).all;
    }

    method EndCancelOn(i: nat, reason: string, throws: bool)
      requires Valid() && i < |handles|
      modifies handles[i]
      ensures Valid() && View() == On(old(View()), i, CancelEnded(old(View()).all[i], reason, throws))
    {
      hide CancelEnded;
      var _ := ledger.CancelEnd(handles[i], reason, throws);
      assert View().all == old(View()).all[i := CancelEnded(old(View()).all[i], reason, throws)];
    }

    /** `cancel` up to its first wait, or to its end when there is nothing to stop. */
    method CancelSession(id: string, reason: string, stops: bool, throws: bool)
      requires Valid()
      modifies `cancels, handles
      ensures Valid() && View() == Next(old(View()), Cancel(id, reason, stops, throws))
    {
      hide CancelEnded, States;
      var start := ledger.CancelBegin(id);
      if start.Proceed? {
        assert View().all[index[id]] == start.session.State();
        if stops {
          cancels := cancels + [CancelTask(index[id], reason, Stopping)];
        } else {
          EndCancelOn(index[id], reason, throws);
        }
      } else {
        assert id in index ==> View().all[index[id]] == ledger.sessions[id].State();
      }
    }

    /** The stop a cancel waited for has ended: it failed, or the cancel now waits for the run. */
    method StopEnded(t: nat, failed: bool)
      requires Valid()
      modifies `cancels
      ensures Valid() && View() == Next(old(View()), if failed then StopFailed(t) else StopSettled(t))
    {
      if t < |cancels| && cancels[t].wait == Stopping {
        var wait := if failed then Settled else AwaitingRun(handles[cancels[t].session].run);
        cancels := cancels[t := cancels[t].(wait := wait)];
      }
    }

    method ResumeCancel(t: nat, throws: bool)
      requires Valid()
      modifies `cancels, handles
      ensures Valid() && View() == Next(old(View()), Resume(t, throws))
    {
      if t < |cancels| {
        var task := cancels[t];
        var session := handles[task.session];
        if task.wait.AwaitingRun? && (task.wait.run.None? || task.wait.run.value in session.ended) {
          cancels := cancels[t := task.(wait := Settled)];
          EndCancelOn(task.session, task.reason, throws);
        }
      }
    }

    method CloseOpen(id: string, throws: bool) returns (r: CloseResult)
      requires Valid() && id !in ledger.closed && id in index
      modifies `index, ledger, handles[index[id]]
      ensures Valid()
      ensures var w, i := old(View()), old(index[id]);
              var s := Terminated(w.all[i], None, throws);
              && View() == (if s.terminal then w.(all := w.all[i := s], open' := w.open' - {id}, closed := w.closed + {id})
                            else w.(all := w.all[i := s]))
              && (if s.terminal then r == Ended(s.outcome, s.sequence) else r.CloseFailed?)
    {
      hide Terminated, States;
      var i := index[id];
      ghost var s := Terminated(handles[i].State(), None, throws);
      ghost var all := States(handles);
      r := ledger.Close(id, throws);
      assert handles[i].State() == s;
      assert States(handles) == all[i := s];
      if r.Ended? {
        index := index - {id};
      }
    }

    method CloseSession(id: string, throws: bool) returns (r: CloseResult)
      requires Valid()
      modifies `index, ledger, handles
      ensures Valid() && View() == Next(old(View()), Close(id, throws))
      ensures r.Ended? ==>
                && id in old(index) && old(index)[id] < |View().all|
                && var s := View().all[old(index)[id]]; r == Ended(s.outcome, s.sequence)
    {
      hide Terminated, States, Next, Valid;
      NextClose(View(), id, throws);
      if id in ledger.closed || id !in index {
        r := NothingToClose(id, throws);
      } else {
        IndexInRange(id);
        r := CloseOpen(id, throws);
      }
    }

    lemma IndexInRange(id: string)
      requires Valid() && id in index
      ensures index[id] < |handles|
    {
    }

    method NothingToClose(id: string, throws: bool) returns (r: CloseResult)
      requires Valid() && (id in ledger.closed || id !in index)
      modifies ledger, handles
      ensures Valid() && View() == old(View()) && !r.Ended?
    {
      hide States;
      r := ledger.Close(id, throws);
      assert States(handles) == old(States(handles));
    }

    /** One turn of the loop: whatever comes next, handled by the ledger's methods. */
    method Perform(step: Step)
      requires Valid()
      modifies this, ledger, handles
      ensures Valid() && View() == Next(old(View()), step)
      ensures forall s :: s in handles ==> s in old(handles) || fresh(s)
    {
      hide Next;
      ghost var before := View();
      match step {
        case Open(id) => OpenSession(id);
        case Emit(i, event, throws) => if i < |handles| { EmitOn(i, event, throws); }
        case Report(i, o) => if i < |handles| { ReportOn(i, o); }
        case StartRun(i) => if i < |handles| { StartRunOn(i); }
        case EndRun(i, run) => if i < |handles| { EndRunOn(i, run); }
        case Cancel(id, reason, stops, throws) => CancelSession(id, reason, stops, throws);
        case StopSettled(t) => StopEnded(t, false);
        case StopFailed(t) => StopEnded(t, true);
        case Resume(t, throws) => ResumeCancel(t, throws);
        case Close(id, throws) => var _ := CloseSession(id, throws);
      }
      Disabled(before, step);
    }
  }

  lemma Disabled(w: World, step: Step)
    requires Handles(w)
    ensures (step.Emit? || step.Report? || step.StartRun? || step.EndRun?) && step.session >= |w.all| ==> Next(w, step) == w
  {
  }

  lemma NextClose(w: World, id: string, throws: bool)
    requires Handles(w)
    ensures id in w.closed || id !in w.open' ==> Next(w, Close(id, throws)) == w
    ensures id !in w.closed && id in w.open' ==>
              var i, s := w.open'[id], Terminated(w.all[w.open'[id]], None, throws);
              Next(w, Close(id, throws)) ==
                if s.terminal then w.(all := w.all[i := s], open' := w.open' - {id}, closed := w.closed + {id})
                else w.(all := w.all[i := s])
  {
    hide Terminated;
  }

  /** Any interleaving of calls, handled by the ledger's own methods, leaves exactly the world the
      session theorems speak of, so all its sessions are sound. */
  method Drive(steps: seq<Step>) returns (loop: EventLoop)
    ensures fresh(loop) && loop.Valid() && loop.View() == RunSteps(NEW_WORLD, steps) && Sound(loop.View())
  {
    hide Next, SessionSound;
    loop := new EventLoop();
    assert steps[0..] == steps;
    for i := 0 to |steps|
      invariant fresh(loop) && fresh(loop.ledger) && loop.Valid() && forall s :: s in loop.handles ==> fresh(s)
      invariant RunSteps(loop.View(), steps[i..]) == RunSteps(NEW_WORLD, steps)
    {
      assert steps[i..][1..] == steps[i + 1..];
      assert forall k :: 0 <= k < |loop.handles| ==> loop.handles[k] in loop.handles && fresh(loop.handles[k]);
      loop.Perform(steps[i]);
    }
    EveryInterleavingSound(NEW_WORLD, steps);
  }
}
