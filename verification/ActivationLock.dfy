/** The activation lock as a protocol between processes. Each file-system call is
    one atomic step, and a schedule is any interleaving of the processes' steps. */
module ActivationLock {
  import opened Results

  type Pid = nat

  /** A lock file, named by its creator and the acquisition that created it. Its bytes are empty
      until they are written; written bytes hold a fresh nonce, so they identify the file. */
  datatype File = File(pid: Pid, session: nat)

  datatype Phase =
    | Idle
    | Opening(attempt: nat)
    | Refused(attempt: nat)
    | Judged(attempt: nat, observed: File)
    | Aside(attempt: nat, observed: File, moved: File)
    | Discarding(attempt: nat, moved: File)
    | Restoring(moved: File)
    | Created(file: File)
    | Holding(file: File)
    | Releasing(file: File)
  {
    predicate Owns() { Created? || Holding? || Releasing? }

    predicate Reclaims() { Judged? || Aside? || Discarding? || Restoring? }
  }

  datatype State = State(path: Option<File>, written: set<File>, phases: map<Pid, Phase>, sessions: map<Pid, nat>)

  const ATTEMPTS := 3

  function Move(s: State, p: Pid, phase: Phase): State { s.(phases := s.phases[p := phase]) }

  /** A failed attempt is retried; after the last one the caller is told the lock is busy. */
  function Retry(s: State, p: Pid, attempt: nat): State {
    Move(s, p, if attempt + 1 < ATTEMPTS then Opening(attempt + 1) else Idle)
  }

  predicate Has(alive: set<Pid>, s: State) { alive <= s.phases.Keys && alive <= s.sessions.Keys }

  /** The next step of process `p`; processes outside `alive` are dead. */
  function Step(alive: set<Pid>, s: State, p: Pid): State
    requires Has(alive, s) && p in alive
  {
    match s.phases[p]
    case Idle => Move(s, p, Opening(0))
    case Opening(k) =>
      if s.path.Some? then Move(s, p, Refused(k))
      else
        var f := File(p, s.sessions[p]);
        Move(s.(path := Some(f), sessions := s.sessions[p := s.sessions[p] + 1]), p, Created(f))
    case Refused(k) =>
      // Missing or unreadable bytes, or an owner that is alive: busy.
      if s.path.None? || s.path.value !in s.written || s.path.value.pid in alive then Move(s, p, Idle)
      else Move(s, p, Judged(k, s.path.value))
    case Judged(k, f) =>
      if s.path.None? then Retry(s, p, k) else Move(s.(path := None), p, Aside(k, f, s.path.value))
    case Aside(k, f, g) => Move(s, p, if g == f then Discarding(k, g) else Restoring(g))
    case Discarding(k, _) => Retry(s, p, k)
    case Restoring(g) => Move(s.(path := Some(g)), p, Idle)
    case Created(f) => Move(s.(written := s.written + {f}), p, Holding(f))
    case Holding(f) => Move(s, p, if s.path == Some(f) then Releasing(f) else Idle)
    case Releasing(_) => Move(s.(path := None), p, Idle)
  }

  function Run(alive: set<Pid>, s: State, schedule: seq<Pid>): (r: State)
    requires Has(alive, s) && forall p :: p in schedule ==> p in alive
    ensures Has(alive, r)
    decreases |schedule|
  {
    if schedule == [] then s else Run(alive, Step(alive, s, schedule[0]), schedule[1..])
  }

  /** What earlier, dead processes left behind. */
  datatype Leftover = NoLock | EmptyLock(dead: Pid) | WrittenLock(dead: Pid)

  function Initial(alive: set<Pid>, left: Leftover): State {
    State(if left.NoLock? then None else Some(File(left.dead, 0)),
          if left.WrittenLock? then {File(left.dead, 0)} else {},
          map p | p in alive :: Idle,
          map p | p in alive :: 0)
  }

  predicate LeftByDead(alive: set<Pid>, left: Leftover) { left.NoLock? || left.dead !in alive }

  predicate AtMostOneHolds(alive: set<Pid>, s: State)
    requires Has(alive, s)
  {
    forall p, q :: p in alive && q in alive && s.phases[p].Holding? && s.phases[q].Holding? ==> p == q
  }

  // ---- No stale lock to reclaim ----

  ghost predicate Undisputed(alive: set<Pid>, s: State) {
    && Has(alive, s)
    && (forall p :: p in alive ==> !s.phases[p].Reclaims())
    && (forall p :: p in alive && s.phases[p].Owns() ==> s.phases[p].file.pid == p && s.path == Some(s.phases[p].file))
    && (s.path.Some? && s.path.value.pid !in alive ==> s.path.value !in s.written)
  }

  lemma UndisputedStep(alive: set<Pid>, s: State, p: Pid)
    requires Undisputed(alive, s) && p in alive
    ensures Undisputed(alive, Step(alive, s, p))
  {
  }

  lemma {:induction false} UndisputedRun(alive: set<Pid>, s: State, schedule: seq<Pid>)
    requires Undisputed(alive, s) && forall p :: p in schedule ==> p in alive
    ensures Undisputed(alive, Run(alive, s, schedule))
    decreases |schedule|
  {
    if schedule != [] {
      UndisputedStep(alive, s, schedule[0]);
      UndisputedRun(alive, Step(alive, s, schedule[0]), schedule[1..]);
    }
  }

  // ---- One stale lock, two contenders ----

  /** `d` is the dead owner's file. A process that created a file never reclaims again, and a
      file moved aside that is not `d` belongs to a process that did. */
  ghost predicate Disputed(alive: set<Pid>, s: State, d: File) {
    && Has(alive, s) && d.pid !in alive
    && (s.path.Some? && s.path.value != d ==> s.path.value.pid in alive && s.sessions[s.path.value.pid] > 0)
    && (forall p :: p in alive ==> Consistent(alive, s, d, p))
  }

  ghost predicate Consistent(alive: set<Pid>, s: State, d: File, p: Pid)
    requires Has(alive, s) && p in alive
  {
    && (s.sessions[p] > 0 ==> s.path != Some(d) && !s.phases[p].Reclaims())
    && (match s.phases[p]
        case Judged(_, f) => f == d
        case Aside(_, f, g) => f == d && (g != d ==> g.pid in alive && s.sessions[g.pid] > 0)
        case Discarding(_, g) => g == d
        case Restoring(g) => g != d && g.pid in alive && s.sessions[g.pid] > 0
        case Created(f) => f.pid == p && s.sessions[p] > 0 && Covered(alive, s, d, p)
        case Holding(f) => f.pid == p && s.sessions[p] > 0 && Covered(alive, s, d, p)
        case Releasing(f) => f.pid == p && s.sessions[p] > 0 && Covered(alive, s, d, p)
        case _ => true)
  }

  predicate HasMovedLive(phase: Phase, d: File) {
    (phase.Aside? && phase.moved != d) || phase.Restoring?
  }

  /** The owner's file is at the path, or a contender is holding a live file aside. */
  ghost predicate Covered(alive: set<Pid>, s: State, d: File, p: Pid)
    requires Has(alive, s)
  {
    (s.path.Some? && s.path.value.pid == p) || exists q :: q in alive && q != p && HasMovedLive(s.phases[q], d)
  }

  predicate AtMostTwo(alive: set<Pid>) {
    forall p, q, r :: p in alive && q in alive && r in alive ==> p == q || q == r || p == r
  }

  lemma PathStep(alive: set<Pid>, s: State, d: File, p: Pid)
    requires Disputed(alive, s, d) && p in alive
    ensures var s' := Step(alive, s, p);
            s'.path.Some? && s'.path.value != d ==>
              s'.path.value.pid in alive && s'.sessions[s'.path.value.pid] > 0
  {
    hide Covered;
    assert Consistent(alive, s, d, p);
  }

  lemma OwnStep(alive: set<Pid>, s: State, d: File, p: Pid)
    requires Disputed(alive, s, d) && p in alive
    ensures Consistent(alive, Step(alive, s, p), d, p)
  {
    assert Consistent(alive, s, d, p);
    var s' := Step(alive, s, p);
    match s.phases[p] {
      case Created(f) => CoverFrame(alive, s, s', d, p);
      case Holding(f) => CoverFrame(alive, s, s', d, p);
      case _ =>
    }
  }

  /** Cover survives a step that keeps the path and the other processes. */
  lemma CoverFrame(alive: set<Pid>, s: State, s': State, d: File, p: Pid)
    requires Has(alive, s) && Has(alive, s') && p in alive && Covered(alive, s, d, p) && s'.path == s.path
    requires forall q :: q in alive && q != p ==> s'.phases[q] == s.phases[q]
    ensures Covered(alive, s', d, p)
  {
  }

  /** The only other contender `q` keeps its cover whatever `p` does. */
  lemma OtherCover(alive: set<Pid>, s: State, d: File, p: Pid, q: Pid)
    requires Disputed(alive, s, d) && AtMostTwo(alive) && p in alive && q in alive && q != p && s.phases[q].Owns()
    ensures Covered(alive, Step(alive, s, p), d, q)
  {
    assert Consistent(alive, s, d, p) && Consistent(alive, s, d, q);
    var s' := Step(alive, s, p);
    var mine := s.path.Some? && s.path.value.pid == q;
    assert mine || HasMovedLive(s.phases[p], d);
    assert (s'.path.Some? && s'.path.value.pid == q) || HasMovedLive(s'.phases[p], d);
  }

  lemma OtherStep(alive: set<Pid>, s: State, d: File, p: Pid, q: Pid)
    requires Disputed(alive, s, d) && AtMostTwo(alive) && p in alive && q in alive && q != p
    ensures Consistent(alive, Step(alive, s, p), d, q)
  {
    assert Consistent(alive, s, d, p) && Consistent(alive, s, d, q);
    if s.phases[q].Owns() {
      OtherCover(alive, s, d, p, q);
    }
    hide Covered;
  }

  lemma DisputedStep(alive: set<Pid>, s: State, d: File, p: Pid)
    requires Disputed(alive, s, d) && AtMostTwo(alive) && p in alive
    ensures Disputed(alive, Step(alive, s, p), d)
  {
    PathStep(alive, s, d, p);
    forall q | q in alive
      ensures Consistent(alive, Step(alive, s, p), d, q)
    {
      if q == p {
        OwnStep(alive, s, d, p);
      } else {
        OtherStep(alive, s, d, p, q);
      }
    }
    hide Consistent, Step;
  }

  lemma {:induction false} DisputedRun(alive: set<Pid>, s: State, d: File, schedule: seq<Pid>)
    requires Disputed(alive, s, d) && AtMostTwo(alive) && forall p :: p in schedule ==> p in alive
    ensures Disputed(alive, Run(alive, s, schedule), d)
    decreases |schedule|
  {
    if schedule != [] {
      DisputedStep(alive, s, d, schedule[0]);
      DisputedRun(alive, Step(alive, s, schedule[0]), d, schedule[1..]);
    }
  }

  lemma DisputedExcludes(alive: set<Pid>, s: State, d: File)
    requires Disputed(alive, s, d) && AtMostTwo(alive)
    ensures AtMostOneHolds(alive, s)
  {
    forall p, q | p in alive && q in alive && s.phases[p].Holding? && s.phases[q].Holding?
      ensures p == q
    {
      assert Consistent(alive, s, d, p) && Consistent(alive, s, d, q);
      CoveredByPath(alive, s, d, p, q);
      CoveredByPath(alive, s, d, q, p);
    }
  }

  lemma CoveredByPath(alive: set<Pid>, s: State, d: File, p: Pid, q: Pid)
    requires AtMostTwo(alive) && Has(alive, s) && p in alive && q in alive
    requires Covered(alive, s, d, p) && s.phases[q].Holding?
    ensures p == q || (s.path.Some? && s.path.value.pid == p)
  {
  }

  // ---- Main result ----

  ghost predicate AlwaysExclusive(alive: set<Pid>, left: Leftover) {
    forall schedule: seq<Pid> :: (forall p :: p in schedule ==> p in alive) ==>
      AtMostOneHolds(alive, Run(alive, Initial(alive, left), schedule))
  }

  /** Over every interleaving at most one process holds the lock, exactly when no dead owner's
      written lock was left behind or at most two processes contend for it. */
  lemma MutualExclusionIff(alive: set<Pid>, left: Leftover)
    requires LeftByDead(alive, left)
    ensures AlwaysExclusive(alive, left) <==> !left.WrittenLock? || AtMostTwo(alive)
  {
    if !left.WrittenLock? || AtMostTwo(alive) {
      forall schedule: seq<Pid> | forall p :: p in schedule ==> p in alive
        ensures AtMostOneHolds(alive, Run(alive, Initial(alive, left), schedule))
      {
        if left.WrittenLock? {
          DisputedRun(alive, Initial(alive, left), File(left.dead, 0), schedule);
          DisputedExcludes(alive, Run(alive, Initial(alive, left), schedule), File(left.dead, 0));
        } else {
          UndisputedRun(alive, Initial(alive, left), schedule);
        }
      }
    } else {
      var a, b, c :| a in alive && b in alive && c in alive && a != b && b != c && a != c;
      ThirdContenderEnters(alive, left.dead, a, b, c);
      assert forall p :: p in Breach(a, b, c) ==> p in alive;
    }
  }

  /** `b` judges the stale lock, `a` reclaims and acquires, `b` moves `a`'s live lock aside, and
      `c` acquires in the window before `b` puts it back. */
  function Breach(a: Pid, b: Pid, c: Pid): seq<Pid> {
    [a, a, a] + [b, b, b] + [a, a, a, a, a] + [b] + [c, c, c]
  }

  lemma RunConcat(alive: set<Pid>, s: State, x: seq<Pid>, y: seq<Pid>)
    requires Has(alive, s) && forall p :: p in x + y ==> p in alive
    ensures (forall p :: p in x ==> p in alive) && (forall p :: p in y ==> p in alive)
    ensures Run(alive, s, x + y) == Run(alive, Run(alive, s, x), y)
    decreases |x|
  {
    assert forall p :: p in x ==> p in x + y;
    assert forall p :: p in y ==> p in x + y;
    if x == [] {
      assert x + y == y;
    } else {
      assert (x + y)[1..] == x[1..] + y;
      RunConcat(alive, Step(alive, s, x[0]), x[1..], y);
    }
  }

  function Twice(alive: set<Pid>, s: State, p: Pid): (r: State)
    requires Has(alive, s) && p in alive
    ensures Has(alive, r)
  {
    Step(alive, Step(alive, s, p), p)
  }

  lemma RunThree(alive: set<Pid>, s: State, p: Pid)
    requires Has(alive, s) && p in alive
    ensures Run(alive, s, [p, p, p]) == Step(alive, Twice(alive, s, p), p)
  {
    hide Step;
    assert [p, p, p][1..] == [p, p];
    assert [p, p][1..] == [p];
    assert Run(alive, Twice(alive, s, p), [p]) == Step(alive, Twice(alive, s, p), p);
  }

  /** Open refused, bytes read, owner found dead. */
  lemma JudgesStale(alive: set<Pid>, s: State, p: Pid, d: File)
    requires Has(alive, s) && p in alive && s.phases[p] == Idle
    requires s.path == Some(d) && d in s.written && d.pid !in alive
    ensures Run(alive, s, [p, p, p]) == Move(s, p, Judged(0, d))
  {
    RunThree(alive, s, p);
    hide Run;
    assert s.phases[p := Opening(0)][p := Refused(0)][p := Judged(0, d)] == s.phases[p := Judged(0, d)];
  }

  function Held(s: State, p: Pid, f: File): State
    requires p in s.sessions
  {
    Move(s.(path := Some(f), written := s.written + {f}, sessions := s.sessions[p := s.sessions[p] + 1]), p, Holding(f))
  }

  /** Rename, read back, remove: the stale lock is gone and the next attempt begins. */
  lemma Reclaims(alive: set<Pid>, s: State, p: Pid, d: File)
    requires Has(alive, s) && p in alive && s.phases[p] == Judged(0, d) && s.path == Some(d)
    ensures Run(alive, s, [p, p, p]) == Move(s.(path := None), p, Opening(1))
  {
    RunThree(alive, s, p);
    hide Run;
    assert s.phases[p := Aside(0, d, d)][p := Discarding(0, d)][p := Opening(1)] == s.phases[p := Opening(1)];
  }

  lemma Acquires(alive: set<Pid>, s: State, p: Pid)
    requires Has(alive, s) && p in alive && s.phases[p].Opening? && s.path == None
    ensures Run(alive, s, [p, p]) == Held(s, p, File(p, s.sessions[p]))
  {
    var f := File(p, s.sessions[p]);
    assert [p, p][1..] == [p];
    assert Run(alive, Step(alive, s, p), [p]) == Twice(alive, s, p);
    hide Run;
    assert s.phases[p := Created(f)][p := Holding(f)] == s.phases[p := Holding(f)];
  }

  lemma ThirdContenderEnters(alive: set<Pid>, dead: Pid, a: Pid, b: Pid, c: Pid)
    requires dead !in alive && a in alive && b in alive && c in alive && a != b && b != c && a != c
    ensures forall p :: p in Breach(a, b, c) ==> p in alive
    ensures !AtMostOneHolds(alive, Run(alive, Initial(alive, WrittenLock(dead)), Breach(a, b, c)))
  {
    hide Run;
    var d := File(dead, 0);
    var s0 := Initial(alive, WrittenLock(dead));
    JudgesStale(alive, s0, a, d);
    var s1 := Move(s0, a, Judged(0, d));
    JudgesStale(alive, s1, b, d);
    var s2 := Move(s1, b, Judged(0, d));
    Reclaims(alive, s2, a, d);
    var s3 := Move(s2.(path := None), a, Opening(1));
    Acquires(alive, s3, a);
    var f := File(a, 0);
    var s4 := Held(s3, a, f);
    // Now `b` renames the live lock aside, and `c` finds no lock at the path.
    var s5 := Move(s4.(path := None), b, Aside(0, d, f));
    var s6 := Move(s5, c, Opening(0));
    Acquires(alive, s6, c);
    var s7 := Held(s6, c, File(c, 0));
    assert s7.phases[a].Holding? && s7.phases[c].Holding?;
    assert Step(alive, s4, b) == s5 && Step(alive, s5, c) == s6;
    hide Step, Held, Move;
    Chain(alive, s0, s1, s2, s3, s4, s5, s6, s7, a, b, c);
  }

  lemma Chain(alive: set<Pid>, s0: State, s1: State, s2: State, s3: State, s4: State, s5: State, s6: State, s7: State,
              a: Pid, b: Pid, c: Pid)
    requires a in alive && b in alive && c in alive
    requires Has(alive, s0) && Has(alive, s1) && Has(alive, s2) && Has(alive, s3)
    requires Has(alive, s4) && Has(alive, s5) && Has(alive, s6)
    requires Run(alive, s0, [a, a, a]) == s1 && Run(alive, s1, [b, b, b]) == s2
    requires Run(alive, s2, [a, a, a]) == s3 && Run(alive, s3, [a, a]) == s4
    requires Step(alive, s4, b) == s5 && Step(alive, s5, c) == s6 && Run(alive, s6, [c, c]) == s7
    ensures (forall p :: p in Breach(a, b, c) ==> p in alive) && Run(alive, s0, Breach(a, b, c)) == s7
  {
    hide Step;
    RunOne(alive, s4, b);
    RunOne(alive, s5, c);
    hide Run;
    var t6 := [c] + [c, c];
    var t5 := [b] + t6;
    var t4 := [a, a] + t5;
    var t3 := [a, a, a] + t4;
    var t2 := [b, b, b] + t3;
    assert Breach(a, b, c) == [a, a, a] + t2;
    RunConcat(alive, s5, [c], [c, c]);
    RunConcat(alive, s4, [b], t6);
    RunConcat(alive, s3, [a, a], t5);
    RunConcat(alive, s2, [a, a, a], t4);
    RunConcat(alive, s1, [b, b, b], t3);
    RunConcat(alive, s0, [a, a, a], t2);
  }

  lemma RunOne(alive: set<Pid>, s: State, p: Pid)
    requires Has(alive, s) && p in alive
    ensures Run(alive, s, [p]) == Step(alive, s, p)
  {
    assert Run(alive, Step(alive, s, p), []) == Step(alive, s, p);
  }

  // ---- A lock nobody can reclaim ----

  /** An owner that died between creating the lock and writing it left a lock nobody ever
      acquires or reclaims, whatever the interleaving. */
  lemma EmptyLockIsForever(alive: set<Pid>, dead: Pid, schedule: seq<Pid>)
    requires dead !in alive && forall p :: p in schedule ==> p in alive
    ensures var s := Run(alive, Initial(alive, EmptyLock(dead)), schedule);
            s.path == Some(File(dead, 0)) && forall p :: p in alive ==> !s.phases[p].Owns()
  {
    BlockedRun(alive, Initial(alive, EmptyLock(dead)), File(dead, 0), schedule);
  }

  ghost predicate Blocked(alive: set<Pid>, s: State, f: File) {
    && Has(alive, s) && s.path == Some(f) && f !in s.written
    && (forall p :: p in alive ==> s.phases[p].Idle? || s.phases[p].Opening? || s.phases[p].Refused?)
  }

  lemma {:induction false} BlockedRun(alive: set<Pid>, s: State, f: File, schedule: seq<Pid>)
    requires Blocked(alive, s, f) && forall p :: p in schedule ==> p in alive
    ensures Blocked(alive, Run(alive, s, schedule), f)
    decreases |schedule|
  {
    if schedule != [] {
      assert Blocked(alive, Step(alive, s, schedule[0]), f);
      BlockedRun(alive, Step(alive, s, schedule[0]), f, schedule[1..]);
    }
  }

  // ---- When a lock can be had again ----

  /** The schedule brings some live process to hold the lock. */
  ghost predicate LetsOneHold(alive: set<Pid>, left: Leftover, schedule: seq<Pid>) {
    (forall p :: p in schedule ==> p in alive) &&
    exists p :: p in alive && Run(alive, Initial(alive, left), schedule).phases[p].Holding?
  }

  lemma FreeLockCanBeHeld(alive: set<Pid>, p: Pid)
    requires p in alive
    ensures LetsOneHold(alive, NoLock, [p] + [p, p])
  {
    var s := Initial(alive, NoLock);
    RunOne(alive, s, p);
    Acquires(alive, Step(alive, s, p), p);
    RunConcat(alive, s, [p], [p, p]);
    assert Run(alive, s, [p] + [p, p]).phases[p].Holding?;
  }

  lemma WrittenLockCanBeHeld(alive: set<Pid>, dead: Pid, p: Pid)
    requires p in alive && dead !in alive
    ensures LetsOneHold(alive, WrittenLock(dead), [p, p, p] + [p, p, p] + [p, p])
  {
    var d, s := File(dead, 0), Initial(alive, WrittenLock(dead));
    JudgesStale(alive, s, p, d);
    var s1 := Move(s, p, Judged(0, d));
    Reclaims(alive, s1, p, d);
    var s2 := Move(s1.(path := None), p, Opening(1));
    Acquires(alive, s2, p);
    hide Run, Step;
    RunConcat(alive, s, [p, p, p], [p, p, p]);
    RunConcat(alive, s, [p, p, p] + [p, p, p], [p, p]);
    assert Run(alive, s, [p, p, p] + [p, p, p] + [p, p]).phases[p].Holding?;
  }

  /** What dead processes left can be reclaimed, so that some schedule lets a live process hold the lock,
      exactly when it is not a lock its owner never wrote. */
  lemma ReclaimableIff(alive: set<Pid>, left: Leftover)
    requires alive != {} && LeftByDead(alive, left)
    ensures (exists schedule :: LetsOneHold(alive, left, schedule)) <==> !left.EmptyLock?
  {
    var p :| p in alive;
    match left {
      case NoLock => FreeLockCanBeHeld(alive, p);
      case WrittenLock(dead) => WrittenLockCanBeHeld(alive, dead, p);
      case EmptyLock(dead) =>
        forall schedule: seq<Pid>
          ensures !LetsOneHold(alive, left, schedule)
        {
          if forall q :: q in schedule ==> q in alive {
            EmptyLockIsForever(alive, dead, schedule);
          }
        }
    }
  }

  // ---- Giving up and releasing ----

  predicate WithinAttempts(phase: Phase) {
    match phase
    case Opening(k) => k < 3
    case Refused(k) => k < 3
    case Judged(k, _) => k < 3
    case Aside(k, _, _) => k < 3
    case Discarding(k, _) => k < 3
    case _ => true
  }

  /** Over every schedule no process is ever beyond its third attempt, and each of the three is made: after
      the first and the second a lost race is tried again, after the third it is not. */
  lemma {:induction false} ThreeAttempts(alive: set<Pid>, s: State, schedule: seq<Pid>)
    requires Has(alive, s) && (forall p :: p in alive ==> WithinAttempts(s.phases[p]))
    requires forall p :: p in schedule ==> p in alive
    ensures forall p :: p in alive ==> WithinAttempts(Run(alive, s, schedule).phases[p])
    ensures forall p, k, f :: p in alive && s.path == None && s.phases[p] == Judged(k, f) ==>
              Step(alive, s, p).phases[p] == if k == 0 then Opening(1) else if k == 1 then Opening(2) else Idle
    decreases |schedule|
  {
    if schedule != [] {
      ThreeAttempts(alive, Step(alive, s, schedule[0]), schedule[1..]);
    }
  }

  /** A holder that releases removes its own lock and no other: if another stands there, it stays. */
  lemma ReleasesOwnOnly(alive: set<Pid>, s: State, p: Pid, f: File)
    requires Has(alive, s) && p in alive && s.phases[p] == Holding(f)
    ensures var r := Step(alive, Step(alive, s, p), p);
            r.path == (if s.path == Some(f) then None else s.path) && !r.phases[p].Owns()
  {
  }
}
