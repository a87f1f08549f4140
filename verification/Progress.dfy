// Every request and refresh comes to an end: the work left is bounded, and each
// step of theirs uses some of it up.
module Progress {
  import opened GoText
  import opened Pipeline
  import opened Slots

  // The most steps a request can still take, its refresh included.
  function Rank(pc: Pc): nat {
    match pc
    case Parsing => 22
    case Overriding => 21
    case Claiming => 20
    case Waiting => 19
    case RecheckHot => 18
    case RecheckDisk => 17
    case RecheckPromote(_) => 16
    case Negative => 15
    case LookHot => 14
    case LookDisk => 13
    case LookPromote(_) => 12
    case Judging(_) => 11
    case Resolving(_) => 10
    case NegativeStore => 9
    case Storing(_) => 9
    case Persisting(_) => 8
    case Closing(_) => 3
    case Deleting(_) => 2
    case Counting(_) => 1
    case Finished(_) => 0
  }

  function RefreshRank(pc: RefreshPc): nat {
    match pc
    case Fetching => 3
    case Hotting(_) => 2
    case Disking(_) => 1
    case _ => 0
  }

  // ---------- sums over finite maps ----------

  ghost function Sum<T>(m: map<nat, T>, weight: T -> nat): nat
    decreases |m|
  {
    if m == map[] then 0
    else
      var k :| k in m;
      weight(m[k]) + Sum(m - {k}, weight)
  }

  lemma {:induction false} SumTakesOut<T>(m: map<nat, T>, weight: T -> nat, k: nat)
    requires k in m
    ensures Sum(m, weight) == weight(m[k]) + Sum(m - {k}, weight)
    decreases |m|
  {
    var j :| j in m && Sum(m, weight) == weight(m[j]) + Sum(m - {j}, weight);
    if j != k {
      SumTakesOut(m - {j}, weight, k);
      SumTakesOut(m - {k}, weight, j);
      assert m - {j} - {k} == m - {k} - {j};
    }
  }

  lemma SumPut<T>(m: map<nat, T>, weight: T -> nat, k: nat, v: T)
    ensures Sum(m[k := v], weight) == Sum(m, weight) + weight(v) - (if k in m then weight(m[k]) else 0)
  {
    SumTakesOut(m[k := v], weight, k);
    if k in m {
      SumTakesOut(m, weight, k);
      assert m[k := v] - {k} == m - {k};
    } else {
      assert m[k := v] - {k} == m;
    }
  }

  // ---------- work left ----------

  function RequestRank(r: Request): nat {
    Rank(r.pc)
  }

  function RefresherRank(r: Refresher): nat {
    RefreshRank(r.pc)
  }

  ghost function Work(s: State): nat {
    Sum(s.reqs, RequestRank) + Sum(s.refreshers, RefresherRank)
  }

  lemma RankDecided(s: State, id: nat, c: Choice)
    requires CanAct(s, id, c)
    ensures var r, e := s.reqs[id], Decide(s, id, c);
      && Rank(e.pc) + (if e.change.SpawnRefresh? then 3 else 0) < Rank(r.pc)
      && (e.change.SpawnRefresh? ==> e.change.child !in s.refreshers)
  {
  }

  lemma ActUsesWork(s: State, id: nat, c: Choice)
    requires CanAct(s, id, c)
    ensures Work(Do(s, id, c)) < Work(s)
  {
    var e, s' := Decide(s, id, c), Do(s, id, c);
    var r' := s.reqs[id].(role := e.role, pc := e.pc);
    var child := Refresher(s.reqs[id].Domain(), s.reqs[id].Qtype(), Fetching);
    assert s'.reqs == s.reqs[id := r'];
    assert s'.refreshers == if e.change.SpawnRefresh? then s.refreshers[e.change.child := child] else s.refreshers;
    RankDecided(s, id, c);
    SumPut(s.reqs, RequestRank, id, r');
    assert RequestRank(r') == Rank(e.pc) && RequestRank(s.reqs[id]) == Rank(s.reqs[id].pc);
    if e.change.SpawnRefresh? {
      SumPut(s.refreshers, RefresherRank, e.change.child, child);
      assert RefresherRank(child) == 3;
    }
  }

  lemma RefreshUsesWork(s: State, child: nat, c: Choice)
    requires CanRefresh(s, child, c)
    ensures Work(DoRefresh(s, child, c)) < Work(s)
  {
    var s' := DoRefresh(s, child, c);
    assert s'.refreshers == s.refreshers[child := s'.refreshers[child]];
    SumPut(s.refreshers, RefresherRank, child, s'.refreshers[child]);
    assert RefresherRank(s'.refreshers[child]) < RefresherRank(s.refreshers[child]);
  }

  // A stretch of a run in which nothing arrives and the clock stands still.
  ghost predicate Quiet(states: seq<State>) {
    |states| >= 1 && forall i | 0 <= i < |states| - 1 :: Works(states[i], states[i + 1])
  }

  ghost predicate Works(s: State, s': State) {
    exists step: Step :: (step.Act? || step.Refresh?) && Enabled(s, step) && s' == After(s, step)
  }

  // Such a stretch is never longer than the work left at its beginning.
  lemma {:induction false} QuietEnds(states: seq<State>)
    requires Quiet(states)
    ensures |states| - 1 + Work(states[|states| - 1]) <= Work(states[0])
  {
    var n := |states| - 1;
    if n > 0 {
      var before := states[..n];
      forall i | 0 <= i < |before| - 1 ensures Works(before[i], before[i + 1]) {
        assert Works(states[i], states[i + 1]);
      }
      QuietEnds(before);
      assert Works(states[n - 1], states[n - 1 + 1]);
      WorksUsesWork(states[n - 1], states[n]);
    }
  }

  lemma WorksUsesWork(s: State, s': State)
    requires Works(s, s')
    ensures Work(s') < Work(s)
  {
    var step: Step :| (step.Act? || step.Refresh?) && Enabled(s, step) && s' == After(s, step);
    hide Work, Do, DoRefresh, CanAct, CanRefresh, Plausible;
    match step
    case Act(id, c) =>
      assert CanAct(s, id, c);
      ActUsesWork(s, id, c);
    case Refresh(child, c) =>
      assert CanRefresh(s, child, c);
      RefreshUsesWork(s, child, c);
    case _ =>
  }

  lemma StepWorks(s: State, step: Step)
    requires (step.Act? || step.Refresh?) && Enabled(s, step)
    ensures Works(s, After(s, step))
  {
    hide Enabled, After;
  }

  // And where it can go no further, every request is finished, no slot is left
  // and no refresh is under way.
  lemma StillMeansDone(s: State)
    requires SlotInv(s)
    requires forall s' :: !Works(s, s')
    ensures forall i | i in s.reqs :: IsFinished(s.reqs[i])
    ensures s.inflight == map[]
    ensures forall j | j in s.refreshers :: s.refreshers[j].pc.Failed? || s.refreshers[j].pc.Stored?
  {
    hide SlotInv, After, Enabled, Works, IsFinished;
    StillRefreshers(s);
    forall i | i in s.reqs ensures IsFinished(s.reqs[i]) {
      if !IsFinished(s.reqs[i]) {
        var who, c := NoDeadlock(s, i);
        StepWorks(s, Act(who, c));
      }
    }
    NoSlotLeft(s);
  }

  lemma StillRefreshers(s: State)
    requires forall s' :: !Works(s, s')
    ensures forall j | j in s.refreshers :: s.refreshers[j].pc.Failed? || s.refreshers[j].pc.Stored?
  {
    hide After, Works;
    forall j | j in s.refreshers ensures s.refreshers[j].pc.Failed? || s.refreshers[j].pc.Stored? {
      var c := if s.refreshers[j].pc.Fetching? then Fail else Pass;
      if CanRefresh(s, j, c) {
        StepWorks(s, Refresh(j, c));
      }
    }
  }

  // ---------- all steps of a run ----------

  // The steps that lead through the states.
  ghost predicate Leads(states: seq<State>, steps: seq<Step>) {
    && |states| == |steps| + 1
    && (forall i | 0 <= i < |steps| :: Enabled(states[i], steps[i]) && states[i + 1] == After(states[i], steps[i]))
  }

  lemma {:induction false} StepsOf(states: seq<State>) returns (steps: seq<Step>)
    requires Run(states)
    ensures Leads(states, steps)
  {
    hide Enabled, After;
    if |states| == 1 {
      steps := [];
    } else {
      var n := |states| - 1;
      var before := states[..n];
      forall i | 0 <= i < |before| - 1 ensures Next(before[i], before[i + 1]) {
        assert Next(states[i], states[i + 1]);
      }
      var front := StepsOf(before);
      assert Next(states[n - 1], states[n - 1 + 1]);
      var step :| Enabled(states[n - 1], step) && states[n] == After(states[n - 1], step);
      steps := front + [step];
      forall i | 0 <= i < |steps| ensures Enabled(states[i], steps[i]) && states[i + 1] == After(states[i], steps[i]) {
        if i < n - 1 {
          assert before[i] == states[i] && before[i + 1] == states[i + 1];
        }
      }
    }
  }

  function Workings(steps: seq<Step>): nat {
    if steps == [] then 0
    else
      var last := steps[|steps| - 1];
      Workings(steps[..|steps| - 1]) + (if last.Act? || last.Refresh? then 1 else 0)
  }

  function Arrivals(steps: seq<Step>): nat {
    if steps == [] then 0
    else Arrivals(steps[..|steps| - 1]) + (if steps[|steps| - 1].Arrive? then 1 else 0)
  }

  // An arrival brings the work of one request; the clock brings none.
  lemma WorkAfter(s: State, step: Step)
    requires Enabled(s, step)
    ensures Work(After(s, step)) + (if step.Act? || step.Refresh? then 1 else 0)
         <= Work(s) + (if step.Arrive? then 22 else 0)
  {
    hide Work, Enabled, After, Do, DoRefresh, CanAct, CanRefresh, Plausible, Begin;
    match step
    case Act(id, c) =>
      ActIs(s, id, c);
      ActUsesWork(s, id, c);
    case Refresh(child, c) =>
      RefreshIs(s, child, c);
      RefreshUsesWork(s, child, c);
    case Arrive(id, packet) =>
      ArriveIs(s, id, packet);
      ArrivalWork(s, After(s, step), id, packet);
    case Tick(now) =>
      TickIs(s, now);
      SameWork(s, After(s, step));
  }

  lemma ArrivalWork(s: State, s': State, id: nat, packet: seq<byte>)
    requires id !in s.reqs && s'.reqs == s.reqs[id := Begin(s, packet)] && s'.refreshers == s.refreshers
    ensures Work(s') == Work(s) + 22
  {
    SumPut(s.reqs, RequestRank, id, Begin(s, packet));
    assert RequestRank(Begin(s, packet)) == 22;
  }

  lemma SameWork(s: State, s': State)
    requires s'.reqs == s.reqs && s'.refreshers == s.refreshers
    ensures Work(s') == Work(s)
  {
  }

  // In every run, whatever arrives and whatever the clock does in between, the
  // steps of requests and refreshes are at most 22 for each arrival.
  lemma {:induction false} StepsBounded(states: seq<State>, steps: seq<Step>)
    requires Leads(states, steps) && Init(states[0])
    ensures Workings(steps) + Work(states[|steps|]) <= 22 * Arrivals(steps)
    decreases |steps|
  {
    hide Enabled, After, Work, Init;
    if steps == [] {
      NoWork(states[0]);
    } else {
      var n := |steps| - 1;
      var before, front := states[..n + 1], steps[..n];
      forall i | 0 <= i < |front| ensures Enabled(before[i], front[i]) && before[i + 1] == After(before[i], front[i]) {
        assert before[i] == states[i] && before[i + 1] == states[i + 1] && front[i] == steps[i];
      }
      StepsBounded(before, front);
      WorkAfter(states[n], steps[n]);
      assert states[n + 1] == After(states[n], steps[n]);
    }
  }

  lemma NoWork(s: State)
    requires Init(s)
    ensures Work(s) == 0
  {
  }
}
