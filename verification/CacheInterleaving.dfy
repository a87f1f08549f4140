// The two-layer cache under interleaving: a Get is a hot load, a disk read and a
// promotion, a Set is a hot store and a disk put, and a Del drops hot keys one
// by one before it deletes from disk, each with other threads in between.
module CacheInterleaving {
  import opened GoText
  import opened CacheKeys

  datatype Thread =
    | GetHot(key: Text)
    | GetDisk(key: Text)
    | GetPromote(key: Text, entry: Entry)
    | GetDone(key: Text, found: Option<Entry>)
    | SetHot(key: Text, entry: Entry)
    | SetDisk(key: Text, entry: Entry)
    | SetDone(key: Text, entry: Entry)
    | DelHot(prefix: Text)
    | DelDone(prefix: Text)

  // erasures counts the steps of deletions; sets holds the stores begun so far.
  datatype State = State(
    hot: map<Text, Entry>, disk: map<Text, Entry>, threads: map<nat, Thread>, hits: nat, misses: nat,
    disk0: map<Text, Entry>, sets: set<(Text, Entry)>, erasures: nat)

  predicate Init(s: State) {
    && s.hot == map[] && s.disk == s.disk0 && s.threads == map[]
    && s.hits == s.misses == s.erasures == 0 && s.sets == {}
  }

  datatype Step =
    | BeginGet(id: nat, key: Text)
    | BeginSet(id: nat, key: Text, entry: Entry)
    | BeginDel(id: nat, prefix: Text)
    | DropHot(id: nat, key: Text)
    | Go(id: nat)

  predicate Enabled(s: State, step: Step) {
    match step
    case BeginGet(id, _) => id !in s.threads
    case BeginSet(id, _, _) => id !in s.threads
    case BeginDel(id, _) => id !in s.threads
    case DropHot(id, key) => id in s.threads && s.threads[id].DelHot? && HasPrefix(key, s.threads[id].prefix)
    case Go(id) =>
      id in s.threads && !s.threads[id].GetDone? && !s.threads[id].SetDone? && !s.threads[id].DelDone?
  }

  function Moved(s: State, id: nat, t: Thread): State {
    s.(threads := s.threads[id := t])
  }

  function After(s: State, step: Step): State
    requires Enabled(s, step)
  {
    match step
    case BeginGet(id, k) => Moved(s, id, GetHot(k))
    case BeginSet(id, k, e) => Moved(s.(sets := s.sets + {(k, e)}), id, SetHot(k, e))
    case BeginDel(id, prefix) => Moved(s, id, DelHot(prefix))
    case DropHot(id, k) => s.(hot := s.hot - {k}, erasures := s.erasures + 1)
    case Go(id) =>
      match s.threads[id]
      case GetHot(k) =>
        if k in s.hot then Moved(s.(hits := s.hits + 1), id, GetDone(k, Some(s.hot[k]))) else Moved(s, id, GetDisk(k))
      case GetDisk(k) =>
        if k in s.disk then Moved(s, id, GetPromote(k, s.disk[k]))
        else Moved(s.(misses := s.misses + 1), id, GetDone(k, None))
      case GetPromote(k, e) => Moved(s.(hot := s.hot[k := e], hits := s.hits + 1), id, GetDone(k, Some(e)))
      case SetHot(k, e) => Moved(s.(hot := s.hot[k := e]), id, SetDisk(k, e))
      case SetDisk(k, e) => Moved(s.(disk := s.disk[k := e]), id, SetDone(k, e))
      case DelHot(prefix) =>
        var kept := map k | k in s.disk && !HasPrefix(k, prefix) :: s.disk[k];
        Moved(s.(disk := kept, erasures := s.erasures + 1), id, DelDone(prefix))
  }

  ghost predicate Next(s: State, s': State) {
    exists step :: Enabled(s, step) && s' == After(s, step)
  }

  ghost predicate Run(states: seq<State>) {
    && |states| >= 1 && Init(states[0])
    && (forall i | 0 <= i < |states| - 1 :: Next(states[i], states[i + 1]))
  }

  lemma StepAt(states: seq<State>, n: nat) returns (step: Step)
    requires Run(states) && 0 < n < |states|
    ensures Enabled(states[n - 1], step) && states[n] == After(states[n - 1], step)
  {
    hide Enabled, After;
    assert Next(states[n - 1], states[n - 1 + 1]);
    step :| Enabled(states[n - 1], step) && states[n] == After(states[n - 1], step);
  }

  // What a step does to k in either layer.
  lemma LayersAfter(s: State, step: Step, k: Text)
    requires Enabled(s, step)
    ensures var s' := After(s, step);
      if step.Go? then
        match s.threads[step.id]
        case SetHot(key, e) => s'.disk == s.disk && s'.hot == s.hot[key := e]
        case GetPromote(key, e) => s'.disk == s.disk && s'.hot == s.hot[key := e]
        case SetDisk(key, e) => s'.hot == s.hot && s'.disk == s.disk[key := e]
        case DelHot(prefix) =>
          && s'.hot == s.hot
          && (k in s'.disk <==> k in s.disk && !HasPrefix(k, prefix))
          && (k in s'.disk ==> s'.disk[k] == s.disk[k])
        case _ => s'.hot == s.hot && s'.disk == s.disk
      else
        && s'.disk == s.disk
        && (k in s'.hot ==> k in s.hot && s'.hot[k] == s.hot[k])
  {
  }

  // ---------- provenance ----------

  // The value was given to a Set of this key that has begun, or was on disk for
  // it at the start.
  predicate Known(s: State, k: Text, e: Entry) {
    (k, e) in s.sets || (k in s.disk0 && s.disk0[k] == e)
  }

  predicate KnownThread(s: State, t: Thread) {
    match t
    case GetPromote(k, e) => Known(s, k, e)
    case GetDone(k, Some(e)) => Known(s, k, e)
    case SetHot(k, e) => Known(s, k, e)
    case SetDisk(k, e) => Known(s, k, e)
    case _ => true
  }

  ghost predicate AllKnown(s: State) {
    && (forall k | k in s.hot :: Known(s, k, s.hot[k]))
    && (forall k | k in s.disk :: Known(s, k, s.disk[k]))
    && (forall i | i in s.threads :: KnownThread(s, s.threads[i]))
  }

  lemma KnownStays(s: State, step: Step)
    requires Enabled(s, step)
    ensures forall k: Text, e | Known(s, k, e) :: Known(After(s, step), k, e)
    ensures step.BeginSet? ==> Known(After(s, step), step.key, step.entry)
  {
  }

  lemma LayersKnown(s: State, step: Step, k: Text)
    requires AllKnown(s) && Enabled(s, step)
    ensures var s' := After(s, step);
      && (k in s'.hot ==> Known(s', k, s'.hot[k]))
      && (k in s'.disk ==> Known(s', k, s'.disk[k]))
  {
    KnownStays(s, step);
    LayersAfter(s, step, k);
    hide After, Enabled, Known;
    if step.Go? && step.id in s.threads {
      assert KnownThread(s, s.threads[step.id]);
    }
  }

  // A step moves one thread.
  lemma MovesOne(s: State, step: Step)
    requires Enabled(s, step)
    ensures var s' := After(s, step);
      && (forall i | i in s.threads :: i in s'.threads)
      && (forall i | i in s.threads && (!step.Go? || step.id != i) :: s'.threads[i] == s.threads[i])
  {
  }

  lemma NewThreadKnown(s: State, step: Step, i: nat)
    requires Enabled(s, step) && i in After(s, step).threads && i !in s.threads
    ensures KnownThread(After(s, step), After(s, step).threads[i])
  {
  }

  lemma MovedThreadKnown(s: State, i: nat)
    requires AllKnown(s) && Enabled(s, Go(i))
    ensures i in After(s, Go(i)).threads && KnownThread(After(s, Go(i)), After(s, Go(i)).threads[i])
  {
    KnownStays(s, Go(i));
    assert KnownThread(s, s.threads[i]);
    hide Known;
  }

  lemma ThreadsKnown(s: State, step: Step, i: nat)
    requires AllKnown(s) && Enabled(s, step) && i in After(s, step).threads
    ensures KnownThread(After(s, step), After(s, step).threads[i])
  {
    KnownStays(s, step);
    MovesOne(s, step);
    hide Known, After, Enabled;
    if i !in s.threads {
      NewThreadKnown(s, step, i);
    } else if step == Go(i) {
      MovedThreadKnown(s, i);
    } else {
      assert KnownThread(s, s.threads[i]);
    }
  }

  lemma AllKnownKept(s: State, step: Step)
    requires AllKnown(s) && Enabled(s, step)
    ensures AllKnown(After(s, step))
  {
    hide After, Enabled, Known, KnownThread;
    var s' := After(s, step);
    forall k: Text
      ensures k in s'.hot ==> Known(s', k, s'.hot[k])
      ensures k in s'.disk ==> Known(s', k, s'.disk[k])
    {
      LayersKnown(s, step, k);
    }
    forall i | i in s'.threads ensures KnownThread(s', s'.threads[i]) {
      ThreadsKnown(s, step, i);
    }
  }

  lemma {:induction false} RunAllKnown(states: seq<State>, n: nat)
    requires Run(states) && n < |states|
    ensures AllKnown(states[n])
  {
    if n > 0 {
      RunAllKnown(states, n - 1);
      var step := StepAt(states, n);
      hide Run, AllKnown, Enabled, After;
      AllKnownKept(states[n - 1], step);
    }
  }

  // Whatever a Get returns was put there by a Set of the same key that had
  // begun, or was on disk at the start.
  lemma GetReturnsKnown(states: seq<State>, n: nat, id: nat)
    requires Run(states) && n < |states| && id in states[n].threads
    requires states[n].threads[id].GetDone? && states[n].threads[id].found.Some?
    ensures var t := states[n].threads[id];
      (t.key, t.found.value) in states[n].sets || (t.key in states[0].disk && states[0].disk[t.key] == t.found.value)
  {
    RunAllKnown(states, n);
    SameStart(states, n);
    assert KnownThread(states[n], states[n].threads[id]);
  }

  lemma {:induction false} SameStart(states: seq<State>, n: nat)
    requires Run(states) && n < |states|
    ensures states[n].disk0 == states[0].disk
  {
    if n > 0 {
      SameStart(states, n - 1);
      var step := StepAt(states, n);
    }
  }

  // ---------- presence ----------

  predicate Has(s: State, k: Text) {
    k in s.hot || k in s.disk
  }

  predicate IsGet(t: Thread, k: Text) {
    (t.GetHot? || t.GetDisk? || t.GetPromote? || t.GetDone?) && t.key == k
  }

  predicate OnCourse(s: State, t: Thread, k: Text) {
    IsGet(t, k) ==> (t.GetDisk? ==> k in s.disk) && (t.GetDone? ==> t.found.Some?)
  }

  lemma {:induction false} ErasuresGrow(states: seq<State>, m: nat, n: nat)
    requires Run(states) && m <= n < |states|
    ensures states[m].erasures <= states[n].erasures
    decreases n - m
  {
    if m < n {
      ErasuresGrow(states, m, n - 1);
      var step := StepAt(states, n);
    }
  }

  ghost predicate Steady(s0: State, s: State, k: Text) {
    && Has(s, k)
    && (forall i | i in s0.threads :: i in s.threads)
    && (forall i | i in s.threads && i !in s0.threads :: OnCourse(s, s.threads[i], k))
  }

  // A step that is not part of a deletion keeps every key.
  lemma KeepsKeys(s: State, step: Step)
    requires Enabled(s, step) && After(s, step).erasures == s.erasures
    ensures s.hot.Keys <= After(s, step).hot.Keys && s.disk.Keys <= After(s, step).disk.Keys
  {
  }

  lemma NewThreadOnCourse(s: State, step: Step, i: nat, k: Text)
    requires Enabled(s, step) && i in After(s, step).threads && i !in s.threads
    ensures OnCourse(After(s, step), After(s, step).threads[i], k)
  {
  }

  lemma MovedThreadOnCourse(s: State, i: nat, k: Text)
    requires Enabled(s, Go(i)) && Has(s, k) && OnCourse(s, s.threads[i], k)
    requires After(s, Go(i)).erasures == s.erasures
    ensures i in After(s, Go(i)).threads && OnCourse(After(s, Go(i)), After(s, Go(i)).threads[i], k)
  {
    match s.threads[i]
    case GetHot(_) =>
    case GetDisk(_) =>
    case GetPromote(_, _) =>
    case _ =>
  }

  lemma ThreadOnCourse(s: State, step: Step, i: nat, k: Text)
    requires Enabled(s, step) && After(s, step).erasures == s.erasures && Has(s, k)
    requires i in After(s, step).threads
    requires i in s.threads ==> OnCourse(s, s.threads[i], k)
    ensures OnCourse(After(s, step), After(s, step).threads[i], k)
  {
    hide After, Enabled, Has;
    KeepsKeys(s, step);
    MovesOne(s, step);
    if i !in s.threads {
      NewThreadOnCourse(s, step, i, k);
    } else if step == Go(i) {
      MovedThreadOnCourse(s, i, k);
    }
  }

  lemma SteadyKept(s0: State, s: State, step: Step, k: Text)
    requires Steady(s0, s, k) && Enabled(s, step) && After(s, step).erasures == s.erasures
    ensures Steady(s0, After(s, step), k)
  {
    var s' := After(s, step);
    KeepsKeys(s, step);
    MovesOne(s, step);
    hide After, Enabled, OnCourse;
    forall i | i in s'.threads && i !in s0.threads ensures OnCourse(s', s'.threads[i], k) {
      ThreadOnCourse(s, step, i, k);
    }
  }

  lemma {:induction false} StaysSteady(states: seq<State>, m: nat, n: nat, k: Text)
    requires Run(states) && m <= n < |states| && Has(states[m], k)
    requires states[m].erasures == states[n].erasures
    ensures Steady(states[m], states[n], k)
    decreases n - m
  {
    if m < n {
      ErasuresGrow(states, m, n - 1);
      var step := StepAt(states, n);
      assert states[n - 1].erasures <= states[n].erasures;
      hide Run, Enabled, After, Steady, Has;
      StaysSteady(states, m, n - 1, k);
      SteadyKept(states[m], states[n - 1], step, k);
    }
  }

  // Once a key has an entry in either layer, and as long as no deletion takes a
  // step, every Get of it that begins later and finishes is a hit.
  lemma LaterGetsHit(states: seq<State>, m: nat, n: nat, id: nat)
    requires Run(states) && m <= n < |states|
    requires id in states[n].threads && id !in states[m].threads && states[n].threads[id].GetDone?
    requires Has(states[m], states[n].threads[id].key) && states[m].erasures == states[n].erasures
    ensures states[n].threads[id].found.Some?
  {
    StaysSteady(states, m, n, states[n].threads[id].key);
    assert OnCourse(states[n], states[n].threads[id], states[n].threads[id].key);
  }

  predicate Deletes(t: Thread, k: Text) {
    (t.DelHot? || t.DelDone?) && HasPrefix(k, t.prefix)
  }

  // No deletion of a prefix of k has begun.
  ghost predicate Spared(s: State, k: Text) {
    forall i | i in s.threads :: !Deletes(s.threads[i], k)
  }

  lemma SparedBefore(s: State, step: Step, k: Text)
    requires Enabled(s, step) && Spared(After(s, step), k)
    ensures Spared(s, k)
  {
    hide HasPrefix;
    forall i | i in s.threads ensures !Deletes(s.threads[i], k) {
      if Deletes(s.threads[i], k) {
        DeletionStays(s, step, i, k);
      }
    }
  }

  lemma DeletionStays(s: State, step: Step, i: nat, k: Text)
    requires Enabled(s, step) && i in s.threads && Deletes(s.threads[i], k)
    ensures i in After(s, step).threads && Deletes(After(s, step).threads[i], k)
  {
    hide HasPrefix;
  }

  lemma SparedKeyStays(s: State, step: Step, k: Text)
    requires Enabled(s, step) && Has(s, k) && Spared(s, k)
    ensures Has(After(s, step), k)
  {
    LayersAfter(s, step, k);
    if step.Go? || step.DropHot? {
      assert !Deletes(s.threads[step.id], k);
    }
    hide HasPrefix;
  }

  // A deletion leaves the keys of other prefixes alone: as long as none of a
  // prefix of the key has begun, the key stays in a layer once it is in one.
  lemma {:induction false} SparedKeysStay(states: seq<State>, m: nat, n: nat, k: Text)
    requires Run(states) && m <= n < |states| && Has(states[m], k) && Spared(states[n], k)
    ensures Has(states[n], k)
    decreases n - m
  {
    hide Enabled, After, Has, Spared;
    if m < n {
      var step := StepAt(states, n);
      SparedBefore(states[n - 1], step, k);
      SparedKeysStay(states, m, n - 1, k);
      SparedKeyStays(states[n - 1], step, k);
    }
  }

  // ---------- counters ----------

  function Completed(s: State): set<nat> {
    set i | i in s.threads && s.threads[i].GetDone?
  }

  lemma CompletedKept(s: State, step: Step)
    requires Enabled(s, step) && s.hits + s.misses == |Completed(s)|
    ensures After(s, step).hits + After(s, step).misses == |Completed(After(s, step))|
  {
    hide After, Enabled, Completed;
    TalliesAfter(s, step);
    CompletedAfter(s, step);
  }

  lemma TalliesAfter(s: State, step: Step)
    requires Enabled(s, step)
    ensures var s' := After(s, step);
      && (step.Go? ==> step.id in s'.threads)
      && s'.hits + s'.misses == s.hits + s.misses + (if step.Go? && s'.threads[step.id].GetDone? then 1 else 0)
  {
  }

  lemma CompletedAfter(s: State, step: Step)
    requires Enabled(s, step)
    ensures step.Go? ==> step.id in After(s, step).threads
    ensures var s' := After(s, step);
      if step.Go? && s'.threads[step.id].GetDone?
      then step.id !in Completed(s) && Completed(s') == Completed(s) + {step.id}
      else Completed(s') == Completed(s)
  {
  }

  // Hits and misses are the completed Gets.
  lemma {:induction false} HitsAndMisses(states: seq<State>, n: nat)
    requires Run(states) && n < |states|
    ensures states[n].hits + states[n].misses == |Completed(states[n])|
  {
    if n == 0 {
      assert Completed(states[0]) == {};
    } else {
      HitsAndMisses(states, n - 1);
      var step := StepAt(states, n);
      hide Run, Enabled, After, Completed;
      CompletedKept(states[n - 1], step);
    }
  }

  // ---------- when the layers agree ----------

  // A Set of k has stored its entry in the hot layer and not yet on disk.
  predicate Puts(t: Thread, k: Text) {
    t.SetDisk? && t.key == k
  }

  ghost predicate Settled(s: State, k: Text) {
    forall i | i in s.threads :: !Puts(s.threads[i], k)
  }

  // What is hot is on disk.
  predicate Agrees(s: State, k: Text) {
    k in s.hot ==> k in s.disk && s.disk[k] == s.hot[k]
  }

  // What is hot is on disk, or is what every Set under way will put there.
  ghost predicate Coherent(s: State, k: Text) {
    && (forall i | i in s.threads && Puts(s.threads[i], k) :: k in s.hot ==> s.hot[k] == s.threads[i].entry)
    && (Settled(s, k) ==> Agrees(s, k))
  }

  // The hot layer may take this entry: every Set of k under way has the same.
  ghost predicate Undisputed(s: State, k: Text, e: Entry) {
    forall i | i in s.threads && Puts(s.threads[i], k) :: s.threads[i].entry == e
  }

  // The guard of each step: a store meets no other entry on its way to disk; a
  // promotion meets neither that nor a newer entry on disk; a deletion from disk
  // leaves nothing hot behind, unless a Set is about to put it back.
  ghost predicate Orderly(s: State, step: Step, k: Text)
    requires Enabled(s, step)
  {
    step.Go? ==>
      match s.threads[step.id]
      case SetHot(key, e) => key == k ==> Undisputed(s, k, e)
      case GetPromote(key, e) =>
        key == k ==> Undisputed(s, k, e) && (Settled(s, k) ==> k in s.disk && s.disk[k] == e)
      case DelHot(prefix) => HasPrefix(k, prefix) && k in s.hot ==> !Settled(s, k)
      case _ => true
  }

  // Who puts k, after a step.
  lemma PutsAfter(s: State, step: Step, k: Text)
    requires Enabled(s, step)
    ensures var s' := After(s, step);
      && (forall i | i in s.threads && !(step.Go? && step.id == i) :: i in s'.threads && s'.threads[i] == s.threads[i])
      && (forall i | i in s'.threads && Puts(s'.threads[i], k) && !(step.Go? && step.id == i) ::
            i in s.threads && Puts(s.threads[i], k))
      && (step.Go? ==>
            && step.id in s'.threads
            && (Puts(s'.threads[step.id], k) <==> s.threads[step.id].SetHot? && s.threads[step.id].key == k)
            && (Puts(s'.threads[step.id], k) ==> s'.threads[step.id].entry == s.threads[step.id].entry))
  {
  }

  lemma CoherentStores(s: State, step: Step, k: Text)
    requires Enabled(s, step) && Coherent(s, k) && step.Go? && (s.threads[step.id].SetHot? || s.threads[step.id].GetPromote?)
    ensures Coherent(After(s, step), k) <==> Orderly(s, step, k)
  {
    PutsAfter(s, step, k);
    LayersAfter(s, step, k);
    hide After, Enabled, HasPrefix;
    assert step.Go? && Puts(s.threads[step.id], k) ==> !Settled(s, k);
  }

  lemma CoherentPuts(s: State, step: Step, k: Text)
    requires Enabled(s, step) && Coherent(s, k) && step.Go? && (s.threads[step.id].SetDisk? || s.threads[step.id].DelHot?)
    ensures Coherent(After(s, step), k) <==> Orderly(s, step, k)
  {
    PutsAfter(s, step, k);
    LayersAfter(s, step, k);
    hide After, Enabled, HasPrefix;
    assert step.Go? && Puts(s.threads[step.id], k) ==> !Settled(s, k);
  }

  lemma CoherentElse(s: State, step: Step, k: Text)
    requires Enabled(s, step) && Coherent(s, k) && (step.Go? ==> s.threads[step.id].GetHot? || s.threads[step.id].GetDisk?)
    ensures Coherent(After(s, step), k) <==> Orderly(s, step, k)
  {
    PutsAfter(s, step, k);
    LayersAfter(s, step, k);
    hide After, Enabled, HasPrefix;
    assert step.Go? && Puts(s.threads[step.id], k) ==> !Settled(s, k);
  }

  // Each step keeps coherence exactly under its guard.
  lemma CoherentExactly(s: State, step: Step, k: Text)
    requires Enabled(s, step) && Coherent(s, k)
    ensures Coherent(After(s, step), k) <==> Orderly(s, step, k)
  {
    hide After, Coherent, Orderly;
    if step.Go? && (s.threads[step.id].SetHot? || s.threads[step.id].GetPromote?) {
      CoherentStores(s, step, k);
    } else if step.Go? && (s.threads[step.id].SetDisk? || s.threads[step.id].DelHot?) {
      CoherentPuts(s, step, k);
    } else {
      CoherentElse(s, step, k);
    }
  }

  // The steps that lead through the states.
  ghost predicate Leads(states: seq<State>, steps: seq<Step>) {
    && |states| == |steps| + 1
    && (forall i | 0 <= i < |steps| :: Enabled(states[i], steps[i]) && states[i + 1] == After(states[i], steps[i]))
  }

  // Along a whole run the states are coherent for k exactly as long as the steps
  // are orderly for it.
  lemma {:induction false} CoherentRuns(states: seq<State>, steps: seq<Step>, k: Text)
    requires Leads(states, steps) && Init(states[0])
    ensures (forall i | 0 <= i < |states| :: Coherent(states[i], k))
       <==> (forall i | 0 <= i < |steps| :: Orderly(states[i], steps[i], k))
  {
    hide Enabled, After, Coherent, Orderly;
    CoherentAtStart(states[0], k);
    if forall i | 0 <= i < |steps| :: Orderly(states[i], steps[i], k) {
      forall n | 0 <= n < |states| ensures Coherent(states[n], k) {
        CoherentUpTo(states, steps, k, n);
      }
    }
    if forall i | 0 <= i < |states| :: Coherent(states[i], k) {
      forall i | 0 <= i < |steps| ensures Orderly(states[i], steps[i], k) {
        assert Coherent(states[i], k) && Coherent(states[i + 1], k);
        CoherentExactly(states[i], steps[i], k);
      }
    }
  }

  lemma CoherentAtStart(s: State, k: Text)
    requires Init(s)
    ensures Coherent(s, k)
  {
  }

  lemma {:induction false} CoherentUpTo(states: seq<State>, steps: seq<Step>, k: Text, n: nat)
    requires Leads(states, steps) && n < |states| && Coherent(states[0], k)
    requires forall i | 0 <= i < |steps| :: Orderly(states[i], steps[i], k)
    ensures Coherent(states[n], k)
  {
    if n > 0 {
      CoherentUpTo(states, steps, k, n - 1);
      hide Enabled, After, Coherent, Orderly;
      CoherentExactly(states[n - 1], steps[n - 1], k);
      assert states[n] == states[n - 1 + 1];
    }
  }

  // So after orderly steps, whenever no Set of k is between its two stores, what
  // is hot is on disk.
  lemma OrderlyAgrees(states: seq<State>, steps: seq<Step>, k: Text, n: nat)
    requires Leads(states, steps) && Init(states[0]) && n < |states|
    requires forall i | 0 <= i < |steps| :: Orderly(states[i], steps[i], k)
    requires Settled(states[n], k)
    ensures Agrees(states[n], k)
  {
    hide Enabled, After, Orderly;
    CoherentRuns(states, steps, k);
    assert Coherent(states[n], k);
  }

  function Putting(s: State, k: Text): set<nat> {
    set i | i in s.threads && Puts(s.threads[i], k)
  }

  // Coherence asks no more than that: from any other state the Sets of k under
  // way can put their entries on disk in an order after which the layers differ.
  lemma {:induction false} IncoherenceShows(s: State, k: Text) returns (states: seq<State>, steps: seq<Step>)
    requires !Coherent(s, k)
    ensures Leads(states, steps) && states[0] == s
    ensures forall i | 0 <= i < |steps| :: steps[i].Go? && PutsIn(s, steps[i].id, k)
    ensures var end := states[|steps|]; Settled(end, k) && !Agrees(end, k)
    decreases |Putting(s, k)|
  {
    if Settled(s, k) {
      states, steps := [s], [];
    } else {
      var last: nat :| PutsIn(s, last, k) && k in s.hot && s.hot[k] != s.threads[last].entry;
      var id := PutFirst(s, k, last);
      var s' := PutNext(s, k, last, id);
      hide Enabled, After, PutsIn, Coherent, Putting, Agrees, Settled, Leads;
      var later, rest := IncoherenceShows(s', k);
      states, steps := [s] + later, [Go(id)] + rest;
      Prepended(s, Go(id), later, rest);
    }
  }

  predicate PutsIn(s: State, i: nat, k: Text) {
    i in s.threads && Puts(s.threads[i], k)
  }

  // Any other Set of k goes before the last one.
  lemma PutFirst(s: State, k: Text, last: nat) returns (id: nat)
    requires PutsIn(s, last, k)
    ensures PutsIn(s, id, k) && (id == last ==> Putting(s, k) == {last})
  {
    id := last;
    if i :| i in Putting(s, k) - {last} {
      id := i;
    } else {
      assert last in Putting(s, k);
      assert Putting(s, k) == (Putting(s, k) - {last}) + {last};
    }
  }

  lemma Prepended(s: State, step: Step, later: seq<State>, rest: seq<Step>)
    requires Enabled(s, step) && Leads(later, rest) && later[0] == After(s, step)
    ensures Leads([s] + later, [step] + rest) && |later| == |rest| + 1
  {
    hide Enabled, After;
    var states, steps := [s] + later, [step] + rest;
    forall i | 0 <= i < |steps| ensures Enabled(states[i], steps[i]) && states[i + 1] == After(states[i], steps[i]) {
      if i > 0 {
        assert Enabled(later[i - 1], rest[i - 1]) && later[i - 1 + 1] == After(later[i - 1], rest[i - 1]);
      }
    }
  }

  // One Set of k puts its entry; the layers differ, or will when last puts its own.
  lemma PutNext(s: State, k: Text, last: nat, id: nat) returns (s': State)
    requires PutsIn(s, last, k) && k in s.hot && s.hot[k] != s.threads[last].entry
    requires PutsIn(s, id, k) && (id == last ==> Putting(s, k) == {last})
    ensures Enabled(s, Go(id)) && s' == After(s, Go(id)) && !Coherent(s', k)
    ensures |Putting(s', k)| < |Putting(s, k)|
    ensures forall i: nat | PutsIn(s', i, k) :: PutsIn(s, i, k)
  {
    s' := After(s, Go(id));
    assert id in Putting(s, k) && id !in Putting(s', k);
    assert Putting(s', k) == Putting(s, k) - {id};
    assert forall i: nat :: PutsIn(s', i, k) <==> i in Putting(s', k);
    if id == last {
      assert forall i | i in s'.threads && Puts(s'.threads[i], k) :: i in Putting(s', k);
      assert Settled(s', k);
    } else {
      assert Puts(s'.threads[last], k) && s'.threads[last].entry != s'.hot[k];
    }
  }

  // ---------- two ways to differ ----------

  // Two Sets of k begin; the first and then the second store in the hot layer;
  // the second and then the first put on disk.
  function Crossing(k: Text, a: Entry, b: Entry, i: nat): State {
    var s0 := State(map[], map[], map[], 0, 0, map[], {}, 0);
    var s2 := s0.(sets := {(k, a), (k, b)}, threads := map[0 := SetHot(k, a), 1 := SetHot(k, b)]);
    if i == 0 then s0
    else if i == 1 then s0.(sets := {(k, a)}, threads := map[0 := SetHot(k, a)])
    else if i == 2 then s2
    else if i == 3 then s2.(hot := map[k := a], threads := map[0 := SetDisk(k, a), 1 := SetHot(k, b)])
    else if i == 4 then s2.(hot := map[k := b], threads := map[0 := SetDisk(k, a), 1 := SetDisk(k, b)])
    else
      var s5 := s2.(hot := map[k := b], disk := map[k := b], threads := map[0 := SetDisk(k, a), 1 := SetDone(k, b)]);
      if i == 5 then s5 else s5.(disk := map[k := a], threads := map[0 := SetDone(k, a), 1 := SetDone(k, b)])
  }

  lemma CrossingBegins(k: Text, a: Entry, b: Entry, i: nat)
    requires i < 3
    ensures Next(Crossing(k, a, b, i), Crossing(k, a, b, i + 1))
  {
    var step := if i == 0 then BeginSet(0, k, a) else if i == 1 then BeginSet(1, k, b) else Go(0);
    Follows(Crossing(k, a, b, i), step, Crossing(k, a, b, i + 1));
  }

  lemma CrossingEnds(k: Text, a: Entry, b: Entry, i: nat)
    requires 3 <= i < 6
    ensures Next(Crossing(k, a, b, i), Crossing(k, a, b, i + 1))
  {
    Follows(Crossing(k, a, b, i), if i == 5 then Go(0) else Go(1), Crossing(k, a, b, i + 1));
  }

  // Two Sets of one key cross, and the layers differ for good: the one that is
  // last in the hot layer is first on disk.
  lemma SetsCross(k: Text, a: Entry, b: Entry) returns (states: seq<State>)
    requires a != b
    ensures Run(states)
    ensures var s := states[|states| - 1];
      && s.threads == map[0 := SetDone(k, a), 1 := SetDone(k, b)]
      && s.hot == map[k := b] && s.disk == map[k := a]
  {
    states := seq(7, i requires 0 <= i < 7 => Crossing(k, a, b, i));
    assert Init(Crossing(k, a, b, 0));
    forall i | 0 <= i < 6 ensures Next(states[i], states[i + 1]) {
      if i < 3 {
        CrossingBegins(k, a, b, i);
      } else {
        CrossingEnds(k, a, b, i);
      }
    }
    assert states[6] == Crossing(k, a, b, 6);
  }

  // A Get of k reads the disk; a Set of k runs to its end; the Get promotes.
  function Overtaken(k: Text, was: Entry, put: Entry, i: nat): State {
    var d0, d1 := map[k := was], map[k := put];
    var s0 := State(map[], d0, map[], 0, 0, d0, {}, 0);
    var s4 := State(map[], d0, map[0 := GetPromote(k, was), 1 := SetHot(k, put)], 0, 0, d0, {(k, put)}, 0);
    if i == 0 then s0
    else if i == 1 then s0.(threads := map[0 := GetHot(k)])
    else if i == 2 then s0.(threads := map[0 := GetDisk(k)])
    else if i == 3 then s0.(threads := map[0 := GetPromote(k, was)])
    else if i == 4 then s4
    else if i == 5 then s4.(hot := d1, threads := map[0 := GetPromote(k, was), 1 := SetDisk(k, put)])
    else if i == 6 then s4.(hot := d1, disk := d1, threads := map[0 := GetPromote(k, was), 1 := SetDone(k, put)])
    else s4.(hot := d0, disk := d1, threads := map[0 := GetDone(k, Some(was)), 1 := SetDone(k, put)], hits := 1)
  }

  lemma OvertakenBegins(k: Text, was: Entry, put: Entry, i: nat)
    requires i < 3
    ensures Next(Overtaken(k, was, put, i), Overtaken(k, was, put, i + 1))
  {
    Follows(Overtaken(k, was, put, i), if i == 0 then BeginGet(0, k) else Go(0), Overtaken(k, was, put, i + 1));
  }

  lemma OvertakenSets(k: Text, was: Entry, put: Entry, i: nat)
    requires 3 <= i < 5
    ensures Next(Overtaken(k, was, put, i), Overtaken(k, was, put, i + 1))
  {
    Follows(Overtaken(k, was, put, i), if i == 3 then BeginSet(1, k, put) else Go(1), Overtaken(k, was, put, i + 1));
  }

  lemma OvertakenEnds(k: Text, was: Entry, put: Entry, i: nat)
    requires 5 <= i < 7
    ensures Next(Overtaken(k, was, put, i), Overtaken(k, was, put, i + 1))
  {
    Follows(Overtaken(k, was, put, i), if i == 6 then Go(0) else Go(1), Overtaken(k, was, put, i + 1));
  }

  // The layers may come to differ for good: a promotion that was under way puts
  // the old entry back over a Set that has completed in between.
  lemma PromotionUndoesSet(k: Text, was: Entry, put: Entry) returns (states: seq<State>)
    requires was != put
    ensures Run(states)
    ensures var s := states[|states| - 1];
      && s.threads == map[0 := GetDone(k, Some(was)), 1 := SetDone(k, put)]
      && s.hot == map[k := was] && s.disk == map[k := put]
  {
    states := seq(8, i requires 0 <= i < 8 => Overtaken(k, was, put, i));
    assert Init(Overtaken(k, was, put, 0));
    forall i | 0 <= i < 7 ensures Next(states[i], states[i + 1]) {
      if i < 3 {
        OvertakenBegins(k, was, put, i);
      } else if i < 5 {
        OvertakenSets(k, was, put, i);
      } else {
        OvertakenEnds(k, was, put, i);
      }
    }
    assert states[7] == Overtaken(k, was, put, 7);
  }

  lemma Follows(s: State, step: Step, s': State)
    requires Enabled(s, step)
    requires var t := After(s, step);
      && t.hot == s'.hot && t.disk == s'.disk && t.threads == s'.threads && t.hits == s'.hits && t.misses == s'.misses
      && t.disk0 == s'.disk0 && t.sets == s'.sets && t.erasures == s'.erasures
    ensures Next(s, s')
  {
    assert After(s, step) == s';
  }
}
