/** How pipelines leave: by finishing, or by the stop and kill protocol; and which never start at all. */
module StoppingProofs {
  import opened Wrappers
  import opened Scheduling
  import opened SchedulingProofs

  // ---------------------------------------------------------------------------
  // What a round leaves alone
  // ---------------------------------------------------------------------------

  /** Same pipelines, in the same order, with the same configuration. */
  ghost predicate SameConfigs(ps: seq<Pipe>, qs: seq<Pipe>) {
    |ps| == |qs| && forall a :: 0 <= a < |ps| ==> ps[a].cfg == qs[a].cfg && ps[a].id == qs[a].id
  }

  lemma SameRequirers(ps: seq<Pipe>, qs: seq<Pipe>, cfg: Config)
    requires SameConfigs(ps, qs)
    ensures RequiredByOthers(ps, cfg) == RequiredByOthers(qs, cfg)
  {
    if b :| 0 <= b < |ps| && ps[b].cfg.identity in cfg.requiredBy { assert qs[b].cfg == ps[b].cfg; }
    if b :| 0 <= b < |qs| && qs[b].cfg.identity in cfg.requiredBy { assert ps[b].cfg == qs[b].cfg; }
  }

  lemma {:induction false} PassFrame(w: World, t: nat, ps: seq<Pipe>, i: nat, todo: seq<Option<nat>>,
                                     built: seq<Option<nat>>)
    requires i < |ps|
    ensures var (ps1, t1) := ManageSlots(w, t, ps, i, todo, built);
            && t <= t1 && SameConfigs(ps, ps1) && ps1[i].stopSince == ps[i].stopSince
            && (forall a :: 0 <= a < |ps| && a != i ==> ps1[a] == ps[a])
    decreases todo
  {
    if todo != [] {
      var (kept, tv) := Vacated(w, t, ps[i].id, todo[0]);
      RequirementsAreFull(w, tv, ps, ps[i].cfg.identity);
      var (ps1, slot, t1) := ManageSlot(w, t, ps, i, todo[0]);
      PassFrame(w, t1, ps1, i, todo[1..], built + [slot]);
    }
  }

  lemma ManageFrame(w: World, t: nat, ps: seq<Pipe>, i: nat)
    requires w.Valid() && i < |ps|
    ensures var (ps1, t1, stays) := Manage(w, t, ps, i);
            && t < t1 && SameConfigs(ps, ps1)
            && (forall a :: 0 <= a < |ps| && a != i ==> ps1[a] == ps[a])
            && (ps[i].stopSince.Some? && !ShouldRun(w, t, ps, ps[i].cfg) ==> ps1 == ps)
            && (ShouldRun(w, t, ps, ps[i].cfg) ==> ps1[i].stopSince == ps[i].stopSince)
            && (!ShouldRun(w, t, ps, ps[i].cfg) ==>
                  ps1[i].stopSince == if ps[i].stopSince.Some? then ps[i].stopSince else Some(w.clock(t + 1)))
  {
    var p := ps[i];
    if ShouldRun(w, t, ps, p.cfg) {
      PassFrame(w, t + 1, ps, i, p.slots, []);
      var (ps1, t1) := ManageSlots(w, t + 1, ps, i, p.slots, []);
      FinishedSlots(w, t1, ps1[i].id, ps1[i].slots);
    } else {
      var p1 := if p.stopSince.None? then p.(stopSince := Some(w.clock(t + 1))) else p;
      FinishedSlots(w, t + 2, p1.id, p1.slots);
    }
  }

  lemma {:induction false} SweepFrame(w: World, t: nat, ps: seq<Pipe>, i: nat, kept: seq<bool>)
    requires w.Valid() && i == |kept| <= |ps|
    ensures var (ps1, t1, kept1) := Sweep(w, t, ps, i, kept);
            && t <= t1 && SameConfigs(ps, ps1) && kept <= kept1
            && (forall a :: 0 <= a < i ==> ps1[a] == ps[a])
    decreases |ps| - i
  {
    if i < |ps| {
      ManageFrame(w, t, ps, i);
      var (ps1, t1, stays) := Manage(w, t, ps, i);
      SweepFrame(w, t1, ps1, i + 1, kept + [stays]);
    }
  }

  lemma NotRunningLater(w: World, t: nat, u: nat, ps: seq<Pipe>, qs: seq<Pipe>, cfg: Config)
    requires w.Valid() && t <= u && !ShouldRun(w, t, ps, cfg)
    requires RequiredByOthers(qs, cfg) ==> RequiredByOthers(ps, cfg)
    ensures !ShouldRun(w, u, qs, cfg)
  {
    assert w.keepRunning(u) ==> w.keepRunning(t);
  }

  // ---------------------------------------------------------------------------
  // Stopping is for good
  // ---------------------------------------------------------------------------

  ghost predicate DistinctIds(ps: seq<Pipe>) {
    forall a, b :: 0 <= a < b < |ps| ==> ps[a].id != ps[b].id
  }

  /** A pipeline told to stop has no reason to run any more, and was told so in the past. */
  ghost predicate StopInv(w: World, t: nat, ps: seq<Pipe>) {
    && DistinctIds(ps)
    && forall a :: 0 <= a < |ps| && ps[a].stopSince.Some? ==>
         !ShouldRun(w, t, ps, ps[a].cfg) && ps[a].stopSince.value <= w.clock(t)
  }

  lemma ManageKeepsStopInv(w: World, t: nat, ps: seq<Pipe>, i: nat)
    requires w.Valid() && StopInv(w, t, ps) && i < |ps|
    ensures StopInv(w, Manage(w, t, ps, i).1, Manage(w, t, ps, i).0)
  {
    var (ps1, t1, stays) := Manage(w, t, ps, i);
    ManageFrame(w, t, ps, i);
    forall a | 0 <= a < |ps1| && ps1[a].stopSince.Some?
      ensures !ShouldRun(w, t1, ps1, ps1[a].cfg) && ps1[a].stopSince.value <= w.clock(t1)
    {
      SameRequirers(ps, ps1, ps[a].cfg);
      assert w.clock(t) <= w.clock(t1) && w.clock(t + 1) <= w.clock(t1);
      NotRunningLater(w, t, t1, ps, ps1, ps[a].cfg);
    }
  }

  lemma {:induction false} SweepKeepsStopped(w: World, t: nat, ps: seq<Pipe>, i: nat, kept: seq<bool>)
    requires w.Valid() && StopInv(w, t, ps) && i == |kept| <= |ps|
    ensures var (ps1, t1, _) := Sweep(w, t, ps, i, kept);
            && StopInv(w, t1, ps1)
            && (forall a :: 0 <= a < |ps| && ps[a].stopSince.Some? ==> ps1[a] == ps[a])
            && (forall a :: i <= a < |ps| && !w.keepRunning(t) ==> ps1[a].stopSince.Some?)
    decreases |ps| - i
  {
    if i < |ps| {
      ManageFrame(w, t, ps, i);
      ManageKeepsStopInv(w, t, ps, i);
      var (ps1, t1, stays) := Manage(w, t, ps, i);
      assert w.keepRunning(t1) ==> w.keepRunning(t);
      SweepFrame(w, t1, ps1, i + 1, kept + [stays]);
      SweepKeepsStopped(w, t1, ps1, i + 1, kept + [stays]);
    }
  }

  lemma RoundKeepsStopped(w: World, t: nat, ps: seq<Pipe>)
    requires w.Valid() && StopInv(w, t, ps)
    ensures var (ps1, t1) := Round(w, t, ps);
            && t <= t1 && StopInv(w, t1, ps1)
            && (forall a, b :: 0 <= a < |ps| && 0 <= b < |ps1| && ps[a].stopSince.Some? && ps1[b].id == ps[a].id ==>
              ps1[b] == ps[a])
            && (forall cfg :: RequiredByOthers(ps1, cfg) ==> RequiredByOthers(ps, cfg))
            && (!w.keepRunning(t) ==> forall b :: 0 <= b < |ps1| ==> ps1[b].stopSince.Some?)
  {
    SweepFrame(w, t, ps, 0, []);
    SweepKeepsStopped(w, t, ps, 0, []);
    var (qs, t1, kept) := Sweep(w, t, ps, 0, []);
    var from := SelectPositions(qs, kept);
    var ps1 := Select(qs, kept);
    forall cfg | RequiredByOthers(ps1, cfg) ensures RequiredByOthers(qs, cfg) && RequiredByOthers(ps, cfg) {
      var b :| 0 <= b < |ps1| && ps1[b].cfg.identity in cfg.requiredBy;
      assert qs[from[b]].cfg.identity in cfg.requiredBy;
      SameRequirers(ps, qs, cfg);
    }
    forall a, b | 0 <= a < |ps| && 0 <= b < |ps1| && ps[a].stopSince.Some? && ps1[b].id == ps[a].id
      ensures ps1[b] == ps[a]
    {
      assert ps1[b] == qs[from[b]] && ps[from[b]].id == ps[a].id;
      assert from[b] == a;
    }
    forall b | 0 <= b < |ps1| && ps1[b].stopSince.Some?
      ensures !ShouldRun(w, t1, ps1, ps1[b].cfg) && ps1[b].stopSince.value <= w.clock(t1)
    {
      assert ps1[b] == qs[from[b]];
    }
    forall a, b | 0 <= a < b < |ps1| ensures ps1[a].id != ps1[b].id {
      assert ps1[a] == qs[from[a]] && ps1[b] == qs[from[b]] && from[a] < from[b];
    }
  }

  lemma {:induction false} RunStopInv(w: World, cfgs: seq<Config>, n: nat)
    requires w.Valid()
    ensures StopInv(w, Run(w, cfgs, n).1, Run(w, cfgs, n).0)
  {
    if n > 0 {
      RunStopInv(w, cfgs, n - 1);
      var (ps, t) := Run(w, cfgs, n - 1);
      RoundKeepsStopped(w, t, ps);
    }
  }

  /** Once there is no reason to run a pipeline there never is again. */
  lemma {:induction false} NeverRunsAgain(w: World, cfgs: seq<Config>, m: nat, n: nat, cfg: Config)
    requires w.Valid() && m <= n
    requires !ShouldRun(w, Run(w, cfgs, m).1, Run(w, cfgs, m).0, cfg)
    ensures !ShouldRun(w, Run(w, cfgs, n).1, Run(w, cfgs, n).0, cfg)
    decreases n - m
  {
    if m < n {
      NeverRunsAgain(w, cfgs, m, n - 1, cfg);
      RunStopInv(w, cfgs, n - 1);
      var (ps, t) := Run(w, cfgs, n - 1);
      RoundKeepsStopped(w, t, ps);
      NotRunningLater(w, t, Run(w, cfgs, n).1, ps, Run(w, cfgs, n).0, cfg);
    }
  }

  /** A pipeline told to stop starts nothing and changes nothing in all rounds to come. */
  lemma {:induction false} StoppedForGood(w: World, cfgs: seq<Config>, m: nat, n: nat, p: Pipe, q: Pipe)
    requires w.Valid() && m <= n
    requires p in Run(w, cfgs, m).0 && p.stopSince.Some?
    requires q in Run(w, cfgs, n).0 && q.id == p.id
    ensures q == p
    decreases n - m
  {
    if m == n {
      OnlyOne(w, cfgs, m, p, q);
    } else {
      var (ps, t) := Run(w, cfgs, n - 1);
      var p1 := Predecessor(w, t, ps, q);
      StoppedForGood(w, cfgs, m, n - 1, p, p1);
      RunStopInv(w, cfgs, n - 1);
      StoppedRound(w, t, ps, p1, q);
    }
  }

  lemma OnlyOne(w: World, cfgs: seq<Config>, n: nat, p: Pipe, q: Pipe)
    requires w.Valid() && p in Run(w, cfgs, n).0 && q in Run(w, cfgs, n).0 && p.id == q.id
    ensures p == q
  {
    RunStopInv(w, cfgs, n);
    var ps := Run(w, cfgs, n).0;
    assert DistinctIds(ps);
    var a, b :| 0 <= a < |ps| && 0 <= b < |ps| && ps[a] == p && ps[b] == q;
  }

  lemma StoppedRound(w: World, t: nat, ps: seq<Pipe>, p: Pipe, q: Pipe)
    requires w.Valid() && StopInv(w, t, ps) && p in ps && p.stopSince.Some? && q in Round(w, t, ps).0 && q.id == p.id
    ensures q == p
  {
    RoundKeepsStopped(w, t, ps);
  }

  lemma Predecessor(w: World, t: nat, ps: seq<Pipe>, q: Pipe) returns (p: Pipe)
    requires w.Valid() && q in Round(w, t, ps).0
    ensures p in ps && p.id == q.id
    ensures !ShouldRun(w, t, ps, p.cfg) ==> q == p.(stopSince := q.stopSince)
  {
    var b :| 0 <= b < |Round(w, t, ps).0| && Round(w, t, ps).0[b] == q;
    var a := Origin(w, t, ps, b);
    p := ps[a];
    if !ShouldRun(w, t, ps, p.cfg) { SweepStartsNothing(w, t, ps, 0, [], a); }
  }

  /** A pipeline that should not run starts nothing in a whole sweep. */
  lemma {:induction false} SweepStartsNothing(w: World, t: nat, ps: seq<Pipe>, i: nat, kept: seq<bool>, a: nat)
    requires w.Valid() && i == |kept| <= |ps| && a < |ps| && !ShouldRun(w, t, ps, ps[a].cfg)
    ensures var q := Sweep(w, t, ps, i, kept).0[a];
            q == ps[a].(stopSince := q.stopSince)
    decreases |ps| - i
  {
    if i < |ps| {
      ManageFrame(w, t, ps, i);
      var (ps1, t1, stays) := Manage(w, t, ps, i);
      SameRequirers(ps, ps1, ps[a].cfg);
      NotRunningLater(w, t, t1, ps, ps1, ps[a].cfg);
      assert ps1[a] == ps[a].(stopSince := ps1[a].stopSince);
      SweepStartsNothing(w, t1, ps1, i + 1, kept + [stays], a);
    }
  }

  /**
    From the moment a pipeline should not run any more, the round that first finds
    this out included, none of its instances starts and its slots stay as they are.
   */
  lemma {:induction false} StartsNothingAgain(w: World, cfgs: seq<Config>, m: nat, n: nat, p: Pipe, q: Pipe)
    requires w.Valid() && m <= n
    requires p in Run(w, cfgs, m).0 && !ShouldRun(w, Run(w, cfgs, m).1, Run(w, cfgs, m).0, p.cfg)
    requires q in Run(w, cfgs, n).0 && q.id == p.id
    ensures q == p.(stopSince := q.stopSince)
    decreases n - m
  {
    if m == n {
      OnlyOne(w, cfgs, m, p, q);
    } else {
      var (ps, t) := Run(w, cfgs, n - 1);
      var p1 := Predecessor(w, t, ps, q);
      StartsNothingAgain(w, cfgs, m, n - 1, p, p1);
      NeverRunsAgain(w, cfgs, m, n - 1, p.cfg);
    }
  }

  /** Nothing joins the composition: every survivor was there before the round. */
  lemma Origin(w: World, t: nat, ps: seq<Pipe>, b: nat) returns (a: nat)
    requires w.Valid() && b < |Round(w, t, ps).0|
    ensures a < |ps| && ps[a].id == Round(w, t, ps).0[b].id && ps[a].cfg == Round(w, t, ps).0[b].cfg
    ensures Sweep(w, t, ps, 0, []).0[a] == Round(w, t, ps).0[b]
  {
    SweepFrame(w, t, ps, 0, []);
    var (qs, t1, kept) := Sweep(w, t, ps, 0, []);
    var from := SelectPositions(qs, kept);
    a := from[b];
  }

  // ---------------------------------------------------------------------------
  // Stopping is bounded
  // ---------------------------------------------------------------------------

  ghost predicate AllStoppedBy(ps: seq<Pipe>, time: real) {
    forall a :: 0 <= a < |ps| ==> ps[a].stopSince.Some? && ps[a].stopSince.value <= time
  }

  lemma StoppedBySurvives(w: World, t: nat, ps: seq<Pipe>, time: real)
    requires w.Valid() && StopInv(w, t, ps) && AllStoppedBy(ps, time)
    ensures AllStoppedBy(Round(w, t, ps).0, time)
  {
    RoundKeepsStopped(w, t, ps);
    var qs := Round(w, t, ps).0;
    forall b | 0 <= b < |qs| ensures qs[b].stopSince.Some? && qs[b].stopSince.value <= time {
      var a := Origin(w, t, ps, b);
      assert ps[a].stopSince.Some?;
      assert qs[b] == ps[a];
    }
  }

  lemma InterruptedRound(w: World, cfgs: seq<Config>, n: nat)
    requires w.Valid() && !w.keepRunning(Run(w, cfgs, n).1)
    ensures !w.keepRunning(Run(w, cfgs, n + 1).1)
    ensures AllStoppedBy(Run(w, cfgs, n + 1).0, w.clock(Run(w, cfgs, n + 1).1))
  {
    var (ps, t) := Run(w, cfgs, n);
    RunStopInv(w, cfgs, n);
    RunStopInv(w, cfgs, n + 1);
    RoundKeepsStopped(w, t, ps);
    assert w.keepRunning(Run(w, cfgs, n + 1).1) ==> w.keepRunning(t);
  }

  lemma StoppedByNext(w: World, cfgs: seq<Config>, n: nat, time: real)
    requires w.Valid() && AllStoppedBy(Run(w, cfgs, n).0, time) && !w.keepRunning(Run(w, cfgs, n).1)
    ensures AllStoppedBy(Run(w, cfgs, n + 1).0, time) && !w.keepRunning(Run(w, cfgs, n + 1).1)
  {
    RunStopInv(w, cfgs, n);
    InterruptedRound(w, cfgs, n);
    StoppedBySurvives(w, Run(w, cfgs, n).1, Run(w, cfgs, n).0, time);
  }

  lemma {:induction false} StoppedByLater(w: World, cfgs: seq<Config>, m: nat, n: nat, time: real)
    requires w.Valid() && m <= n && AllStoppedBy(Run(w, cfgs, m).0, time) && !w.keepRunning(Run(w, cfgs, m).1)
    ensures AllStoppedBy(Run(w, cfgs, n).0, time) && !w.keepRunning(Run(w, cfgs, n).1)
    decreases n - m
  {
    if m < n {
      StoppedByNext(w, cfgs, m, time);
      StoppedByLater(w, cfgs, m + 1, n, time);
    }
  }

  lemma StayStopped(w: World, cfgs: seq<Config>, m: nat, n: nat)
    requires w.Valid() && m < n && !w.keepRunning(Run(w, cfgs, m).1)
    ensures AllStoppedBy(Run(w, cfgs, n).0, w.clock(Run(w, cfgs, m + 1).1))
    ensures !w.keepRunning(Run(w, cfgs, n).1)
  {
    InterruptedRound(w, cfgs, m);
    StoppedByLater(w, cfgs, m + 1, n, w.clock(Run(w, cfgs, m + 1).1));
  }

  lemma {:induction false} OverdueSweep(w: World, t: nat, ps: seq<Pipe>, i: nat, kept: seq<bool>, time: real)
    requires w.Valid() && i == |kept| <= |ps| && AllStoppedBy(ps, time)
    requires !w.keepRunning(t) && w.clock(t) - time > GRACE
    ensures forall a :: i <= a < |ps| ==> !Sweep(w, t, ps, i, kept).2[a]
    decreases |ps| - i
  {
    if i < |ps| {
      ManageFrame(w, t, ps, i);
      var (ps1, t1, stays) := Manage(w, t, ps, i);
      assert w.clock(t) <= w.clock(t + 1) && w.clock(t) <= w.clock(t1);
      assert w.keepRunning(t1) ==> w.keepRunning(t);
      assert !stays;
      OverdueSweep(w, t1, ps1, i + 1, kept + [stays], time);
      SweepFrame(w, t1, ps1, i + 1, kept + [stays]);
    }
  }

  lemma {:induction false} NoneKept<T>(xs: seq<T>, kept: seq<bool>)
    requires |xs| == |kept| && forall a :: 0 <= a < |xs| ==> !kept[a]
    ensures Select(xs, kept) == []
  {
    if xs != [] { NoneKept(xs[..|xs| - 1], kept[..|xs| - 1]); }
  }

  /**
    Let round `m` be wholly after the interrupt. Any later round that runs more
    than 30 seconds after the end of that round empties the composition.
   */
  lemma InterruptEmptiesComposition(w: World, cfgs: seq<Config>, m: nat, n: nat)
    requires w.Valid() && m < n
    requires !w.keepRunning(Run(w, cfgs, m).1)
    requires w.clock(Run(w, cfgs, n).1) - w.clock(Run(w, cfgs, m + 1).1) > 30.0
    ensures Run(w, cfgs, n + 1).0 == []
  {
    var (ps, t) := Run(w, cfgs, n);
    StayStopped(w, cfgs, m, n);
    OverdueSweep(w, t, ps, 0, [], w.clock(Run(w, cfgs, m + 1).1));
    var (qs, _, kept) := Sweep(w, t, ps, 0, []);
    NoneKept(qs, kept);
  }

  // ---------------------------------------------------------------------------
  // Leaving
  // ---------------------------------------------------------------------------

  ghost predicate Present(ps: seq<Pipe>, id: nat) {
    exists a :: 0 <= a < |ps| && ps[a].id == id
  }

  lemma KeptIsPresent(ps: seq<Pipe>, kept: seq<bool>, a: nat)
    requires |ps| == |kept| && a < |ps|
    ensures kept[a] ==> Present(Select(ps, kept), ps[a].id)
  {
    var from := SelectPositions(ps, kept);
    if kept[a] {
      var j :| 0 <= j < |from| && from[j] == a;
      assert Select(ps, kept)[j].id == ps[a].id;
    }
  }

  /** Exactly the required instances have been started, and all have finished. */
  ghost predicate Done(w: World, t: nat, p: Pipe) {
    && p.cfg.required == Some(p.counter) && p.started == seq(p.counter, k => k)
    && forall k: nat :: k < p.counter ==> w.status(t, p.id, k) == Finished
  }

  /** Why pipeline `a` of `qs` may be gone at tick `t`: killed after its grace period, or done. */
  ghost predicate MayLeave(w: World, t: nat, qs: seq<Pipe>, a: nat)
    requires a < |qs|
  {
    (!ShouldRun(w, t, qs, qs[a].cfg) && Overdue(w, t, qs[a])) || Done(w, t, qs[a])
  }

  lemma {:induction false} SweepLeavers(w: World, t: nat, ps: seq<Pipe>, i: nat, kept: seq<bool>, a: nat)
    requires w.Valid() && Inv(w, t, ps) && i == |kept| && i <= a < |ps|
    requires !Sweep(w, t, ps, i, kept).2[a]
    ensures MayLeave(w, Sweep(w, t, ps, i, kept).1, Sweep(w, t, ps, i, kept).0, a)
    decreases |ps| - i
  {
    ManageFrame(w, t, ps, i);
    ManageKeepsInv(w, t, ps, i);
    var (ps1, t1, stays) := Manage(w, t, ps, i);
    SweepFrame(w, t1, ps1, i + 1, kept + [stays]);
    if i < a {
      SweepLeavers(w, t1, ps1, i + 1, kept + [stays], a);
    } else {
      var (ps2, t2, kept2) := Sweep(w, t, ps, i, kept);
      assert kept2[a] == stays;
      LeavesOnlyWhenDone(w, t, ps, i);
      assert w.clock(t + 1) <= w.clock(t1) <= w.clock(t2);
      SameRequirers(ps, ps1, ps[i].cfg);
      SameRequirers(ps1, ps2, ps[i].cfg);
      if !ShouldRun(w, t, ps, ps[i].cfg) && Overdue(w, t + 1, ps[i]) {
        NotRunningLater(w, t, t2, ps, ps2, ps[i].cfg);
      } else {
        var p := ps1[i];
        assert p.cfg == ps[i].cfg && p.id == ps[i].id;
        forall k: nat | k < p.counter ensures w.status(t2, p.id, k) == Finished {
          assert w.status(t1, p.id, k) == Finished;
        }
      }
    }
  }

  /** The pipelines at the end of a sweep, before those that leave are taken out. */
  function Swept(w: World, cfgs: seq<Config>, n: nat): seq<Pipe> {
    var (ps, t) := Run(w, cfgs, n);
    Sweep(w, t, ps, 0, []).0
  }

  /** A pipeline missing after a round was killed, or has started exactly its required instances, all finished. */
  lemma LeavesRun(w: World, cfgs: seq<Config>, n: nat, a: nat)
    requires w.Valid() && ValidConfigs(cfgs)
    requires a < |Run(w, cfgs, n).0|
    requires !Present(Run(w, cfgs, n + 1).0, Run(w, cfgs, n).0[a].id)
    ensures a < |Swept(w, cfgs, n)| && Swept(w, cfgs, n)[a].id == Run(w, cfgs, n).0[a].id
    ensures MayLeave(w, Run(w, cfgs, n + 1).1, Swept(w, cfgs, n), a)
  {
    var (ps, t) := Run(w, cfgs, n);
    RunInv(w, cfgs, n);
    SweepFrame(w, t, ps, 0, []);
    var (qs, t1, kept) := Sweep(w, t, ps, 0, []);
    KeptIsPresent(qs, kept, a);
    assert qs[a].id == ps[a].id;
    SweepLeavers(w, t, ps, 0, [], a);
  }
}
