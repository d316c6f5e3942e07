/**
  Which pipelines never start an instance, in any run: those that wait for ever and those that
  nothing is there for.
 */
module StartingProofs {
  import opened Wrappers
  import opened Scheduling
  import opened SchedulingProofs
  import opened StoppingProofs

  // ---------------------------------------------------------------------------
  // Waiting
  // ---------------------------------------------------------------------------

  /** Configured pipeline `x` starts nothing while `y` is there and not active. */
  predicate WaitsFor(cfgs: seq<Config>, x: nat, y: nat) {
    x < |cfgs| && y < |cfgs| && cfgs[x].identity in cfgs[y].requiredBy
  }

  ghost predicate WaitsForMember(cfgs: seq<Config>, s: set<nat>, x: nat) {
    exists y :: y in s && WaitsFor(cfgs, x, y)
  }

  /** Every member waits for a member. */
  ghost predicate BlockedSet(cfgs: seq<Config>, s: set<nat>) {
    forall x {:trigger WaitsForMember(cfgs, s, x)} :: x in s ==> WaitsForMember(cfgs, s, x)
  }

  /** Part of a circle of waiting pipelines, or waiting for one that is, directly or not. */
  ghost predicate Blocked(cfgs: seq<Config>, k: nat) {
    exists s: set<nat> :: k in s && BlockedSet(cfgs, s)
  }

  /** A fixed number of instances to run, or some pipeline that it is there for. */
  ghost predicate HasReason(cfgs: seq<Config>, k: nat) {
    k < |cfgs| && (cfgs[k].required.Some? || exists z :: 0 <= z < |cfgs| && WaitsFor(cfgs, z, k))
  }

  /** In round `n` pipeline `k` has started an instance, in that round or before. */
  ghost predicate Started(w: World, cfgs: seq<Config>, k: nat, n: nat) {
    exists a :: 0 <= a < |Swept(w, cfgs, n)| && Swept(w, cfgs, n)[a].id == k && Swept(w, cfgs, n)[a].counter > 0
  }

  ghost predicate ConfiguredBy(cfgs: seq<Config>, ps: seq<Pipe>) {
    forall a :: 0 <= a < |ps| ==> ps[a].id < |cfgs| && ps[a].cfg == cfgs[ps[a].id]
  }

  lemma {:induction false} RunConfigured(w: World, cfgs: seq<Config>, n: nat)
    requires w.Valid()
    ensures ConfiguredBy(cfgs, Run(w, cfgs, n).0)
  {
    if n > 0 {
      RunConfigured(w, cfgs, n - 1);
      var (ps, t) := Run(w, cfgs, n - 1);
      var ps1 := Run(w, cfgs, n).0;
      forall b | 0 <= b < |ps1| ensures ps1[b].id < |cfgs| && ps1[b].cfg == cfgs[ps1[b].id] {
        var a := Origin(w, t, ps, b);
      }
    }
  }

  // ---------------------------------------------------------------------------
  // Blocked pipelines never start
  // ---------------------------------------------------------------------------

  ghost predicate Idle(p: Pipe) {
    p.counter == 0 && p.slots != [] && p.cfg.Valid() && forall k :: 0 <= k < |p.slots| ==> p.slots[k].None?
  }

  ghost predicate AllIdle(ps: seq<Pipe>, s: set<nat>) {
    forall a :: 0 <= a < |ps| && ps[a].id in s ==> Idle(ps[a])
  }

  /** Pipeline `a` of `ps` waits for a member that is still there. */
  ghost predicate Held(cfgs: seq<Config>, ps: seq<Pipe>, s: set<nat>, a: nat)
    requires a < |ps|
  {
    exists b :: 0 <= b < |ps| && ps[b].id in s && WaitsFor(cfgs, ps[a].id, ps[b].id)
  }

  ghost predicate Stuck(cfgs: seq<Config>, ps: seq<Pipe>, s: set<nat>) {
    && ConfiguredBy(cfgs, ps) && AllIdle(ps, s)
    && forall a {:trigger Held(cfgs, ps, s, a)} :: 0 <= a < |ps| && ps[a].id in s ==> Held(cfgs, ps, s, a)
  }

  lemma BlockedByIdle(w: World, t: nat, cfgs: seq<Config>, ps: seq<Pipe>, s: set<nat>, a: nat)
    requires Stuck(cfgs, ps, s) && a < |ps| && ps[a].id in s
    ensures !RequirementsActive(w, t, ps, ps[a].cfg.identity).0
  {
    RequirementsAreFull(w, t, ps, ps[a].cfg.identity);
    assert Held(cfgs, ps, s, a);
    var b :| 0 <= b < |ps| && ps[b].id in s && WaitsFor(cfgs, ps[a].id, ps[b].id);
    assert Idle(ps[b]) && ps[b].slots[0].None?;
  }

  lemma {:induction false} IdlePass(w: World, t: nat, cfgs: seq<Config>, ps: seq<Pipe>, s: set<nat>, i: nat,
                                    todo: seq<Option<nat>>, built: seq<Option<nat>>)
    requires Stuck(cfgs, ps, s) && i < |ps| && ps[i].id in s
    requires forall k :: 0 <= k < |todo| ==> todo[k].None?
    requires forall k :: 0 <= k < |built| ==> built[k].None?
    requires |built| + |todo| > 0
    ensures AllIdle(ManageSlots(w, t, ps, i, todo, built).0, s)
    decreases todo
  {
    if todo != [] {
      BlockedByIdle(w, t, cfgs, ps, s, i);
      var (ps1, slot, t1) := ManageSlot(w, t, ps, i, todo[0]);
      assert ps1 == ps && slot == None;
      IdlePass(w, t1, cfgs, ps, s, i, todo[1..], built + [slot]);
    }
  }

  lemma HeldKept(cfgs: seq<Config>, ps: seq<Pipe>, qs: seq<Pipe>, s: set<nat>, a: nat)
    requires SameConfigs(ps, qs) && a < |ps| && Held(cfgs, ps, s, a)
    ensures Held(cfgs, qs, s, a)
  {
    var b :| 0 <= b < |ps| && ps[b].id in s && WaitsFor(cfgs, ps[a].id, ps[b].id);
    assert qs[b].id == ps[b].id && qs[a].id == ps[a].id;
  }

  /** An idle member that some pipeline depends on stays unless interrupted. */
  lemma StuckManage(w: World, t: nat, cfgs: seq<Config>, ps: seq<Pipe>, s: set<nat>, i: nat)
    requires w.Valid() && Stuck(cfgs, ps, s) && i < |ps|
    ensures Stuck(cfgs, Manage(w, t, ps, i).0, s)
    ensures ps[i].id in s && w.keepRunning(t) && RequiredByOthers(ps, ps[i].cfg) ==> Manage(w, t, ps, i).2
  {
    ManageFrame(w, t, ps, i);
    var (ps1, t1, stays) := Manage(w, t, ps, i);
    if ps[i].id in s {
      assert Idle(ps[i]);
      IdlePass(w, t + 1, cfgs, ps, s, i, ps[i].slots, []);
      assert Idle(ps1[i]);
    }
    forall a | 0 <= a < |ps1| && ps1[a].id in s ensures Held(cfgs, ps1, s, a) {
      assert ps[a].id == ps1[a].id;
      HeldKept(cfgs, ps, ps1, s, a);
    }
    ConfiguredKept(cfgs, ps, ps1);
  }

  lemma ConfiguredKept(cfgs: seq<Config>, ps: seq<Pipe>, qs: seq<Pipe>)
    requires SameConfigs(ps, qs) && ConfiguredBy(cfgs, ps)
    ensures ConfiguredBy(cfgs, qs)
  {
    forall a | 0 <= a < |qs| ensures qs[a].id < |cfgs| && qs[a].cfg == cfgs[qs[a].id] { assert ps[a].id == qs[a].id; }
  }

  lemma {:induction false} StuckSweep(w: World, t: nat, cfgs: seq<Config>, ps: seq<Pipe>, s: set<nat>, i: nat,
                                      kept: seq<bool>)
    requires w.Valid() && i == |kept| <= |ps| && Stuck(cfgs, ps, s)
    ensures var (ps1, t1, kept1) := Sweep(w, t, ps, i, kept);
            && Stuck(cfgs, ps1, s)
            && (w.keepRunning(t1) ==>
                  forall a :: i <= a < |ps| && ps[a].id in s && RequiredByOthers(ps, ps[a].cfg) ==> kept1[a])
    decreases |ps| - i
  {
    if i < |ps| {
      ManageFrame(w, t, ps, i);
      StuckManage(w, t, cfgs, ps, s, i);
      var (ps1, t1, stays) := Manage(w, t, ps, i);
      StuckSweep(w, t1, cfgs, ps1, s, i + 1, kept + [stays]);
      SweepFrame(w, t1, ps1, i + 1, kept + [stays]);
      var (ps2, t2, kept2) := Sweep(w, t, ps, i, kept);
      assert w.keepRunning(t2) ==> w.keepRunning(t);
      assert kept2[i] == stays;
      forall a | i <= a < |ps| && ps[a].id in s && RequiredByOthers(ps, ps[a].cfg) && w.keepRunning(t2)
        ensures kept2[a] {
        SameRequirers(ps, ps1, ps[a].cfg);
        assert ps1[a].id == ps[a].id && ps1[a].cfg == ps[a].cfg;
      }
    }
  }

  lemma StuckRound(w: World, t: nat, cfgs: seq<Config>, ps: seq<Pipe>, s: set<nat>)
    requires w.Valid() && Stuck(cfgs, ps, s)
    ensures AllIdle(Sweep(w, t, ps, 0, []).0, s)
    ensures var (ps1, t1) := Round(w, t, ps);
            AllIdle(ps1, s) && (w.keepRunning(t1) ==> Stuck(cfgs, ps1, s))
  {
    StuckSweep(w, t, cfgs, ps, s, 0, []);
    SweepFrame(w, t, ps, 0, []);
    var (qs, t1, kept) := Sweep(w, t, ps, 0, []);
    var from := SelectPositions(qs, kept);
    var ps1 := Select(qs, kept);
    forall a | 0 <= a < |ps1|
      ensures ps1[a].id < |cfgs| && ps1[a].cfg == cfgs[ps1[a].id] && (ps1[a].id in s ==> Idle(ps1[a]))
    {
      assert ps1[a] == qs[from[a]];
    }
    if w.keepRunning(t1) {
      forall a | 0 <= a < |ps1| && ps1[a].id in s ensures Held(cfgs, ps1, s, a) {
        assert ps1[a] == qs[from[a]] && Held(cfgs, qs, s, from[a]);
        var b :| 0 <= b < |qs| && qs[b].id in s && WaitsFor(cfgs, qs[from[a]].id, qs[b].id);
        assert ps[b].id == qs[b].id && ps[b].cfg == qs[b].cfg && ps[from[a]].cfg == qs[from[a]].cfg;
        assert ps[from[a]].cfg.identity in ps[b].cfg.requiredBy;
        assert kept[b];
        var j :| 0 <= j < |from| && from[j] == b;
        assert ps1[j] == qs[b];
      }
    }
  }

  lemma {:induction false} InterruptedIdleSweep(w: World, t: nat, ps: seq<Pipe>, s: set<nat>, i: nat, kept: seq<bool>)
    requires w.Valid() && AllIdle(ps, s) && !w.keepRunning(t) && i == |kept| <= |ps|
    ensures AllIdle(Sweep(w, t, ps, i, kept).0, s)
    decreases |ps| - i
  {
    if i < |ps| {
      ManageFrame(w, t, ps, i);
      var (ps1, t1, stays) := Manage(w, t, ps, i);
      assert w.keepRunning(t1) ==> w.keepRunning(t);
      InterruptedIdleSweep(w, t1, ps1, s, i + 1, kept + [stays]);
    }
  }

  /** After an interrupt nothing idle starts. */
  lemma InterruptedIdleRound(w: World, t: nat, ps: seq<Pipe>, s: set<nat>)
    requires w.Valid() && AllIdle(ps, s) && !w.keepRunning(t)
    ensures AllIdle(Sweep(w, t, ps, 0, []).0, s)
    ensures AllIdle(Round(w, t, ps).0, s) && !w.keepRunning(Round(w, t, ps).1)
  {
    InterruptedIdleSweep(w, t, ps, s, 0, []);
    SweepFrame(w, t, ps, 0, []);
    var (qs, t1, kept) := Sweep(w, t, ps, 0, []);
    assert w.keepRunning(t1) ==> w.keepRunning(t);
    var from := SelectPositions(qs, kept);
    var ps1 := Select(qs, kept);
    forall a | 0 <= a < |ps1| && ps1[a].id in s ensures Idle(ps1[a]) { assert ps1[a] == qs[from[a]]; }
  }

  /** Members are idle, and as long as there is no interrupt each is held by another. */
  ghost predicate StuckOrInterrupted(w: World, t: nat, cfgs: seq<Config>, ps: seq<Pipe>, s: set<nat>) {
    AllIdle(ps, s) && (w.keepRunning(t) ==> Stuck(cfgs, ps, s))
  }

  lemma RoundKeepsStuck(w: World, t: nat, cfgs: seq<Config>, ps: seq<Pipe>, s: set<nat>)
    requires w.Valid() && StuckOrInterrupted(w, t, cfgs, ps, s)
    ensures AllIdle(Sweep(w, t, ps, 0, []).0, s)
    ensures StuckOrInterrupted(w, Round(w, t, ps).1, cfgs, Round(w, t, ps).0, s)
  {
    if w.keepRunning(t) {
      StuckRound(w, t, cfgs, ps, s);
    } else {
      InterruptedIdleRound(w, t, ps, s);
    }
  }

  lemma StuckInitially(cfgs: seq<Config>, s: set<nat>)
    requires ValidConfigs(cfgs) && BlockedSet(cfgs, s)
    ensures Stuck(cfgs, Initial(cfgs), s)
  {
    var ps := Initial(cfgs);
    forall a | 0 <= a < |ps| && ps[a].id in s ensures Held(cfgs, ps, s, a) {
      assert WaitsForMember(cfgs, s, a);
      var y :| y in s && WaitsFor(cfgs, a, y);
      assert ps[y].id == y;
    }
  }

  lemma {:induction false} RunStuck(w: World, cfgs: seq<Config>, s: set<nat>, n: nat)
    requires w.Valid() && ValidConfigs(cfgs) && BlockedSet(cfgs, s)
    ensures StuckOrInterrupted(w, Run(w, cfgs, n).1, cfgs, Run(w, cfgs, n).0, s)
  {
    if n == 0 {
      StuckInitially(cfgs, s);
    } else {
      RunStuck(w, cfgs, s, n - 1);
      RoundKeepsStuck(w, Run(w, cfgs, n - 1).1, cfgs, Run(w, cfgs, n - 1).0, s);
    }
  }

  /** Pipelines that wait in a circle, and all that wait for them, start nothing in any world. */
  lemma BlockedNeverStarts(w: World, cfgs: seq<Config>, k: nat, n: nat)
    requires w.Valid() && ValidConfigs(cfgs) && Blocked(cfgs, k)
    ensures !Started(w, cfgs, k, n)
  {
    var s: set<nat> :| k in s && BlockedSet(cfgs, s);
    RunStuck(w, cfgs, s, n);
    RoundKeepsStuck(w, Run(w, cfgs, n).1, cfgs, Run(w, cfgs, n).0, s);
  }

  /** As long as there is no interrupt, no member is without another that it waits for. */
  lemma BlockedWaitForEver(w: World, cfgs: seq<Config>, s: set<nat>, n: nat, a: nat)
    requires w.Valid() && ValidConfigs(cfgs) && BlockedSet(cfgs, s)
    requires w.keepRunning(Run(w, cfgs, n).1)
    requires a < |Run(w, cfgs, n).0| && Run(w, cfgs, n).0[a].id in s
    ensures Idle(Run(w, cfgs, n).0[a]) && Held(cfgs, Run(w, cfgs, n).0, s, a)
  {
    RunStuck(w, cfgs, s, n);
    assert Held(cfgs, Run(w, cfgs, n).0, s, a);
  }

  // ---------------------------------------------------------------------------
  // Pipelines that nothing is there for never start
  // ---------------------------------------------------------------------------

  lemma {:induction false} WithoutReasonNeverStarts(w: World, cfgs: seq<Config>, k: nat, n: nat)
    requires w.Valid() && !HasReason(cfgs, k)
    ensures forall a :: 0 <= a < |Run(w, cfgs, n).0| && Run(w, cfgs, n).0[a].id == k ==>
            Run(w, cfgs, n).0[a].counter == 0
    ensures !Started(w, cfgs, k, n)
  {
    var (ps, t) := Run(w, cfgs, n);
    RunConfigured(w, cfgs, n);
    SweepFrame(w, t, ps, 0, []);
    if n > 0 {
      WithoutReasonNeverStarts(w, cfgs, k, n - 1);
      var (ps0, u) := Run(w, cfgs, n - 1);
      forall b | 0 <= b < |ps| && ps[b].id == k ensures ps[b].counter == 0 {
        var a := Origin(w, u, ps0, b);
        assert Swept(w, cfgs, n - 1)[a] == ps[b];
      }
    }
    forall a | 0 <= a < |ps| && ps[a].id == k ensures Swept(w, cfgs, n)[a].counter == 0 {
      assert !RequiredByOthers(ps, ps[a].cfg) by {
        if b :| 0 <= b < |ps| && ps[b].cfg.identity in ps[a].cfg.requiredBy { assert WaitsFor(cfgs, ps[b].id, k); }
      }
      SweepStartsNothing(w, t, ps, 0, [], a);
    }
    forall a | 0 <= a < |Swept(w, cfgs, n)| && Swept(w, cfgs, n)[a].id == k ensures Swept(w, cfgs, n)[a].counter == 0 {
      assert ps[a].id == k;
    }
  }

  // ---------------------------------------------------------------------------
  // Full sets of instances
  // ---------------------------------------------------------------------------

  ghost predicate Full(slots: seq<Option<nat>>) {
    forall k :: 0 <= k < |slots| ==> slots[k].Some?
  }

  lemma {:induction false} FirstInstances(slots: seq<Option<nat>>, n: nat) returns (held: set<Option<nat>>)
    requires forall k: nat :: k < n ==> Some(k) in slots
    ensures |held| == n && forall x :: x in held <==> x.Some? && x.value < n
  {
    if n == 0 {
      held := {};
    } else {
      held := FirstInstances(slots, n - 1);
      held := held + {Some((n - 1) as nat)};
    }
  }

  lemma {:induction false} FewElements(slots: seq<Option<nat>>, elements: set<Option<nat>>)
    requires forall x :: x in elements ==> x in slots
    ensures |elements| <= |slots|
  {
    if slots == [] {
      assert elements == {};
    } else {
      FewElements(slots[1..], elements - {slots[0]});
    }
  }

  /** As many running instances as slots fill all the slots. */
  lemma CounterFull(w: World, t: nat, p: Pipe)
    requires PipeInv(w, t, p) && p.counter >= |p.slots|
    requires forall k: nat :: k < p.counter ==> w.status(t, p.id, k) != Finished
    ensures Full(p.slots)
  {
    forall k: nat | k < p.counter ensures Some(k) in p.slots { }
    var held := FirstInstances(p.slots, p.counter);
    forall k | 0 <= k < |p.slots| ensures p.slots[k].Some? {
      if p.slots[k].None? { FewElements(p.slots, held + {p.slots[k]}); }
    }
  }

  /** A pipeline with more slots than instances is never full, so nothing that waits for it starts while it is there. */
  lemma TooManySlotsBlock(w: World, cfgs: seq<Config>, n: nat, a: nat, b: nat)
    requires w.Valid() && ValidConfigs(cfgs)
    requires var qs := Swept(w, cfgs, n);
             a < |qs| && b < |qs| && qs[b].cfg.identity in qs[a].cfg.requiredBy
             && qs[a].cfg.required.Some? && qs[a].cfg.required.value < qs[a].cfg.parallel
    ensures Swept(w, cfgs, n)[b].counter == 0
    ensures !Full(Swept(w, cfgs, n)[a].slots)
  {
    var (ps, t) := Run(w, cfgs, n);
    RunInv(w, cfgs, n);
    SweepKeepsInv(w, t, ps, 0, []);
    var p := Swept(w, cfgs, n)[a];
    assert PipeInv(w, Sweep(w, t, ps, 0, []).1, p);
    if Full(p.slots) { FullSlotsCount(p.slots, p.counter); }
  }

  /**
    With its requirements full and active, and none of its instances finished
    yet, a managed pipeline is full exactly when it has instances enough.
   */
  lemma FullIffEnoughInstances(w: World, t: nat, ps: seq<Pipe>, i: nat)
    requires w.Valid() && Inv(w, t, ps) && i < |ps| && ShouldRun(w, t, ps, ps[i].cfg)
    requires var (ps1, t1, _) := Manage(w, t, ps, i);
             && Ready(w, t, t1, ps, ps[i].cfg.identity)
             && forall k: nat :: k < ps1[i].counter ==> w.status(t1, ps[i].id, k) != Finished
    ensures var p := Manage(w, t, ps, i).0[i];
            Full(p.slots) <==> p.cfg.required.None? || p.cfg.parallel <= p.cfg.required.value
  {
    ManageKeepsInv(w, t, ps, i);
    ManageFrame(w, t, ps, i);
    RoundFillsSlots(w, t, ps, i);
    var (ps1, t1, _) := Manage(w, t, ps, i);
    var p := ps1[i];
    assert PipeInv(w, t1, p);
    if Full(p.slots) {
      FullSlotsCount(p.slots, p.counter);
    } else if p.cfg.required.None? || p.cfg.parallel <= p.cfg.required.value {
      var k :| 0 <= k < |p.slots| && p.slots[k].None?;
      assert SlotServed(w, t, ps[i].counter, p, p.slots[k]);
      CounterFull(w, t1, p);
    }
  }
}
