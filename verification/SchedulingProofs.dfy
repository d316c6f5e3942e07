/** What holds over every run of `manage` rounds, whatever the world does. */
module SchedulingProofs {
  import opened Wrappers
  import opened Sequences
  import opened Scheduling

  // ---------------------------------------------------------------------------
  // Invariants
  // ---------------------------------------------------------------------------

  /** No two slots hold the same instance, and all held instances have been started. */
  ghost predicate SlotsSane(slots: seq<Option<nat>>, counter: nat) {
    && (forall k :: 0 <= k < |slots| && slots[k].Some? ==> slots[k].value < counter)
    && (forall j, k :: 0 <= j < k < |slots| && slots[j].Some? && slots[k].Some? ==> slots[j] != slots[k])
  }

  ghost predicate Sane(p: Pipe) {
    && p.cfg.Valid()
    && |p.slots| == p.cfg.parallel
    && p.started == seq(p.counter, k => k)
    && (p.cfg.required.Some? ==> p.counter <= p.cfg.required.value)
    && SlotsSane(p.slots, p.counter)
  }

  /** Every instance ever started is in a slot or has finished. */
  ghost predicate Covered(w: World, t: nat, p: Pipe, slots: seq<Option<nat>>) {
    forall k: nat :: k < p.counter ==> Some(k) in slots || w.status(t, p.id, k) == Finished
  }

  ghost predicate PipeInv(w: World, t: nat, p: Pipe) {
    Sane(p) && Covered(w, t, p, p.slots)
  }

  /** A pipeline has started something only if all it depends on have started a full set of instances. */
  ghost predicate DependencyOrder(ps: seq<Pipe>) {
    forall a, b :: 0 <= a < |ps| && 0 <= b < |ps| && ps[b].cfg.identity in ps[a].cfg.requiredBy && ps[b].counter > 0 ==>
      ps[a].counter >= ps[a].cfg.parallel
  }

  ghost predicate Inv(w: World, t: nat, ps: seq<Pipe>) {
    (forall a :: 0 <= a < |ps| ==> PipeInv(w, t, ps[a])) && DependencyOrder(ps)
  }

  // ---------------------------------------------------------------------------
  // Queries
  // ---------------------------------------------------------------------------

  /** A poll between the ticks found the instance active. */
  ghost predicate SeenActive(w: World, t: nat, u: nat, id: nat, slot: Option<nat>) {
    slot.Some? && exists v: nat :: t <= v < u && w.status(v, id, slot.value) == Active
  }

  /** A slot was found empty, or its instance not active. */
  ghost predicate SeenIdle(w: World, t: nat, u: nat, id: nat, slot: Option<nat>) {
    slot.None? || exists v: nat :: t <= v < u && w.status(v, id, slot.value) != Active
  }

  lemma {:induction false} SlotsVerdict(w: World, t: nat, id: nat, slots: seq<Option<nat>>)
    ensures var (active, u) := SlotsActive(w, t, id, slots);
            && t <= u
            && (active ==> forall k :: 0 <= k < |slots| ==> SeenActive(w, t, u, id, slots[k]))
            && (!active ==> exists k :: 0 <= k < |slots| && SeenIdle(w, t, u, id, slots[k]))
    decreases slots
  {
    if slots != [] && slots[0].Some? && w.status(t, id, slots[0].value) == Active {
      SlotsVerdict(w, t + 1, id, slots[1..]);
      var (active, u) := SlotsActive(w, t + 1, id, slots[1..]);
      if active {
        forall k | 0 <= k < |slots| ensures SeenActive(w, t, u, id, slots[k]) {
          if k > 0 { assert SeenActive(w, t + 1, u, id, slots[1..][k - 1]); }
        }
      } else {
        var k :| 0 <= k < |slots[1..]| && SeenIdle(w, t + 1, u, id, slots[1..][k]);
        assert SeenIdle(w, t, u, id, slots[k + 1]);
      }
    } else if slots != [] {
      assert SeenIdle(w, t, SlotsActive(w, t, id, slots).1, id, slots[0]);
    }
  }

  /** Every slot of every pipeline that `identity` depends on was seen active. */
  ghost predicate AllSeenActive(w: World, t: nat, u: nat, ps: seq<Pipe>, identity: Identity) {
    forall a, k :: 0 <= a < |ps| && identity in ps[a].cfg.requiredBy && 0 <= k < |ps[a].slots| ==>
      SeenActive(w, t, u, ps[a].id, ps[a].slots[k])
  }

  /** Some pipeline that `identity` depends on has no slots or was seen with an idle one. */
  ghost predicate SomeSeenIdle(w: World, t: nat, u: nat, ps: seq<Pipe>, identity: Identity) {
    exists a :: 0 <= a < |ps| && identity in ps[a].cfg.requiredBy &&
      (ps[a].slots == [] || exists k :: 0 <= k < |ps[a].slots| && SeenIdle(w, t, u, ps[a].id, ps[a].slots[k]))
  }

  lemma SeenWithin(w: World, t: nat, t': nat, u': nat, u: nat, id: nat, slot: Option<nat>)
    requires t <= t' <= u' <= u
    ensures SeenActive(w, t', u', id, slot) ==> SeenActive(w, t, u, id, slot)
    ensures SeenIdle(w, t', u', id, slot) ==> SeenIdle(w, t, u, id, slot)
  {
  }

  /** The check says yes only for requirements all seen active, and no only for one seen otherwise. */
  lemma {:induction false} RequirementsVerdict(w: World, t: nat, ps: seq<Pipe>, identity: Identity)
    ensures var (active, u) := RequirementsActive(w, t, ps, identity);
            t <= u && (active ==> AllSeenActive(w, t, u, ps, identity)) &&
              (!active ==> SomeSeenIdle(w, t, u, ps, identity))
    decreases ps
  {
    if ps != [] {
      var (active, u) := RequirementsActive(w, t, ps, identity);
      var needed := identity in ps[0].cfg.requiredBy;
      var t1 := if needed then PipeActive(w, t, ps[0]).1 else t;
      SlotsVerdict(w, t, ps[0].id, ps[0].slots);
      RequirementsVerdict(w, t1, ps[1..], identity);
      if needed && !PipeActive(w, t, ps[0]).0 {
        assert SomeSeenIdle(w, t, u, ps, identity);
      } else if active {
        forall a, k | 0 <= a < |ps| && identity in ps[a].cfg.requiredBy && 0 <= k < |ps[a].slots|
          ensures SeenActive(w, t, u, ps[a].id, ps[a].slots[k])
        {
          if a == 0 {
            SeenWithin(w, t, t, t1, u, ps[0].id, ps[0].slots[k]);
          } else {
            assert ps[a] == ps[1..][a - 1];
            SeenWithin(w, t, t1, u, u, ps[a].id, ps[a].slots[k]);
          }
        }
      } else {
        LaterSeenIdle(w, t, t1, u, ps, identity);
      }
    }
  }

  lemma LaterSeenIdle(w: World, t: nat, t1: nat, u: nat, ps: seq<Pipe>, identity: Identity)
    requires ps != [] && t <= t1 <= u && SomeSeenIdle(w, t1, u, ps[1..], identity)
    ensures SomeSeenIdle(w, t, u, ps, identity)
  {
    var rest := ps[1..];
    var a :| 0 <= a < |rest| && identity in rest[a].cfg.requiredBy &&
      (rest[a].slots == [] || exists k :: 0 <= k < |rest[a].slots| && SeenIdle(w, t1, u, rest[a].id, rest[a].slots[k]));
    assert ps[a + 1] == rest[a];
    if k :| 0 <= k < |rest[a].slots| && SeenIdle(w, t1, u, rest[a].id, rest[a].slots[k]) {
      SeenWithin(w, t, t1, u, u, rest[a].id, rest[a].slots[k]);
      assert SeenIdle(w, t, u, ps[a + 1].id, ps[a + 1].slots[k]);
    }
  }

  lemma RequirementsAreFull(w: World, t: nat, ps: seq<Pipe>, identity: Identity)
    ensures t <= RequirementsActive(w, t, ps, identity).1
    ensures RequirementsActive(w, t, ps, identity).0 ==>
      forall a, k :: 0 <= a < |ps| && identity in ps[a].cfg.requiredBy && 0 <= k < |ps[a].slots| ==>
        ps[a].slots[k].Some?
  {
    RequirementsVerdict(w, t, ps, identity);
    var (active, u) := RequirementsActive(w, t, ps, identity);
    if active {
      forall a, k | 0 <= a < |ps| && identity in ps[a].cfg.requiredBy && 0 <= k < |ps[a].slots|
        ensures ps[a].slots[k].Some?
      {
        assert SeenActive(w, t, u, ps[a].id, ps[a].slots[k]);
      }
    }
  }

  lemma {:induction false} FinishedSlots(w: World, t: nat, id: nat, slots: seq<Option<nat>>)
    requires w.Valid()
    ensures t <= SlotsFinished(w, t, id, slots).1
    ensures SlotsFinished(w, t, id, slots).0 ==>
      forall k :: 0 <= k < |slots| && slots[k].Some? ==>
        w.status(SlotsFinished(w, t, id, slots).1, id, slots[k].value) == Finished
    decreases slots
  {
    if slots != [] {
      FinishedSlots(w, if slots[0].None? then t else t + 1, id, slots[1..]);
      assert forall k :: 1 <= k < |slots| ==> slots[k] == slots[1..][k - 1];
    }
  }

  /** Full slots hold as many different indices as there are slots. */
  lemma FullSlotsCount(slots: seq<Option<nat>>, counter: nat)
    requires SlotsSane(slots, counter)
    requires forall k :: 0 <= k < |slots| ==> slots[k].Some?
    ensures |slots| <= counter
  {
    Pigeonhole(seq(|slots|, k requires 0 <= k < |slots| => slots[k].value), counter);
  }

  // ---------------------------------------------------------------------------
  // One slot, one pipeline
  // ---------------------------------------------------------------------------

  /** The invariant while the slots of pipeline `i` are gone through. */
  ghost predicate PassInv(w: World, t: nat, ps: seq<Pipe>, i: nat, slots: seq<Option<nat>>) {
    && i < |ps|
    && (forall a :: 0 <= a < |ps| && a != i ==> PipeInv(w, t, ps[a]))
    && Sane(ps[i]) && |slots| == ps[i].cfg.parallel
    && SlotsSane(slots, ps[i].counter)
    && Covered(w, t, ps[i], slots)
    && DependencyOrder(ps)
  }

  lemma StartKeepsOrder(w: World, t: nat, ps: seq<Pipe>, i: nat)
    requires i < |ps| && DependencyOrder(ps)
    requires forall a :: 0 <= a < |ps| ==> Sane(ps[a])
    requires RequirementsActive(w, t, ps, ps[i].cfg.identity).0
    ensures DependencyOrder(ps[i := StartInstance(ps[i])])
  {
    var ps1 := ps[i := StartInstance(ps[i])];
    RequirementsAreFull(w, t, ps, ps[i].cfg.identity);
    forall a, b | 0 <= a < |ps1| && 0 <= b < |ps1| && ps1[b].cfg.identity in ps1[a].cfg.requiredBy && ps1[b].counter > 0
      ensures ps1[a].counter >= ps1[a].cfg.parallel
    {
      assert ps1[a].cfg == ps[a].cfg && ps1[b].cfg == ps[b].cfg && ps1[a].counter >= ps[a].counter;
      if b == i {
        assert forall k :: 0 <= k < |ps[a].slots| ==> ps[a].slots[k].Some?;
        FullSlotsCount(ps[a].slots, ps[a].counter);
      } else {
        assert ps[b].counter > 0;
      }
    }
  }

  lemma SlotKeepsInv(w: World, t: nat, ps: seq<Pipe>, i: nat, slots: seq<Option<nat>>, k: nat)
    requires w.Valid() && PassInv(w, t, ps, i, slots) && k < |slots|
    ensures var (ps1, slot, t1) := ManageSlot(w, t, ps, i, slots[k]);
            t <= t1 && PassInv(w, t1, ps1, i, slots[k := slot])
  {
    var (ps1, slot, t1) := ManageSlot(w, t, ps, i, slots[k]);
    var p := ps[i];
    var (kept, tv) := Vacated(w, t, p.id, slots[k]);
    RequirementsAreFull(w, tv, ps, p.cfg.identity);
    var slots1 := slots[k := slot];
    if slot.Some? && kept.None? {
      StartKeepsOrder(w, tv, ps, i);
      assert p.started + [p.counter] == seq(p.counter + 1, j => j);
    }
    forall j: nat | j < ps1[i].counter
      ensures Some(j) in slots1 || w.status(t1, p.id, j) == Finished
    {
      if j == p.counter {
        assert slots1[k] == Some(j);
      } else if Some(j) in slots {
        var m :| 0 <= m < |slots| && slots[m] == Some(j);
        assert m != k ==> slots1[m] == Some(j);
        assert m == k && kept.Some? ==> slots1[k] == Some(j);
      }
    }
    assert Covered(w, t1, ps1[i], slots1);
  }

  lemma {:induction false} PassKeepsInv(w: World, t: nat, ps: seq<Pipe>, i: nat, todo: seq<Option<nat>>,
                                        built: seq<Option<nat>>)
    requires w.Valid() && PassInv(w, t, ps, i, built + todo)
    ensures var (ps1, t1) := ManageSlots(w, t, ps, i, todo, built);
            t <= t1 && Inv(w, t1, ps1)
    decreases todo
  {
    if todo == [] {
      assert built + todo == built;
    } else {
      var slots := built + todo;
      var (ps1, slot, t1) := ManageSlot(w, t, ps, i, todo[0]);
      SlotKeepsInv(w, t, ps, i, slots, |built|);
      assert slots[|built| := slot] == built + [slot] + todo[1..];
      PassKeepsInv(w, t1, ps1, i, todo[1..], built + [slot]);
    }
  }

  lemma InvLater(w: World, t: nat, u: nat, ps: seq<Pipe>)
    requires w.Valid() && t <= u && Inv(w, t, ps)
    ensures Inv(w, u, ps)
  {
    forall a | 0 <= a < |ps| ensures PipeInv(w, u, ps[a]) { assert PipeInv(w, t, ps[a]); }
  }

  lemma StopKeepsInv(w: World, t: nat, ps: seq<Pipe>, i: nat)
    requires w.Valid() && Inv(w, t, ps) && i < |ps|
    requires !ShouldRun(w, t, ps, ps[i].cfg)
    ensures var (ps1, t1, stays) := Manage(w, t, ps, i);
            t < t1 && Inv(w, t1, ps1)
  {
    var p := ps[i];
    if Overdue(w, t + 1, p) {
      InvLater(w, t, t + 2, ps);
    } else {
      var p1 := if p.stopSince.None? then p.(stopSince := Some(w.clock(t + 1))) else p;
      FinishedSlots(w, t + 2, p1.id, p1.slots);
      SameSlotsKeepInv(w, t, ps, i, p1);
      InvLater(w, t, PipeFinished(w, t + 2, p1).1, ps[i := p1]);
    }
  }

  lemma SameSlotsKeepInv(w: World, t: nat, ps: seq<Pipe>, i: nat, p: Pipe)
    requires Inv(w, t, ps) && i < |ps|
    requires p == ps[i].(stopSince := p.stopSince)
    ensures Inv(w, t, ps[i := p])
  {
    var ps1 := ps[i := p];
    assert PipeInv(w, t, p) by { assert PipeInv(w, t, ps[i]); }
    forall a, b | 0 <= a < |ps1| && 0 <= b < |ps1| && ps1[b].cfg.identity in ps1[a].cfg.requiredBy && ps1[b].counter > 0
      ensures ps1[a].counter >= ps1[a].cfg.parallel
    {
      assert ps[b].cfg.identity in ps[a].cfg.requiredBy && ps[b].counter > 0;
    }
  }

  lemma ManageKeepsInv(w: World, t: nat, ps: seq<Pipe>, i: nat)
    requires w.Valid() && Inv(w, t, ps) && i < |ps|
    ensures var (ps1, t1, stays) := Manage(w, t, ps, i);
            t < t1 && Inv(w, t1, ps1)
  {
    var p := ps[i];
    if ShouldRun(w, t, ps, p.cfg) {
      InvLater(w, t, t + 1, ps);
      assert [] + p.slots == p.slots;
      PassKeepsInv(w, t + 1, ps, i, p.slots, []);
      var (ps1, t1) := ManageSlots(w, t + 1, ps, i, p.slots, []);
      FinishedSlots(w, t1, ps1[i].id, ps1[i].slots);
      InvLater(w, t1, PipeFinished(w, t1, ps1[i]).1, ps1);
    } else {
      StopKeepsInv(w, t, ps, i);
    }
  }

  /** The kill branch is the only way out for a pipeline that has not started and finished all it should. */
  lemma LeavesOnlyWhenDone(w: World, t: nat, ps: seq<Pipe>, i: nat)
    requires w.Valid() && Inv(w, t, ps) && i < |ps|
    requires !Manage(w, t, ps, i).2
    ensures var (ps1, t1, _) := Manage(w, t, ps, i); var p := ps1[i];
            || (!ShouldRun(w, t, ps, ps[i].cfg) && Overdue(w, t + 1, ps[i]))
            || (&& p.cfg.required == Some(p.counter) && p.started == seq(p.counter, k => k)
                && forall k: nat :: k < p.counter ==> w.status(t1, p.id, k) == Finished)
  {
    ManageKeepsInv(w, t, ps, i);
    var (ps1, t1, _) := Manage(w, t, ps, i);
    var p := ps1[i];
    assert PipeInv(w, t1, p);
    if ShouldRun(w, t, ps, ps[i].cfg) || !Overdue(w, t + 1, ps[i]) {
      var t0 := if ShouldRun(w, t, ps, ps[i].cfg) then ManageSlots(w, t + 1, ps, i, ps[i].slots, []).1 else t + 2;
      assert !NeedsNewInstance(p);
      FinishedSlots(w, t0, p.id, p.slots);
      assert t1 == SlotsFinished(w, t0, p.id, p.slots).1;
      forall k: nat | k < p.counter ensures w.status(t1, p.id, k) == Finished {
        if Some(k) in p.slots {
          var m :| 0 <= m < |p.slots| && p.slots[m] == Some(k);
        }
      }
    }
  }

  // ---------------------------------------------------------------------------
  // Rounds and runs
  // ---------------------------------------------------------------------------

  lemma {:induction false} SweepKeepsInv(w: World, t: nat, ps: seq<Pipe>, i: nat, kept: seq<bool>)
    requires w.Valid() && Inv(w, t, ps) && i == |kept| <= |ps|
    ensures var (ps1, t1, _) := Sweep(w, t, ps, i, kept);
            t <= t1 && Inv(w, t1, ps1)
    decreases |ps| - i
  {
    if i < |ps| {
      ManageKeepsInv(w, t, ps, i);
      var (ps1, t1, stays) := Manage(w, t, ps, i);
      SweepKeepsInv(w, t1, ps1, i + 1, kept + [stays]);
    }
  }

  /** Which positions the survivors of a round come from. */
  lemma {:induction false} SelectPositions<T>(xs: seq<T>, kept: seq<bool>) returns (from: seq<nat>)
    requires |xs| == |kept|
    ensures |from| == |Select(xs, kept)|
    ensures forall j :: 0 <= j < |from| ==> from[j] < |xs| && kept[from[j]] && Select(xs, kept)[j] == xs[from[j]]
    ensures forall j, k :: 0 <= j < k < |from| ==> from[j] < from[k]
    ensures forall m: nat :: m < |xs| && kept[m] ==> m in from
  {
    if xs == [] {
      from := [];
    } else {
      var n := |xs| - 1;
      from := SelectPositions(xs[..n], kept[..n]);
      assert forall m: nat :: m < n && kept[m] ==> m in from by {
        forall m: nat | m < n && kept[m] ensures m in from { assert kept[..n][m]; }
      }
      if kept[n] { from := from + [n]; }
    }
  }

  lemma RoundKeepsInv(w: World, t: nat, ps: seq<Pipe>)
    requires w.Valid() && Inv(w, t, ps)
    ensures var (ps1, t1) := Round(w, t, ps);
            t <= t1 && Inv(w, t1, ps1)
  {
    SweepKeepsInv(w, t, ps, 0, []);
    var (ps1, t1, kept) := Sweep(w, t, ps, 0, []);
    var from := SelectPositions(ps1, kept);
    var ps2 := Select(ps1, kept);
    forall a | 0 <= a < |ps2| ensures PipeInv(w, t1, ps2[a]) { assert ps2[a] == ps1[from[a]]; }
    forall a, b | 0 <= a < |ps2| && 0 <= b < |ps2| && ps2[b].cfg.identity in ps2[a].cfg.requiredBy && ps2[b].counter > 0
      ensures ps2[a].counter >= ps2[a].cfg.parallel
    {
      assert ps2[a] == ps1[from[a]] && ps2[b] == ps1[from[b]];
    }
  }

  ghost predicate ValidConfigs(cfgs: seq<Config>) {
    forall i :: 0 <= i < |cfgs| ==> cfgs[i].Valid()
  }

  /** Slots, started indices and dependency order, after any number of rounds in any world. */
  lemma {:induction false} RunInv(w: World, cfgs: seq<Config>, n: nat)
    requires w.Valid() && ValidConfigs(cfgs)
    ensures var (ps, t) := Run(w, cfgs, n);
            Inv(w, t, ps)
  {
    if n > 0 {
      RunInv(w, cfgs, n - 1);
      var (ps, t) := Run(w, cfgs, n - 1);
      RoundKeepsInv(w, t, ps);
    }
  }

  // ---------------------------------------------------------------------------
  // Progress
  // ---------------------------------------------------------------------------

  /** A full slot whose instance is active at every tick from `t` to before `u`. */
  ghost predicate Steady(w: World, t: nat, u: nat, id: nat, slot: Option<nat>) {
    slot.Some? && forall v: nat :: t <= v < u ==> w.status(v, id, slot.value) == Active
  }

  /** All that `identity` depends on is full and active from `t` to before `u`. */
  ghost predicate Ready(w: World, t: nat, u: nat, ps: seq<Pipe>, identity: Identity) {
    forall a :: 0 <= a < |ps| && identity in ps[a].cfg.requiredBy ==>
      ps[a].slots != [] && forall k :: 0 <= k < |ps[a].slots| ==> Steady(w, t, u, ps[a].id, ps[a].slots[k])
  }

  /** Requirements that are active all the time are found active. */
  lemma ReadyIsActive(w: World, t: nat, t': nat, u: nat, ps: seq<Pipe>, identity: Identity)
    requires t <= t' && Ready(w, t, u, ps, identity) && RequirementsActive(w, t', ps, identity).1 <= u
    ensures RequirementsActive(w, t', ps, identity).0
  {
    RequirementsVerdict(w, t', ps, identity);
    var u' := RequirementsActive(w, t', ps, identity).1;
    forall a, k | 0 <= a < |ps| && identity in ps[a].cfg.requiredBy && 0 <= k < |ps[a].slots|
      ensures !SeenIdle(w, t', u', ps[a].id, ps[a].slots[k])
    {
      SteadyIsNotIdle(w, t, t', u', u, ps[a].id, ps[a].slots[k]);
    }
  }

  lemma SteadyIsNotIdle(w: World, t: nat, t': nat, u': nat, u: nat, id: nat, slot: Option<nat>)
    requires t <= t' <= u' <= u
    ensures Steady(w, t, u, id, slot) ==> !SeenIdle(w, t', u', id, slot)
  {
  }

  /** A managed slot does not keep a finished instance, and is left empty only when no more are needed. */
  ghost predicate SlotServed(w: World, t: nat, counter: nat, p: Pipe, slot: Option<nat>) {
    && (slot.Some? && slot.value < counter ==> w.status(t, p.id, slot.value) != Finished)
    && (slot.None? ==> !NeedsNewInstance(p))
  }

  lemma SlotTicks(w: World, t: nat, ps: seq<Pipe>, i: nat, slot: Option<nat>)
    requires i < |ps|
    ensures t <= ManageSlot(w, t, ps, i, slot).2
  {
    RequirementsVerdict(w, Vacated(w, t, ps[i].id, slot).1, ps, ps[i].cfg.identity);
  }

  lemma {:induction false} PassTicks(w: World, t: nat, ps: seq<Pipe>, i: nat, todo: seq<Option<nat>>,
                                     built: seq<Option<nat>>)
    requires i < |ps|
    ensures t <= ManageSlots(w, t, ps, i, todo, built).1
    decreases todo
  {
    if todo != [] {
      SlotTicks(w, t, ps, i, todo[0]);
      var (ps1, slot, t1) := ManageSlot(w, t, ps, i, todo[0]);
      PassTicks(w, t1, ps1, i, todo[1..], built + [slot]);
    }
  }

  /** Pipeline `i` only gains instances, so what it depends on is as ready as before. */
  ghost predicate Gained(ps: seq<Pipe>, ps1: seq<Pipe>, i: nat)
    requires i < |ps|
  {
    && |ps1| == |ps| && ps1[i].counter >= ps[i].counter
    && ps1 == ps[i := ps[i].(counter := ps1[i].counter, started := ps1[i].started)]
  }

  lemma ReadyAfter(w: World, t: nat, u: nat, ps: seq<Pipe>, ps1: seq<Pipe>, i: nat)
    requires i < |ps| && Gained(ps, ps1, i) && Ready(w, t, u, ps, ps[i].cfg.identity)
    ensures Ready(w, t, u, ps1, ps1[i].cfg.identity)
  {
    forall a | 0 <= a < |ps1| ensures ps1[a].slots == ps[a].slots && ps1[a].cfg == ps[a].cfg && ps1[a].id == ps[a].id {
    }
  }

  lemma SlotIsServed(w: World, t0: nat, u: nat, t: nat, ps: seq<Pipe>, i: nat, slot: Option<nat>)
    requires i < |ps| && t0 <= t && Ready(w, t0, u, ps, ps[i].cfg.identity)
    requires ManageSlot(w, t, ps, i, slot).2 <= u
    ensures var (ps1, slot1, t1) := ManageSlot(w, t, ps, i, slot);
            t <= t1 && Gained(ps, ps1, i) && SlotServed(w, t, ps[i].counter, ps1[i], slot1)
  {
    SlotTicks(w, t, ps, i, slot);
    var (kept, t1) := Vacated(w, t, ps[i].id, slot);
    if kept.None? && NeedsNewInstance(ps[i]) { ReadyIsActive(w, t0, t1, u, ps, ps[i].cfg.identity); }
  }

  ghost predicate SlotsServed(w: World, t: nat, counter: nat, p: Pipe, slots: seq<Option<nat>>) {
    forall k :: 0 <= k < |slots| ==> SlotServed(w, t, counter, p, slots[k])
  }

  /** What is served at `t1` counts as served since `t0`, and stays so as more instances are started. */
  lemma ServedSince(w: World, t0: nat, t1: nat, counter: nat, p: Pipe, p1: Pipe, slots: seq<Option<nat>>,
                    slot: Option<nat>)
    requires w.Valid() && t0 <= t1 && p1.id == p.id && p1.cfg == p.cfg && counter <= p.counter <= p1.counter
    requires SlotsServed(w, t0, counter, p, slots) && SlotServed(w, t1, p.counter, p1, slot)
    ensures SlotsServed(w, t0, counter, p1, slots + [slot])
  {
  }

  lemma {:induction false} PassServes(w: World, t0: nat, u: nat, t: nat, ps: seq<Pipe>, i: nat,
                                      todo: seq<Option<nat>>, built: seq<Option<nat>>, counter: nat)
    requires w.Valid() && t0 <= t && i < |ps| && Ready(w, t0, u, ps, ps[i].cfg.identity) && counter <= ps[i].counter
    requires ManageSlots(w, t, ps, i, todo, built).1 <= u
    requires SlotsServed(w, t0, counter, ps[i], built)
    ensures var p := ManageSlots(w, t, ps, i, todo, built).0[i];
            |p.slots| == |built| + |todo| && p.counter >= counter && SlotsServed(w, t0, counter, p, p.slots)
    decreases todo
  {
    if todo == [] {
      var p := ManageSlots(w, t, ps, i, todo, built).0[i];
      assert p == ps[i].(slots := built);
      forall k | 0 <= k < |p.slots| ensures SlotServed(w, t0, counter, p, p.slots[k]) {
        assert SlotServed(w, t0, counter, ps[i], built[k]);
      }
    } else {
      var (ps1, slot, t1) := ManageSlot(w, t, ps, i, todo[0]);
      PassTicks(w, t1, ps1, i, todo[1..], built + [slot]);
      SlotIsServed(w, t0, u, t, ps, i, todo[0]);
      ReadyAfter(w, t0, u, ps, ps1, i);
      ServedSince(w, t0, t, counter, ps[i], ps1[i], built, slot);
      PassServes(w, t0, u, t1, ps1, i, todo[1..], built + [slot], counter);
    }
  }

  /**
    One round of a running pipeline whose requirements are full and active all
    the while: every instance that had finished before is out of its slot, and
    every slot is filled as long as instances are needed.
   */
  lemma RoundFillsSlots(w: World, t: nat, ps: seq<Pipe>, i: nat)
    requires w.Valid() && i < |ps| && ShouldRun(w, t, ps, ps[i].cfg)
    requires Ready(w, t, Manage(w, t, ps, i).1, ps, ps[i].cfg.identity)
    ensures var p := Manage(w, t, ps, i).0[i];
            |p.slots| == |ps[i].slots| && p.counter >= ps[i].counter && SlotsServed(w, t, ps[i].counter, p, p.slots)
  {
    var (ps1, t1) := ManageSlots(w, t + 1, ps, i, ps[i].slots, []);
    FinishedTicks(w, t1, ps1[i].id, ps1[i].slots);
    PassServes(w, t, Manage(w, t, ps, i).1, t + 1, ps, i, ps[i].slots, [], ps[i].counter);
    assert Manage(w, t, ps, i).0 == ps1;
  }

  lemma {:induction false} FinishedTicks(w: World, t: nat, id: nat, slots: seq<Option<nat>>)
    ensures t <= SlotsFinished(w, t, id, slots).1
    decreases slots
  {
    if slots != [] && (slots[0].None? || w.status(t, id, slots[0].value) == Finished) {
      FinishedTicks(w, if slots[0].None? then t else t + 1, id, slots[1..]);
    }
  }

  lemma {:induction false} AllFinished(w: World, t: nat, id: nat, slots: seq<Option<nat>>)
    requires w.Valid()
    requires forall k :: 0 <= k < |slots| && slots[k].Some? ==> w.status(t, id, slots[k].value) == Finished
    ensures SlotsFinished(w, t, id, slots).0
    decreases slots
  {
    if slots != [] {
      var u := if slots[0].None? then t else t + 1;
      forall k | 0 <= k < |slots[1..]| && slots[1..][k].Some? ensures w.status(u, id, slots[1..][k].value) == Finished {
        assert w.status(t, id, slots[k + 1].value) == Finished;
      }
      AllFinished(w, u, id, slots[1..]);
    }
  }

  /** A pipeline that has started all it should, all finished, leaves when it is next managed. */
  lemma DoneLeaves(w: World, t: nat, ps: seq<Pipe>, i: nat)
    requires w.Valid() && Inv(w, t, ps) && i < |ps|
    requires ps[i].cfg.required == Some(ps[i].counter)
    requires forall k: nat :: k < ps[i].counter ==> w.status(t, ps[i].id, k) == Finished
    ensures !Manage(w, t, ps, i).2
  {
    ManageKeepsInv(w, t, ps, i);
    var p := ps[i];
    assert PipeInv(w, t, p);
    if ShouldRun(w, t, ps, p.cfg) {
      forall k | 0 <= k < |p.slots| && p.slots[k].Some? ensures w.status(t + 1, p.id, p.slots[k].value) == Finished {
        assert w.status(t, p.id, p.slots[k].value) == Finished;
      }
      DonePass(w, t + 1, ps, i, p.slots, []);
      var (ps1, t1) := ManageSlots(w, t + 1, ps, i, p.slots, []);
      AllFinished(w, t1, p.id, ps1[i].slots);
    } else if !Overdue(w, t + 1, p) {
      forall k | 0 <= k < |p.slots| && p.slots[k].Some? ensures w.status(t + 2, p.id, p.slots[k].value) == Finished {
        assert w.status(t, p.id, p.slots[k].value) == Finished;
      }
      AllFinished(w, t + 2, p.id, p.slots);
    }
  }

  /** Without need for more, finished instances only leave their slots. */
  lemma {:induction false} DonePass(w: World, t: nat, ps: seq<Pipe>, i: nat, todo: seq<Option<nat>>,
                                    built: seq<Option<nat>>)
    requires w.Valid() && i < |ps| && !NeedsNewInstance(ps[i])
    requires forall k :: 0 <= k < |todo| && todo[k].Some? ==> w.status(t, ps[i].id, todo[k].value) == Finished
    requires forall k :: 0 <= k < |built| ==> built[k].None?
    ensures var p := ManageSlots(w, t, ps, i, todo, built).0[i];
            p.id == ps[i].id && !NeedsNewInstance(p) && forall k :: 0 <= k < |p.slots| ==> p.slots[k].None?
    decreases todo
  {
    if todo != [] {
      var (ps1, slot, t1) := ManageSlot(w, t, ps, i, todo[0]);
      assert ps1 == ps && slot == None && t <= t1;
      forall k | 0 <= k < |todo[1..]| && todo[1..][k].Some?
        ensures w.status(t1, ps[i].id, todo[1..][k].value) == Finished {
        assert w.status(t, ps[i].id, todo[k + 1].value) == Finished;
      }
      DonePass(w, t1, ps, i, todo[1..], built + [slot]);
    }
  }
}
