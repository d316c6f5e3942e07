/** A pipeline is killed only after its grace period of 30 seconds, and starts only when its requirements are active. */
module KillingProofs {
  import opened Wrappers
  import opened Scheduling
  import opened SchedulingProofs
  import opened StoppingProofs

  // ---------------------------------------------------------------------------
  // Unfinished instances
  // ---------------------------------------------------------------------------

  ghost predicate Holds(p: Pipe, v: nat) { Some(v) in p.slots }

  /** Slots with an instance that is not finished at the end of the check do not count as finished. */
  lemma UnfinishedSlots(w: World, t: nat, u: nat, id: nat, slots: seq<Option<nat>>, v: nat)
    requires w.Valid() && Some(v) in slots && w.status(u, id, v) != Finished && SlotsFinished(w, t, id, slots).1 <= u
    ensures !SlotsFinished(w, t, id, slots).0
  {
    FinishedSlots(w, t, id, slots);
    var k :| 0 <= k < |slots| && slots[k] == Some(v);
  }

  /** An instance that is not finished when the pass is over has kept its slot. */
  lemma {:induction false} PassHolds(w: World, t: nat, ps: seq<Pipe>, i: nat, todo: seq<Option<nat>>,
                                     built: seq<Option<nat>>, v: nat)
    requires w.Valid() && i < |ps| && (Some(v) in todo || Some(v) in built)
    requires w.status(ManageSlots(w, t, ps, i, todo, built).1, ps[i].id, v) != Finished
    ensures Holds(ManageSlots(w, t, ps, i, todo, built).0[i], v)
    decreases todo
  {
    if todo != [] {
      var (ps1, slot, t1) := ManageSlot(w, t, ps, i, todo[0]);
      SlotTicks(w, t, ps, i, todo[0]);
      PassTicks(w, t1, ps1, i, todo[1..], built + [slot]);
      if todo[0] == Some(v) {
        assert w.status(t, ps[i].id, v) != Finished;
        assert (built + [slot])[|built|] == Some(v);
      } else if Some(v) in built {
        var k :| 0 <= k < |built| && built[k] == Some(v);
        assert (built + [slot])[k] == Some(v);
      } else {
        assert todo == [todo[0]] + todo[1..];
      }
      PassHolds(w, t1, ps1, i, todo[1..], built + [slot], v);
    }
  }

  /** Told to stop more than 30 seconds before. */
  ghost predicate Late(w: World, t: nat, p: Pipe) {
    p.stopSince.Some? && w.clock(t) - p.stopSince.value > 30.0
  }

  /**
    A pipeline with an unfinished instance keeps it through its turn, and is
    dropped exactly when it should not run and was told to stop more than 30
    seconds before.
   */
  lemma UnfinishedTurn(w: World, t: nat, ps: seq<Pipe>, i: nat, v: nat)
    requires w.Valid() && i < |ps| && Holds(ps[i], v)
    requires w.status(Manage(w, t, ps, i).1, ps[i].id, v) != Finished
    ensures var (ps1, t1, stays) := Manage(w, t, ps, i);
            && t + 1 < t1 && Holds(ps1[i], v) && ps1[i].id == ps[i].id
            && (stays <==> !(!ShouldRun(w, t, ps, ps[i].cfg) && Late(w, t + 1, ps[i])))
  {
    var p := ps[i];
    var (ps1, t1, stays) := Manage(w, t, ps, i);
    ManageFrame(w, t, ps, i);
    if ShouldRun(w, t, ps, p.cfg) {
      var (qs, u) := ManageSlots(w, t + 1, ps, i, p.slots, []);
      PassTicks(w, t + 1, ps, i, p.slots, []);
      FinishedTicks(w, u, qs[i].id, qs[i].slots);
      PassHolds(w, t + 1, ps, i, p.slots, [], v);
      UnfinishedSlots(w, u, t1, p.id, qs[i].slots, v);
      TicksPass(w, u, t1, p.id, qs[i].slots, v);
    } else if !Late(w, t + 1, p) {
      FinishedTicks(w, t + 2, p.id, p.slots);
      UnfinishedSlots(w, t + 2, t1, p.id, p.slots, v);
    }
  }

  /** Finding out that an instance is unfinished takes a look at it. */
  lemma {:induction false} TicksPass(w: World, t: nat, u: nat, id: nat, slots: seq<Option<nat>>, v: nat)
    requires w.Valid() && Some(v) in slots && u == SlotsFinished(w, t, id, slots).1
    ensures t < u
    decreases slots
  {
    if slots[0].None? {
      assert slots == [slots[0]] + slots[1..];
      TicksPass(w, t, u, id, slots[1..], v);
    } else if w.status(t, id, slots[0].value) == Finished {
      FinishedTicks(w, t + 1, id, slots[1..]);
    }
  }

  // ---------------------------------------------------------------------------
  // Nobody is killed early
  // ---------------------------------------------------------------------------

  /** Told to stop, if at all, no earlier than `since`. */
  ghost predicate StoppedSince(p: Pipe, since: real) {
    p.stopSince.Some? ==> p.stopSince.value >= since
  }

  lemma {:induction false} SweepHolds(w: World, t: nat, ps: seq<Pipe>, i: nat, kept: seq<bool>, a: nat, v: nat,
                                      since: real)
    requires w.Valid() && i == |kept| <= a < |ps| && Holds(ps[a], v) && StoppedSince(ps[a], since)
    requires w.status(Sweep(w, t, ps, i, kept).1, ps[a].id, v) != Finished
    requires since <= w.clock(t) && w.clock(Sweep(w, t, ps, i, kept).1) - since <= 30.0
    ensures var (qs, _, kept1) := Sweep(w, t, ps, i, kept);
            kept1[a] && Holds(qs[a], v) && StoppedSince(qs[a], since)
    decreases |ps| - i
  {
    ManageFrame(w, t, ps, i);
    var (ps1, t1, stays) := Manage(w, t, ps, i);
    SweepFrame(w, t1, ps1, i + 1, kept + [stays]);
    var u := Sweep(w, t, ps, i, kept).1;
    assert w.clock(t) <= w.clock(t + 1) && w.clock(t) <= w.clock(t1);
    if i == a {
      assert w.status(t1, ps[a].id, v) != Finished;
      UnfinishedTurn(w, t, ps, i, v);
      assert w.clock(t + 1) <= w.clock(u);
      assert (kept + [stays])[a] == stays;
    } else {
      SweepHolds(w, t1, ps1, i + 1, kept + [stays], a, v, since);
    }
  }

  /** Still there with the instance in a slot, and not told to stop before `since`. */
  ghost predicate StillThere(ps: seq<Pipe>, id: nat, v: nat, since: real) {
    exists a :: 0 <= a < |ps| && ps[a].id == id && Holds(ps[a], v) && StoppedSince(ps[a], since)
  }

  lemma RoundHolds(w: World, t: nat, ps: seq<Pipe>, id: nat, v: nat, since: real)
    requires w.Valid() && StillThere(ps, id, v, since)
    requires w.status(Round(w, t, ps).1, id, v) != Finished
    requires since <= w.clock(t) && w.clock(Round(w, t, ps).1) - since <= 30.0
    ensures StillThere(Round(w, t, ps).0, id, v, since)
  {
    var a :| 0 <= a < |ps| && ps[a].id == id && Holds(ps[a], v) && StoppedSince(ps[a], since);
    SweepHolds(w, t, ps, 0, [], a, v, since);
    SweepFrame(w, t, ps, 0, []);
    var (qs, _, kept) := Sweep(w, t, ps, 0, []);
    var from := SelectPositions(qs, kept);
    var j :| 0 <= j < |from| && from[j] == a;
    assert Select(qs, kept)[j] == qs[a] && qs[a].id == id;
  }

  lemma RunTicks(w: World, cfgs: seq<Config>, n: nat)
    requires w.Valid()
    ensures Run(w, cfgs, n).1 <= Run(w, cfgs, n + 1).1
  {
    SweepFrame(w, Run(w, cfgs, n).1, Run(w, cfgs, n).0, 0, []);
  }

  lemma {:induction false} RunTicksLater(w: World, cfgs: seq<Config>, m: nat, n: nat)
    requires w.Valid() && m <= n
    ensures Run(w, cfgs, m).1 <= Run(w, cfgs, n).1
    decreases n - m
  {
    if m < n {
      RunTicks(w, cfgs, m);
      RunTicksLater(w, cfgs, m + 1, n);
    }
  }

  lemma StillThereNext(w: World, cfgs: seq<Config>, n: nat, id: nat, v: nat, since: real)
    requires w.Valid() && StillThere(Run(w, cfgs, n).0, id, v, since)
    requires w.status(Run(w, cfgs, n + 1).1, id, v) != Finished
    requires since <= w.clock(Run(w, cfgs, n).1) && w.clock(Run(w, cfgs, n + 1).1) - since <= 30.0
    ensures StillThere(Run(w, cfgs, n + 1).0, id, v, since)
  {
    RoundHolds(w, Run(w, cfgs, n).1, Run(w, cfgs, n).0, id, v, since);
  }

  lemma {:induction false} StillThereLater(w: World, cfgs: seq<Config>, m: nat, n: nat, id: nat, v: nat, since: real)
    requires w.Valid() && m <= n && StillThere(Run(w, cfgs, m).0, id, v, since)
    requires w.status(Run(w, cfgs, n).1, id, v) != Finished
    requires since <= w.clock(Run(w, cfgs, m).1) && w.clock(Run(w, cfgs, n).1) - since <= 30.0
    ensures StillThere(Run(w, cfgs, n).0, id, v, since)
    decreases n - m
  {
    if m < n {
      var t, u, end := Run(w, cfgs, m).1, Run(w, cfgs, m + 1).1, Run(w, cfgs, n).1;
      RunTicks(w, cfgs, m);
      RunTicksLater(w, cfgs, m + 1, n);
      assert t <= u <= end && w.clock(t) <= w.clock(u) <= w.clock(end);
      assert w.status(u, id, v) != Finished;
      StillThereNext(w, cfgs, m, id, v, since);
      StillThereLater(w, cfgs, m + 1, n, id, v, since);
    }
  }

  /**
    A pipeline that has not been told to stop by round `m`, with an instance that
    is not finished by round `n`, is still there in round `n`, with that instance in
    its slot, as long as no more than 30 seconds have passed between the rounds.
   */
  lemma NotKilledEarly(w: World, cfgs: seq<Config>, m: nat, n: nat, p: Pipe, v: nat)
    requires w.Valid() && m <= n && p in Run(w, cfgs, m).0 && p.stopSince.None? && Holds(p, v)
    requires w.status(Run(w, cfgs, n).1, p.id, v) != Finished
    requires w.clock(Run(w, cfgs, n).1) - w.clock(Run(w, cfgs, m).1) <= 30.0
    ensures StillThere(Run(w, cfgs, n).0, p.id, v, w.clock(Run(w, cfgs, m).1))
  {
    var ps := Run(w, cfgs, m).0;
    var a :| 0 <= a < |ps| && ps[a] == p;
    assert StoppedSince(ps[a], w.clock(Run(w, cfgs, m).1));
    StillThereLater(w, cfgs, m, n, p.id, v, w.clock(Run(w, cfgs, m).1));
  }

  /** Who was told to stop more than 30 seconds before a round begins, and should not run, is gone after it. */
  lemma {:induction false} SweepKills(w: World, t: nat, ps: seq<Pipe>, i: nat, kept: seq<bool>, a: nat)
    requires w.Valid() && i == |kept| <= a < |ps| && !ShouldRun(w, t, ps, ps[a].cfg) && Late(w, t, ps[a])
    ensures !Sweep(w, t, ps, i, kept).2[a]
    decreases |ps| - i
  {
    ManageFrame(w, t, ps, i);
    var (ps1, t1, stays) := Manage(w, t, ps, i);
    SweepFrame(w, t1, ps1, i + 1, kept + [stays]);
    assert w.clock(t) <= w.clock(t + 1) && w.clock(t) <= w.clock(t1);
    if i == a {
      assert (kept + [stays])[a] == stays;
    } else {
      SameRequirers(ps, ps1, ps[a].cfg);
      NotRunningLater(w, t, t1, ps, ps1, ps[a].cfg);
      SweepKills(w, t1, ps1, i + 1, kept + [stays], a);
    }
  }

  lemma KilledLate(w: World, cfgs: seq<Config>, n: nat, p: Pipe)
    requires w.Valid() && p in Run(w, cfgs, n).0
    requires !ShouldRun(w, Run(w, cfgs, n).1, Run(w, cfgs, n).0, p.cfg) && Late(w, Run(w, cfgs, n).1, p)
    ensures !Present(Run(w, cfgs, n + 1).0, p.id)
  {
    var (ps, t) := Run(w, cfgs, n);
    var a :| 0 <= a < |ps| && ps[a] == p;
    SweepKills(w, t, ps, 0, [], a);
    SweepFrame(w, t, ps, 0, []);
    RunStopInv(w, cfgs, n);
    var (qs, _, kept) := Sweep(w, t, ps, 0, []);
    var from := SelectPositions(qs, kept);
    forall b | 0 <= b < |Select(qs, kept)| ensures Select(qs, kept)[b].id != p.id {
      assert Select(qs, kept)[b] == qs[from[b]] && qs[from[b]].id == ps[from[b]].id && kept[from[b]];
      assert from[b] != a;
    }
  }

  // ---------------------------------------------------------------------------
  // Nothing starts before its requirements are active
  // ---------------------------------------------------------------------------

  lemma SeenLonger(w: World, t: nat, t': nat, u': nat, u: nat, ps: seq<Pipe>, identity: Identity)
    requires t <= t' <= u' <= u && AllSeenActive(w, t', u', ps, identity)
    ensures AllSeenActive(w, t, u, ps, identity)
  {
    forall a, k | 0 <= a < |ps| && identity in ps[a].cfg.requiredBy && 0 <= k < |ps[a].slots|
      ensures SeenActive(w, t, u, ps[a].id, ps[a].slots[k])
    {
      SeenWithin(w, t, t', u', u, ps[a].id, ps[a].slots[k]);
    }
  }

  lemma SlotStartsWhenActive(w: World, t: nat, ps: seq<Pipe>, i: nat, slot: Option<nat>)
    requires i < |ps|
    ensures var (ps1, _, t1) := ManageSlot(w, t, ps, i, slot);
            && t <= t1 && Gained(ps, ps1, i)
            && (ps1[i].counter > ps[i].counter ==> AllSeenActive(w, t, t1, ps, ps[i].cfg.identity))
  {
    var (kept, tv) := Vacated(w, t, ps[i].id, slot);
    RequirementsVerdict(w, tv, ps, ps[i].cfg.identity);
    var u := RequirementsActive(w, tv, ps, ps[i].cfg.identity).1;
    if RequirementsActive(w, tv, ps, ps[i].cfg.identity).0 { SeenLonger(w, t, tv, u, u, ps, ps[i].cfg.identity); }
  }

  lemma GainedSeen(w: World, t: nat, u: nat, ps: seq<Pipe>, ps1: seq<Pipe>, i: nat)
    requires i < |ps| && Gained(ps, ps1, i) && AllSeenActive(w, t, u, ps1, ps1[i].cfg.identity)
    ensures AllSeenActive(w, t, u, ps, ps[i].cfg.identity)
  {
    forall a, k | 0 <= a < |ps| && ps[i].cfg.identity in ps[a].cfg.requiredBy && 0 <= k < |ps[a].slots|
      ensures SeenActive(w, t, u, ps[a].id, ps[a].slots[k])
    {
      assert ps1[a].slots == ps[a].slots && ps1[a].cfg == ps[a].cfg && ps1[a].id == ps[a].id;
    }
  }

  lemma {:induction false} PassStartsWhenActive(w: World, t: nat, ps: seq<Pipe>, i: nat, todo: seq<Option<nat>>,
                                                built: seq<Option<nat>>)
    requires i < |ps|
    ensures var (ps1, t1) := ManageSlots(w, t, ps, i, todo, built);
            && t <= t1 && ps1[i].counter >= ps[i].counter
            && (ps1[i].counter > ps[i].counter ==> AllSeenActive(w, t, t1, ps, ps[i].cfg.identity))
    decreases todo
  {
    if todo != [] {
      var (ps1, slot, t1) := ManageSlot(w, t, ps, i, todo[0]);
      SlotStartsWhenActive(w, t, ps, i, todo[0]);
      PassStartsWhenActive(w, t1, ps1, i, todo[1..], built + [slot]);
      var (ps2, t2) := ManageSlots(w, t1, ps1, i, todo[1..], built + [slot]);
      if ps1[i].counter > ps[i].counter {
        SeenLonger(w, t, t, t1, t2, ps, ps[i].cfg.identity);
      } else if ps2[i].counter > ps1[i].counter {
        GainedSeen(w, t1, t2, ps, ps1, i);
        SeenLonger(w, t, t1, t2, t2, ps, ps[i].cfg.identity);
      }
    }
  }

  /**
    A pipeline that starts an instance in its turn should run, and every slot of
    everything it requires was seen active during the turn.
   */
  lemma StartsOnlyWhenActive(w: World, t: nat, ps: seq<Pipe>, i: nat)
    requires w.Valid() && i < |ps|
    ensures var (ps1, t1, _) := Manage(w, t, ps, i);
            ps1[i].counter != ps[i].counter ==>
              ShouldRun(w, t, ps, ps[i].cfg) && AllSeenActive(w, t, t1, ps, ps[i].cfg.identity)
  {
    ManageFrame(w, t, ps, i);
    if ShouldRun(w, t, ps, ps[i].cfg) {
      var (ps1, u) := ManageSlots(w, t + 1, ps, i, ps[i].slots, []);
      PassStartsWhenActive(w, t + 1, ps, i, ps[i].slots, []);
      FinishedTicks(w, u, ps1[i].id, ps1[i].slots);
      var t1 := Manage(w, t, ps, i).1;
      if ps1[i].counter != ps[i].counter { SeenLonger(w, t, t + 1, u, t1, ps, ps[i].cfg.identity); }
    }
  }
}
