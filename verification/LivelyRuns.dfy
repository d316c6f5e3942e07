/** A run in which every pipeline that can start does, and so exactly when a pipeline can start. */
module LivelyRuns {
  import opened Wrappers
  import opened Sequences
  import opened Scheduling
  import opened SchedulingProofs
  import opened StoppingProofs
  import opened StartingProofs

  // ---------------------------------------------------------------------------
  // A world in which everything that can start does
  // ---------------------------------------------------------------------------

  /** Endless pipelines stay active, the others finish at once; no time passes and nobody interrupts. */
  function Lively(cfgs: seq<Config>): World {
    World((t: nat, p: nat, i: nat) => if p < |cfgs| && cfgs[p].required.None? then Active else Finished,
          t => 0.0, t => true)
  }

  ghost predicate Live(cfgs: seq<Config>, t: nat, ps: seq<Pipe>) {
    && Inv(Lively(cfgs), t, ps) && ConfiguredBy(cfgs, ps)
    && forall a :: 0 <= a < |ps| && ps[a].stopSince.Some? ==> ps[a].stopSince.value == 0.0
  }

  /** Nothing waits for `y` any more: it has left, or is endless and full. */
  ghost predicate Settled(cfgs: seq<Config>, ps: seq<Pipe>, y: nat) {
    forall a :: 0 <= a < |ps| && ps[a].id == y ==> ps[a].cfg.required.None? && Full(ps[a].slots)
  }

  ghost predicate Prepared(cfgs: seq<Config>, ps: seq<Pipe>, x: nat) {
    forall y :: WaitsFor(cfgs, x, y) ==> Settled(cfgs, ps, y)
  }

  lemma LiveManage(cfgs: seq<Config>, t: nat, ps: seq<Pipe>, i: nat)
    requires Live(cfgs, t, ps) && i < |ps|
    ensures var (ps1, t1, _) := Manage(Lively(cfgs), t, ps, i);
            Live(cfgs, t1, ps1)
  {
    var w := Lively(cfgs);
    ManageKeepsInv(w, t, ps, i);
    ManageFrame(w, t, ps, i);
    var ps1 := Manage(w, t, ps, i).0;
    forall a | 0 <= a < |ps1|
      ensures ps1[a].id < |cfgs| && ps1[a].cfg == cfgs[ps1[a].id] &&
              (ps1[a].stopSince.Some? ==> ps1[a].stopSince.value == 0.0)
    {
      assert ps1[a].id == ps[a].id;
    }
  }

  lemma {:induction false} LiveSweep(cfgs: seq<Config>, t: nat, ps: seq<Pipe>, i: nat, kept: seq<bool>)
    requires Live(cfgs, t, ps) && i == |kept| <= |ps|
    ensures var (qs, t1, _) := Sweep(Lively(cfgs), t, ps, i, kept);
            Live(cfgs, t1, qs)
    decreases |ps| - i
  {
    if i < |ps| {
      LiveManage(cfgs, t, ps, i);
      var (ps1, t1, stays) := Manage(Lively(cfgs), t, ps, i);
      LiveSweep(cfgs, t1, ps1, i + 1, kept + [stays]);
    }
  }

  lemma {:induction false} LiveRun(cfgs: seq<Config>, n: nat)
    requires ValidConfigs(cfgs)
    ensures var (ps, t) := Run(Lively(cfgs), cfgs, n);
            Live(cfgs, t, ps)
  {
    var w := Lively(cfgs);
    RunInv(w, cfgs, n);
    RunConfigured(w, cfgs, n);
    if n > 0 {
      LiveRun(cfgs, n - 1);
      var (ps, t) := Run(w, cfgs, n - 1);
      LiveSweep(cfgs, t, ps, 0, []);
      var ps1 := Run(w, cfgs, n).0;
      forall b | 0 <= b < |ps1| && ps1[b].stopSince.Some? ensures ps1[b].stopSince.value == 0.0 {
        var a := Origin(w, t, ps, b);
      }
    }
  }

  // ---------------------------------------------------------------------------
  // What is settled stays settled
  // ---------------------------------------------------------------------------

  lemma {:induction false} FullPass(cfgs: seq<Config>, t: nat, ps: seq<Pipe>, i: nat, todo: seq<Option<nat>>,
                                    built: seq<Option<nat>>)
    requires i < |ps| && ConfiguredBy(cfgs, ps) && ps[i].cfg.required.None? && Full(todo) && Full(built)
    ensures Full(ManageSlots(Lively(cfgs), t, ps, i, todo, built).0[i].slots)
    decreases todo
  {
    if todo != [] {
      var (ps1, slot, t1) := ManageSlot(Lively(cfgs), t, ps, i, todo[0]);
      assert ps1 == ps && slot == todo[0];
      FullPass(cfgs, t1, ps, i, todo[1..], built + [slot]);
    }
  }

  lemma SettledManage(cfgs: seq<Config>, t: nat, ps: seq<Pipe>, i: nat, y: nat)
    requires Live(cfgs, t, ps) && i < |ps| && Settled(cfgs, ps, y)
    ensures Settled(cfgs, Manage(Lively(cfgs), t, ps, i).0, y)
  {
    var w := Lively(cfgs);
    ManageFrame(w, t, ps, i);
    if ps[i].id == y { FullPass(cfgs, t + 1, ps, i, ps[i].slots, []); }
    var ps1 := Manage(w, t, ps, i).0;
    forall a | 0 <= a < |ps1| && ps1[a].id == y ensures ps1[a].cfg.required.None? && Full(ps1[a].slots) {
      assert ps[a].id == y;
    }
  }

  lemma {:induction false} SettledSweep(cfgs: seq<Config>, t: nat, ps: seq<Pipe>, i: nat, kept: seq<bool>, y: nat)
    requires Live(cfgs, t, ps) && i == |kept| <= |ps| && Settled(cfgs, ps, y)
    ensures Settled(cfgs, Sweep(Lively(cfgs), t, ps, i, kept).0, y)
    decreases |ps| - i
  {
    if i < |ps| {
      LiveManage(cfgs, t, ps, i);
      SettledManage(cfgs, t, ps, i, y);
      var (ps1, t1, stays) := Manage(Lively(cfgs), t, ps, i);
      SettledSweep(cfgs, t1, ps1, i + 1, kept + [stays], y);
    }
  }

  lemma SettledRound(cfgs: seq<Config>, n: nat, y: nat)
    requires Settled(cfgs, Swept(Lively(cfgs), cfgs, n), y)
    ensures Settled(cfgs, Run(Lively(cfgs), cfgs, n + 1).0, y)
  {
    var w := Lively(cfgs);
    var (ps, t) := Run(w, cfgs, n);
    var ps1 := Run(w, cfgs, n + 1).0;
    forall b | 0 <= b < |ps1| && ps1[b].id == y ensures ps1[b].cfg.required.None? && Full(ps1[b].slots) {
      var a := Origin(w, t, ps, b);
      assert Swept(w, cfgs, n)[a].id == y;
    }
  }

  lemma SettledNext(cfgs: seq<Config>, n: nat, y: nat)
    requires ValidConfigs(cfgs) && Settled(cfgs, Run(Lively(cfgs), cfgs, n).0, y)
    ensures Settled(cfgs, Run(Lively(cfgs), cfgs, n + 1).0, y)
  {
    LiveRun(cfgs, n);
    var (ps, t) := Run(Lively(cfgs), cfgs, n);
    SettledSweep(cfgs, t, ps, 0, [], y);
    SettledRound(cfgs, n, y);
  }

  lemma {:induction false} SettledStays(cfgs: seq<Config>, m: nat, n: nat, y: nat)
    requires ValidConfigs(cfgs) && m <= n && Settled(cfgs, Run(Lively(cfgs), cfgs, m).0, y)
    ensures Settled(cfgs, Run(Lively(cfgs), cfgs, n).0, y)
    decreases n - m
  {
    if m < n {
      SettledNext(cfgs, m, y);
      SettledStays(cfgs, m + 1, n, y);
    }
  }

  // ---------------------------------------------------------------------------
  // What is prepared makes progress
  // ---------------------------------------------------------------------------

  lemma PreparedIsReady(cfgs: seq<Config>, t: nat, u: nat, ps: seq<Pipe>, x: nat)
    requires Live(cfgs, t, ps) && x < |cfgs| && Prepared(cfgs, ps, x)
    ensures Ready(Lively(cfgs), t, u, ps, cfgs[x].identity)
  {
    forall a | 0 <= a < |ps| && cfgs[x].identity in ps[a].cfg.requiredBy
      ensures ps[a].slots != [] && forall k :: 0 <= k < |ps[a].slots| ==>
              Steady(Lively(cfgs), t, u, ps[a].id, ps[a].slots[k])
    {
      assert WaitsFor(cfgs, x, ps[a].id);
      assert PipeInv(Lively(cfgs), t, ps[a]);
    }
  }

  /** What a turn does to a prepared pipeline: an endless one fills up, another starts something or leaves. */
  ghost predicate Progress(p: Pipe, q: Pipe, stays: bool) {
    && q.id == p.id && q.cfg == p.cfg && q.counter > 0
    && if p.cfg.required.None? then Full(q.slots) else stays ==> q.counter > p.counter
  }

  ghost predicate HasTurn(cfgs: seq<Config>, t: nat, ps: seq<Pipe>, a: nat) {
    && Live(cfgs, t, ps) && a < |ps| && Prepared(cfgs, ps, ps[a].id)
    && (ps[a].cfg.required.Some? || RequiredByOthers(ps, ps[a].cfg))
  }

  lemma TurnServed(cfgs: seq<Config>, t: nat, p: Pipe, q: Pipe)
    requires q.id == p.id && q.cfg == p.cfg && q.id < |cfgs| && q.cfg == cfgs[q.id]
    requires Sane(q) && SlotsServed(Lively(cfgs), t, p.counter, q, q.slots)
    ensures Progress(p, q, NeedsNewInstance(q))
  {
    assert SlotServed(Lively(cfgs), t, p.counter, q, q.slots[0]);
    if p.cfg.required.None? {
      forall k | 0 <= k < |q.slots| ensures q.slots[k].Some? {
        assert SlotServed(Lively(cfgs), t, p.counter, q, q.slots[k]);
      }
    }
  }

  lemma Turn(cfgs: seq<Config>, t: nat, ps: seq<Pipe>, i: nat)
    requires HasTurn(cfgs, t, ps, i)
    ensures var (ps1, _, stays) := Manage(Lively(cfgs), t, ps, i);
            Progress(ps[i], ps1[i], stays)
  {
    var w := Lively(cfgs);
    var (ps1, t1, stays) := Manage(w, t, ps, i);
    PreparedIsReady(cfgs, t, t1, ps, ps[i].id);
    RoundFillsSlots(w, t, ps, i);
    LiveManage(cfgs, t, ps, i);
    ManageFrame(w, t, ps, i);
    var q := ps1[i];
    assert PipeInv(w, t1, q);
    TurnServed(cfgs, t, ps[i], q);
    if ps[i].cfg.required.Some? {
      var t0 := ManageSlots(w, t + 1, ps, i, ps[i].slots, []).1;
      AllFinished(w, t0, q.id, q.slots);
      assert stays ==> NeedsNewInstance(q);
    }
  }

  lemma TurnNow(cfgs: seq<Config>, t: nat, ps: seq<Pipe>, kept: seq<bool>, a: nat)
    requires |kept| == a && HasTurn(cfgs, t, ps, a)
    ensures var (qs, _, kept1) := Sweep(Lively(cfgs), t, ps, a, kept);
            Progress(ps[a], qs[a], kept1[a])
  {
    var w := Lively(cfgs);
    ManageFrame(w, t, ps, a);
    Turn(cfgs, t, ps, a);
    var (ps1, t1, stays) := Manage(w, t, ps, a);
    SweepFrame(w, t1, ps1, a + 1, kept + [stays]);
    assert Sweep(w, t, ps, a, kept).2[a] == (kept + [stays])[a];
  }

  lemma TurnComes(cfgs: seq<Config>, t: nat, ps: seq<Pipe>, i: nat, a: nat)
    requires i < a && HasTurn(cfgs, t, ps, a)
    ensures var (ps1, t1, _) := Manage(Lively(cfgs), t, ps, i);
            HasTurn(cfgs, t1, ps1, a) && ps1[a] == ps[a]
  {
    var w := Lively(cfgs);
    ManageFrame(w, t, ps, i);
    LiveManage(cfgs, t, ps, i);
    var ps1 := Manage(w, t, ps, i).0;
    forall y | WaitsFor(cfgs, ps[a].id, y) ensures Settled(cfgs, ps1, y) { SettledManage(cfgs, t, ps, i, y); }
    SameRequirers(ps, ps1, ps[a].cfg);
  }

  lemma {:induction false} SweepTurn(cfgs: seq<Config>, t: nat, ps: seq<Pipe>, i: nat, kept: seq<bool>, a: nat)
    requires i == |kept| <= a && HasTurn(cfgs, t, ps, a)
    ensures var (qs, _, kept1) := Sweep(Lively(cfgs), t, ps, i, kept);
            Progress(ps[a], qs[a], kept1[a])
    decreases |ps| - i
  {
    if i == a {
      TurnNow(cfgs, t, ps, kept, a);
    } else {
      TurnComes(cfgs, t, ps, i, a);
      var (ps1, t1, stays) := Manage(Lively(cfgs), t, ps, i);
      SweepTurn(cfgs, t1, ps1, i + 1, kept + [stays], a);
    }
  }

  // ---------------------------------------------------------------------------
  // Leaving in the lively world
  // ---------------------------------------------------------------------------

  /** Nobody is killed, so what is missing after a round has started all its instances. */
  lemma LeaverStarted(cfgs: seq<Config>, n: nat, a: nat)
    requires ValidConfigs(cfgs) && a < |Run(Lively(cfgs), cfgs, n).0|
    requires !Present(Run(Lively(cfgs), cfgs, n + 1).0, Run(Lively(cfgs), cfgs, n).0[a].id)
    ensures var q := Swept(Lively(cfgs), cfgs, n)[a];
            q.id == Run(Lively(cfgs), cfgs, n).0[a].id && q.counter > 0
  {
    var w := Lively(cfgs);
    var (ps, t) := Run(w, cfgs, n);
    LeavesRun(w, cfgs, n, a);
    LiveRun(cfgs, n);
    LiveSweep(cfgs, t, ps, 0, []);
    var q := Swept(w, cfgs, n)[a];
    assert !Overdue(w, Run(w, cfgs, n + 1).1, q);
    assert PipeInv(w, Sweep(w, t, ps, 0, []).1, q);
  }

  lemma PresentNext(cfgs: seq<Config>, n: nat, k: nat)
    requires ValidConfigs(cfgs) && Present(Run(Lively(cfgs), cfgs, n).0, k)
    ensures Present(Run(Lively(cfgs), cfgs, n + 1).0, k) || Started(Lively(cfgs), cfgs, k, n)
  {
    var ps := Run(Lively(cfgs), cfgs, n).0;
    var a :| 0 <= a < |ps| && ps[a].id == k;
    if !Present(Run(Lively(cfgs), cfgs, n + 1).0, k) { LeaverStarted(cfgs, n, a); }
  }

  lemma {:induction false} PresentOrStarted(cfgs: seq<Config>, n: nat, k: nat) returns (m: nat)
    requires ValidConfigs(cfgs) && k < |cfgs|
    ensures Present(Run(Lively(cfgs), cfgs, n).0, k) || Started(Lively(cfgs), cfgs, k, m)
  {
    if n == 0 {
      m := 0;
      assert Initial(cfgs)[k].id == k;
    } else {
      m := PresentOrStarted(cfgs, n - 1, k);
      if !Started(Lively(cfgs), cfgs, k, m) {
        PresentNext(cfgs, n - 1, k);
        m := n - 1;
      }
    }
  }

  /** Whoever waits for an endless pipeline is there until that is full. */
  lemma {:induction false} WaiterPresent(cfgs: seq<Config>, n: nat, x: nat, y: nat)
    requires ValidConfigs(cfgs) && WaitsFor(cfgs, x, y) && cfgs[y].required.None?
    ensures Settled(cfgs, Run(Lively(cfgs), cfgs, n).0, y) || Present(Run(Lively(cfgs), cfgs, n).0, x)
  {
    var w := Lively(cfgs);
    if n == 0 {
      assert Initial(cfgs)[x].id == x;
    } else {
      WaiterPresent(cfgs, n - 1, x, y);
      var ps := Run(w, cfgs, n - 1).0;
      if Settled(cfgs, ps, y) {
        SettledStays(cfgs, n - 1, n, y);
      } else if !Present(Run(w, cfgs, n).0, x) {
        var a :| 0 <= a < |ps| && ps[a].id == x;
        LeaverStarted(cfgs, n - 1, a);
        StartedMeansFull(cfgs, n - 1, a, y);
        SettledRound(cfgs, n - 1, y);
      }
    }
  }

  lemma StartedMeansFull(cfgs: seq<Config>, n: nat, a: nat, y: nat)
    requires ValidConfigs(cfgs) && a < |Swept(Lively(cfgs), cfgs, n)| && Swept(Lively(cfgs), cfgs, n)[a].counter > 0
    requires WaitsFor(cfgs, Swept(Lively(cfgs), cfgs, n)[a].id, y) && cfgs[y].required.None?
    ensures Settled(cfgs, Swept(Lively(cfgs), cfgs, n), y)
  {
    var w := Lively(cfgs);
    var (ps, t) := Run(w, cfgs, n);
    LiveRun(cfgs, n);
    LiveSweep(cfgs, t, ps, 0, []);
    var (qs, t1, _) := Sweep(w, t, ps, 0, []);
    forall b | 0 <= b < |qs| && qs[b].id == y ensures qs[b].cfg.required.None? && Full(qs[b].slots) {
      assert PipeInv(w, t1, qs[b]) && qs[a].cfg.identity in qs[b].cfg.requiredBy;
      CounterFull(w, t1, qs[b]);
    }
  }

  // ---------------------------------------------------------------------------
  // Everything that is not blocked gets settled
  // ---------------------------------------------------------------------------

  lemma PreparedStays(cfgs: seq<Config>, m: nat, n: nat, x: nat)
    requires ValidConfigs(cfgs) && m <= n && Prepared(cfgs, Run(Lively(cfgs), cfgs, m).0, x)
    ensures Prepared(cfgs, Run(Lively(cfgs), cfgs, n).0, x)
  {
    forall y | WaitsFor(cfgs, x, y)
      ensures Settled(cfgs, Run(Lively(cfgs), cfgs, n).0, y) { SettledStays(cfgs, m, n, y); }
  }

  lemma {:induction false} HasTurnInRun(cfgs: seq<Config>, n: nat, y: nat, a: nat)
    requires ValidConfigs(cfgs) && HasReason(cfgs, y) && a < |Run(Lively(cfgs), cfgs, n).0|
    requires var ps := Run(Lively(cfgs), cfgs, n).0;
             ps[a].id == y && Prepared(cfgs, ps, y) && (!Settled(cfgs, ps, y) || ps[a].counter == 0)
    ensures HasTurn(cfgs, Run(Lively(cfgs), cfgs, n).1, Run(Lively(cfgs), cfgs, n).0, a)
  {
    var w := Lively(cfgs);
    var (ps, t) := Run(w, cfgs, n);
    LiveRun(cfgs, n);
    assert PipeInv(w, t, ps[a]);
    if cfgs[y].required.None? {
      var x :| 0 <= x < |cfgs| && WaitsFor(cfgs, x, y);
      WaiterPresent(cfgs, n, x, y);
      assert !Settled(cfgs, ps, y) by { assert ps[a].slots[0].Some? ==> ps[a].counter > 0; }
      var b :| 0 <= b < |ps| && ps[b].id == x;
      assert ps[b].cfg.identity in ps[a].cfg.requiredBy;
    }
  }

  /** If `y` is still there, it lacks fewer than `left` instances. */
  ghost predicate LacksFewer(ps: seq<Pipe>, y: nat, left: nat) {
    forall a :: 0 <= a < |ps| && ps[a].id == y && ps[a].cfg.required.Some? ==>
      ps[a].cfg.required.value - ps[a].counter < left
  }

  lemma RoundProgresses(cfgs: seq<Config>, n: nat, y: nat, a: nat)
    requires ValidConfigs(cfgs) && HasReason(cfgs, y) && a < |Run(Lively(cfgs), cfgs, n).0|
    requires var ps := Run(Lively(cfgs), cfgs, n).0;
             ps[a].id == y && Prepared(cfgs, ps, y) && !Settled(cfgs, ps, y)
    ensures var (p, ps1) := (Run(Lively(cfgs), cfgs, n).0[a], Run(Lively(cfgs), cfgs, n + 1).0);
            if p.cfg.required.None? then Settled(cfgs, ps1, y)
            else p.counter <= p.cfg.required.value && LacksFewer(ps1, y, p.cfg.required.value - p.counter)
  {
    var w := Lively(cfgs);
    var (ps, t) := Run(w, cfgs, n);
    HasTurnInRun(cfgs, n, y, a);
    SweepTurn(cfgs, t, ps, 0, [], a);
    RunStopInv(w, cfgs, n);
    assert PipeInv(w, t, ps[a]);
    var ps1 := Run(w, cfgs, n + 1).0;
    forall b | 0 <= b < |ps1| && ps1[b].id == y
      ensures ps1[b].cfg == ps[a].cfg
      ensures if ps1[b].cfg.required.None? then Full(ps1[b].slots) else ps1[b].counter > ps[a].counter
    {
      Kept(w, t, ps, a, b);
    }
  }

  /** Once nothing is in its way, a pipeline that something is there for fills up, or does its work and leaves. */
  lemma {:induction false} Settles(cfgs: seq<Config>, n: nat, y: nat, left: nat) returns (m: nat)
    requires ValidConfigs(cfgs) && HasReason(cfgs, y) && Prepared(cfgs, Run(Lively(cfgs), cfgs, n).0, y)
    requires LacksFewer(Run(Lively(cfgs), cfgs, n).0, y, left)
    ensures m >= n && Settled(cfgs, Run(Lively(cfgs), cfgs, m).0, y)
    decreases left
  {
    var ps := Run(Lively(cfgs), cfgs, n).0;
    if Settled(cfgs, ps, y) { return n; }
    var a :| 0 <= a < |ps| && ps[a].id == y;
    RoundProgresses(cfgs, n, y, a);
    if ps[a].cfg.required.None? { return n + 1; }
    PreparedStays(cfgs, n, n + 1, y);
    m := Settles(cfgs, n + 1, y, ps[a].cfg.required.value - ps[a].counter);
  }

  /** A survivor with the same id is the same pipeline, and was kept. */
  lemma Kept(w: World, t: nat, ps: seq<Pipe>, a: nat, b: nat)
    requires w.Valid() && StopInv(w, t, ps) && a < |ps|
    requires b < |Round(w, t, ps).0| && Round(w, t, ps).0[b].id == ps[a].id
    ensures var (qs, _, kept) := Sweep(w, t, ps, 0, []);
            kept[a] && Round(w, t, ps).0[b] == qs[a]
  {
    SweepFrame(w, t, ps, 0, []);
    var (qs, _, kept) := Sweep(w, t, ps, 0, []);
    var from := SelectPositions(qs, kept);
    assert Select(qs, kept)[b] == qs[from[b]];
    assert qs[from[b]].id == ps[from[b]].id;
    assert DistinctIds(ps);
    assert from[b] == a;
  }

  /** Each pipeline of the path waits for the next; none occurs twice. */
  ghost predicate Path(cfgs: seq<Config>, path: seq<nat>) {
    && path != []
    && (forall i :: 0 <= i < |path| ==> path[i] < |cfgs|)
    && (forall i, j :: 0 <= i && j == i + 1 && j < |path| ==> WaitsFor(cfgs, path[i], path[j]))
    && (forall i, j :: 0 <= i < j < |path| ==> path[i] != path[j])
  }

  /** A path from an unblocked pipeline never comes back to where it was. */
  lemma PathGoesOn(cfgs: seq<Config>, path: seq<nat>, y: nat)
    requires Path(cfgs, path) && !Blocked(cfgs, path[0]) && WaitsFor(cfgs, path[|path| - 1], y)
    ensures Path(cfgs, path + [y]) && (path + [y])[0] == path[0]
  {
    if y in path {
      var s := set x | x in path;
      forall x | x in s ensures WaitsForMember(cfgs, s, x) {
        var i :| 0 <= i < |path| && path[i] == x;
        var next := if i + 1 < |path| then path[i + 1] else y;
        assert WaitsFor(cfgs, x, next) && next in s;
      }
      assert BlockedSet(cfgs, s) && path[0] in s;
    }
  }

  lemma PathIsShort(cfgs: seq<Config>, path: seq<nat>)
    requires Path(cfgs, path)
    ensures |path| <= |cfgs|
  {
    Pigeonhole(path, |cfgs|);
  }

  /** In the lively world everything that the last pipeline of such a path waits for gets settled. */
  lemma {:induction false} GetsPrepared(cfgs: seq<Config>, path: seq<nat>) returns (n: nat)
    requires ValidConfigs(cfgs) && Path(cfgs, path) && !Blocked(cfgs, path[0])
    ensures Prepared(cfgs, Run(Lively(cfgs), cfgs, n).0, path[|path| - 1])
    decreases |cfgs| - |path|
  {
    var x := path[|path| - 1];
    PathIsShort(cfgs, path);
    n := 0;
    for y := 0 to |cfgs|
      invariant forall v :: 0 <= v < y && WaitsFor(cfgs, x, v) ==> Settled(cfgs, Run(Lively(cfgs), cfgs, n).0, v)
    {
      if WaitsFor(cfgs, x, y) {
        var before := n;
        PathGoesOn(cfgs, path, y);
        PathIsShort(cfgs, path + [y]);
        var m := GetsPrepared(cfgs, path + [y]);
        n := if m < n then n else m;
        PreparedStays(cfgs, m, n, y);
        RunConfigured(Lively(cfgs), cfgs, n);
        n := Settles(cfgs, n, y, if cfgs[y].required.Some? then cfgs[y].required.value + 1 else 0);
        forall v | 0 <= v < y && WaitsFor(cfgs, x, v) ensures Settled(cfgs, Run(Lively(cfgs), cfgs, n).0, v) {
          SettledStays(cfgs, before, n, v);
        }
      }
    }
  }

  /** A pipeline that is not blocked and that something is there for starts in the lively world. */
  lemma UnblockedStarts(cfgs: seq<Config>, k: nat) returns (n: nat)
    requires ValidConfigs(cfgs) && HasReason(cfgs, k) && !Blocked(cfgs, k)
    ensures Started(Lively(cfgs), cfgs, k, n)
  {
    var w := Lively(cfgs);
    n := GetsPrepared(cfgs, [k]);
    var m := PresentOrStarted(cfgs, n, k);
    if Started(w, cfgs, k, m) { return m; }
    var (ps, t) := Run(w, cfgs, n);
    var a :| 0 <= a < |ps| && ps[a].id == k;
    SweepFrame(w, t, ps, 0, []);
    if ps[a].counter > 0 {
      CounterGrows(w, t, ps, 0, [], a);
    } else {
      HasTurnInRun(cfgs, n, k, a);
      SweepTurn(cfgs, t, ps, 0, [], a);
    }
    assert Swept(w, cfgs, n)[a].id == k;
  }

  lemma {:induction false} PassGrows(w: World, t: nat, ps: seq<Pipe>, i: nat, todo: seq<Option<nat>>,
                                     built: seq<Option<nat>>)
    requires i < |ps|
    ensures ManageSlots(w, t, ps, i, todo, built).0[i].counter >= ps[i].counter
    decreases todo
  {
    if todo != [] {
      var (ps1, slot, t1) := ManageSlot(w, t, ps, i, todo[0]);
      PassGrows(w, t1, ps1, i, todo[1..], built + [slot]);
    }
  }

  lemma {:induction false} CounterGrows(w: World, t: nat, ps: seq<Pipe>, i: nat, kept: seq<bool>, a: nat)
    requires w.Valid() && i == |kept| <= |ps| && a < |ps|
    ensures Sweep(w, t, ps, i, kept).0[a].counter >= ps[a].counter
    decreases |ps| - i
  {
    if i < |ps| {
      PassGrows(w, t + 1, ps, i, ps[i].slots, []);
      ManageFrame(w, t, ps, i);
      var (ps1, t1, stays) := Manage(w, t, ps, i);
      CounterGrows(w, t1, ps1, i + 1, kept + [stays], a);
    }
  }

  /**
    There is a world in which a pipeline starts exactly when it has a fixed number
    of instances to run or some pipeline that it is there for, and neither waits
    in a circle nor, directly or not, for a pipeline that does.
   */
  lemma CanStartIff(cfgs: seq<Config>, k: nat)
    requires ValidConfigs(cfgs)
    ensures (exists w: World, n: nat :: w.Valid() && Started(w, cfgs, k, n)) <==>
            HasReason(cfgs, k) && !Blocked(cfgs, k)
  {
    forall w: World, n: nat | w.Valid() && Started(w, cfgs, k, n) ensures HasReason(cfgs, k) && !Blocked(cfgs, k) {
      if Blocked(cfgs, k) { BlockedNeverStarts(w, cfgs, k, n); }
      if !HasReason(cfgs, k) { WithoutReasonNeverStarts(w, cfgs, k, n); }
    }
    if HasReason(cfgs, k) && !Blocked(cfgs, k) {
      var n := UnblockedStarts(cfgs, k);
      assert Lively(cfgs).Valid();
    }
  }
}
