/**
  What one `manage` round of the process manager does, as functions of the
  pipelines and of the world outside.

  Every look at the world (polling an instance, reading the clock, reading the
  `keepRunning` flag that the signal handler clears) happens at a tick of its
  own, so the world may change between any two looks, also within one round.
 */
module Scheduling {
  import opened Wrappers

  datatype Status = Running | Active | Finished

  /** `status(t, p, i)` is what polling instance `i` of pipeline `p` at tick `t` says. */
  datatype World = World(status: (nat, nat, nat) -> Status, clock: nat -> real, keepRunning: nat -> bool)
  {
    /** Exits are permanent, time does not run backwards, an interrupt is not taken back. */
    ghost predicate Valid() {
      && (forall t, u, p, i :: t <= u && status(t, p, i) == Finished ==> status(u, p, i) == Finished)
      && (forall t, u :: t <= u ==> clock(t) <= clock(u))
      && (forall t, u :: t <= u && keepRunning(u) ==> keepRunning(t))
    }
  }

  type Identity = Option<string>

  /** `required` is `None` for `"instances": "*"`. */
  datatype Config = Config(identity: Identity, requiredBy: seq<Identity>, required: Option<nat>, parallel: nat)
  {
    predicate Valid() {
      parallel > 0 && (required.Some? ==> required.value > 0)
    }
  }

  /** A slot holds the index of the instance in it. `started` lists the indices of all instances ever created. */
  datatype Pipe = Pipe(id: nat, cfg: Config, slots: seq<Option<nat>>, counter: nat,
                       started: seq<nat>, stopSince: Option<real>)

  function Fresh(id: nat, cfg: Config): Pipe {
    Pipe(id, cfg, seq(cfg.parallel, _ => None), 0, [], None)
  }

  /** Seconds a stopping pipeline is given before it is killed. */
  const GRACE := 30.0

  predicate NeedsNewInstance(p: Pipe) {
    p.cfg.required.None? || p.counter < p.cfg.required.value
  }

  predicate RequiredByOthers(ps: seq<Pipe>, cfg: Config) {
    exists b :: 0 <= b < |ps| && ps[b].cfg.identity in cfg.requiredBy
  }

  /** Whether every slot holds an active instance; stops at the first that does not. */
  function SlotsActive(w: World, t: nat, id: nat, slots: seq<Option<nat>>): (bool, nat)
    decreases slots
  {
    if slots == [] then (true, t)
    else if slots[0].None? then (false, t)
    else if w.status(t, id, slots[0].value) != Active then (false, t + 1)
    else SlotsActive(w, t + 1, id, slots[1..])
  }

  function PipeActive(w: World, t: nat, p: Pipe): (bool, nat) {
    if p.slots == [] then (false, t) else SlotsActive(w, t, p.id, p.slots)
  }

  function RequirementsActive(w: World, t: nat, ps: seq<Pipe>, identity: Identity): (bool, nat)
    decreases ps
  {
    if ps == [] then (true, t)
    else if identity !in ps[0].cfg.requiredBy then RequirementsActive(w, t, ps[1..], identity)
    else
      var (active, t1) := PipeActive(w, t, ps[0]);
      if active then RequirementsActive(w, t1, ps[1..], identity) else (false, t1)
  }

  function SlotsFinished(w: World, t: nat, id: nat, slots: seq<Option<nat>>): (bool, nat)
    decreases slots
  {
    if slots == [] then (true, t)
    else if slots[0].None? then SlotsFinished(w, t, id, slots[1..])
    else if w.status(t, id, slots[0].value) != Finished then (false, t + 1)
    else SlotsFinished(w, t + 1, id, slots[1..])
  }

  function PipeFinished(w: World, t: nat, p: Pipe): (bool, nat) {
    var (f, t1) := SlotsFinished(w, t, p.id, p.slots);
    (f && !NeedsNewInstance(p), t1)
  }

  /** A finished instance leaves its slot. */
  function Vacated(w: World, t: nat, id: nat, slot: Option<nat>): (Option<nat>, nat) {
    if slot.None? then (None, t)
    else if w.status(t, id, slot.value) == Finished then (None, t + 1)
    else (slot, t + 1)
  }

  function StartInstance(p: Pipe): Pipe {
    p.(counter := p.counter + 1, started := p.started + [p.counter])
  }

  /** One slot of pipeline `i`: the pipelines after it, the new content of the slot, the next tick. */
  function ManageSlot(w: World, t: nat, ps: seq<Pipe>, i: nat, slot: Option<nat>): (seq<Pipe>, Option<nat>, nat)
    requires i < |ps|
  {
    var p := ps[i];
    var (kept, t1) := Vacated(w, t, p.id, slot);
    if kept.Some? || !NeedsNewInstance(p) then (ps, kept, t1)
    else
      var (active, t2) := RequirementsActive(w, t1, ps, p.cfg.identity);
      if active then (ps[i := StartInstance(p)], Some(p.counter), t2) else (ps, None, t2)
  }

  /** All slots in order; the new slot list replaces the old one only at the end. */
  function ManageSlots(w: World, t: nat, ps: seq<Pipe>, i: nat, todo: seq<Option<nat>>, built: seq<Option<nat>>)
    : (r: (seq<Pipe>, nat))
    requires i < |ps|
    ensures |r.0| == |ps|
    decreases todo
  {
    if todo == [] then (ps[i := ps[i].(slots := built)], t)
    else
      var (ps1, slot, t1) := ManageSlot(w, t, ps, i, todo[0]);
      ManageSlots(w, t1, ps1, i, todo[1..], built + [slot])
  }

  predicate ShouldRun(w: World, t: nat, ps: seq<Pipe>, cfg: Config) {
    w.keepRunning(t) && (RequiredByOthers(ps, cfg) || cfg.required.Some?)
  }

  /** The kill branch: told to stop more than the grace period ago. */
  predicate Overdue(w: World, t: nat, p: Pipe) {
    p.stopSince.Some? && w.clock(t) - p.stopSince.value > GRACE
  }

  /** `Pipeline.manage` of pipeline `i`: all pipelines after it, the next tick, whether pipeline `i` stays. */
  function Manage(w: World, t: nat, ps: seq<Pipe>, i: nat): (r: (seq<Pipe>, nat, bool))
    requires i < |ps|
    ensures |r.0| == |ps|
  {
    var p := ps[i];
    if ShouldRun(w, t, ps, p.cfg) then
      var (ps1, t1) := ManageSlots(w, t + 1, ps, i, p.slots, []);
      var (f, t2) := PipeFinished(w, t1, ps1[i]);
      (ps1, t2, !f)
    else if Overdue(w, t + 1, p) then (ps, t + 2, false)
    else
      var p1 := if p.stopSince.None? then p.(stopSince := Some(w.clock(t + 1))) else p;
      var (f, t2) := PipeFinished(w, t + 2, p1);
      (ps[i := p1], t2, !f)
  }

  /** Pipelines `i`, `i+1`, ... in order; the list shrinks only after the sweep. */
  function Sweep(w: World, t: nat, ps: seq<Pipe>, i: nat, kept: seq<bool>): (r: (seq<Pipe>, nat, seq<bool>))
    requires i == |kept| <= |ps|
    ensures |r.0| == |ps| == |r.2|
    decreases |ps| - i
  {
    if i == |ps| then (ps, t, kept)
    else
      var (ps1, t1, stays) := Manage(w, t, ps, i);
      Sweep(w, t1, ps1, i + 1, kept + [stays])
  }

  function Select<T>(xs: seq<T>, kept: seq<bool>): seq<T>
    requires |xs| == |kept|
  {
    if xs == [] then []
    else
      var rest := Select(xs[..|xs| - 1], kept[..|xs| - 1]);
      if kept[|xs| - 1] then rest + [xs[|xs| - 1]] else rest
  }

  /** `PipelineComposition.manage`. */
  function Round(w: World, t: nat, ps: seq<Pipe>): (seq<Pipe>, nat) {
    var (ps1, t1, kept) := Sweep(w, t, ps, 0, []);
    (Select(ps1, kept), t1)
  }

  /** The composition configured by `cfgs`, before the first round. */
  function Initial(cfgs: seq<Config>): seq<Pipe> {
    seq(|cfgs|, i requires 0 <= i < |cfgs| => Fresh(i, cfgs[i]))
  }

  /** The pipelines still in the composition, and the tick, after `n` rounds. */
  function Run(w: World, cfgs: seq<Config>, n: nat): (seq<Pipe>, nat) {
    if n == 0 then (Initial(cfgs), 0)
    else
      var (ps, t) := Run(w, cfgs, n - 1);
      Round(w, t, ps)
  }
}
