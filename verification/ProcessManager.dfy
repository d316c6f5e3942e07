/** The process manager's objects; each method is proved to do what `Scheduling` says. */
module ProcessManager {
  import opened Wrappers
  import opened Scheduling
  import opened StartingProofs

  /** The `instances` setting: `"*"`, a number, or not there. */
  datatype Instances = Star | Fixed(n: nat) | Unset

  /** The `parallel` setting: a number, a flag asking for as many as there are instances, or not there. */
  datatype Parallel = Count(n: nat) | Flag(on: bool) | Absent

  /** One entry of the `pipelines` list of the configuration. */
  datatype Settings = Settings(identity: Identity, requiredBy: seq<Identity>, instances: Instances, parallel: Parallel)
  {
    predicate Valid() {
      (instances.Fixed? ==> instances.n > 0) && (parallel.Count? ==> parallel.n > 0)
    }

    function Config(): (c: Scheduling.Config)
      ensures Valid() ==> c.Valid()
      ensures parallel.Flag? ==> if instances.Star? then c.parallel == 1 else c.required == Some(c.parallel)
      ensures parallel.Count? ==> c.parallel == parallel.n
    {
      var required := match instances
        case Star => None
        case Fixed(n) => Some(n)
        case Unset => Some(1);
      var slots := match parallel
        case Count(n) => n
        case Flag(_) => if required.Some? then required.value else 1
        case Absent => 1;
      Scheduling.Config(identity, requiredBy, required, slots)
    }
  }

  /**
    What the settings of a composition come to: who waits for whom, who runs for
    ever, and one instance in one slot unless something else is asked for.
   */
  lemma ConfiguredAsSet(settings: seq<Settings>, x: nat, y: nat)
    requires x < |settings|
    ensures WaitsFor(Configs(settings), x, y) <==> y < |settings| && settings[x].identity in settings[y].requiredBy
    ensures Configs(settings)[x].required.None? <==> settings[x].instances == Star
    ensures forall n: nat :: settings[x].instances == Fixed(n) ==> Configs(settings)[x].required == Some(n)
    ensures settings[x].instances == Unset ==> Configs(settings)[x].required == Some(1)
    ensures settings[x].parallel == Absent ==> Configs(settings)[x].parallel == 1
  {
  }

  class Pipeline {
    const id: nat
    const cfg: Config
    var instances: seq<Option<nat>>
    var instanceCounter: nat
    var terminationStart: Option<real>
    ghost var started: seq<nat>

    ghost function Snap(): Pipe
      reads this
    {
      Pipe(id, cfg, instances, instanceCounter, started, terminationStart)
    }

    constructor (id: nat, settings: Settings)
      requires settings.Valid()
      ensures this.id == id && cfg == settings.Config() && Snap() == Fresh(id, cfg)
    {
      this.id := id;
      cfg := settings.Config();
      instances := seq(settings.Config().parallel, _ => None);
      instanceCounter := 0;
      terminationStart := None;
      started := [];
    }

    method IsActive(w: World, t: nat) returns (active: bool, t1: nat)
      ensures (active, t1) == PipeActive(w, t, Snap())
    {
      t1 := t;
      if |instances| == 0 { return false, t; }
      var k := 0;
      while k < |instances|
        invariant k <= |instances|
        invariant SlotsActive(w, t1, id, instances[k..]) == SlotsActive(w, t, id, instances)
      {
        assert instances[k..][1..] == instances[k + 1..];
        if instances[k].None? { return false, t1; }
        t1 := t1 + 1;
        if w.status(t1 - 1, id, instances[k].value) != Active { return false, t1; }
        k := k + 1;
      }
      active := true;
    }

    method AreInstancesFinished(w: World, t: nat) returns (finished: bool, t1: nat)
      ensures (finished, t1) == SlotsFinished(w, t, id, instances)
    {
      t1 := t;
      var k := 0;
      while k < |instances|
        invariant k <= |instances|
        invariant SlotsFinished(w, t1, id, instances[k..]) == SlotsFinished(w, t, id, instances)
      {
        assert instances[k..][1..] == instances[k + 1..];
        if instances[k].Some? {
          t1 := t1 + 1;
          if w.status(t1 - 1, id, instances[k].value) != Finished { return false, t1; }
        }
        k := k + 1;
      }
      finished := true;
    }

    method IsFinished(w: World, t: nat) returns (finished: bool, t1: nat)
      ensures (finished, t1) == PipeFinished(w, t, Snap())
    {
      finished, t1 := AreInstancesFinished(w, t);
      finished := finished && cfg.required.Some? && instanceCounter >= cfg.required.value;
    }

    /** `ps` is what the pipelines are before the call, and `i` the place of this one among them. */
    method ManageInstance(parent: Composition, ghost ps: seq<Pipe>, ghost i: nat, w: World, t: nat, slot: Option<nat>)
      returns (slot1: Option<nat>, t1: nat)
      requires parent.Valid() && i < |parent.pipelines| && parent.pipelines[i] == this
      requires ps == SnapAll(parent.pipelines)
      modifies this`instanceCounter, this`started
      ensures (ps[i := Snap()], slot1, t1) == ManageSlot(w, t, ps, i, slot)
    {
      ghost var p := Snap();
      assert ps[i] == p && ps[i := p] == ps;
      slot1, t1 := slot, t;
      if slot1.Some? {
        if w.status(t1, id, slot1.value) == Finished { slot1 := None; }
        t1 := t1 + 1;
      }
      if slot1.None? && (cfg.required.None? || instanceCounter < cfg.required.value) {
        var active;
        active, t1 := parent.AreRequirementsActive(w, t1, cfg.identity);
        if active {
          slot1 := Some(instanceCounter);
          instanceCounter, started := instanceCounter + 1, started + [instanceCounter];
          assert Snap() == StartInstance(p);
        }
      }
    }

    /** Runs one round for this pipeline; false when it is to be dropped from the composition. */
    method Manage(parent: Composition, ghost ps: seq<Pipe>, ghost i: nat, w: World, t: nat)
      returns (stays: bool, t1: nat)
      requires parent.Valid() && i < |parent.pipelines| && parent.pipelines[i] == this
      requires ps == SnapAll(parent.pipelines)
      modifies this
      ensures (ps[i := Snap()], t1, stays) == Scheduling.Manage(w, t, ps, i)
    {
      var needed := parent.IsRequiredByOthers(cfg);
      assert ps[i := Snap()] == ps;
      if w.keepRunning(t) && (needed || cfg.required.Some?) {
        t1 := ManageInstances(parent, ps, i, w, t + 1);
      } else {
        if terminationStart.None? {
          terminationStart := Some(w.clock(t + 1));
        } else if w.clock(t + 1) - terminationStart.value > GRACE {
          return false, t + 2;
        }
        t1 := t + 2;
      }
      var finished;
      finished, t1 := IsFinished(w, t1);
      stays := !finished;
    }

    /** Goes through the slots in order and then replaces the slot list. */
    method ManageInstances(parent: Composition, ghost ps: seq<Pipe>, ghost i: nat, w: World, t: nat) returns (t1: nat)
      requires parent.Valid() && i < |parent.pipelines| && parent.pipelines[i] == this
      requires ps == SnapAll(parent.pipelines)
      modifies this
      ensures (ps[i := Snap()], t1) == ManageSlots(w, t, ps, i, old(instances), [])
    {
      t1 := t;
      var managed := [];
      var k := 0;
      ghost var now := ps;
      while k < |instances|
        invariant k <= |instances| && instances == old(instances)
        invariant |now| == |ps| && now == ps[i := Snap()]
        invariant ManageSlots(w, t1, now, i, instances[k..], managed) == ManageSlots(w, t, ps, i, instances, [])
      {
        assert instances[k..][1..] == instances[k + 1..];
        SnapUpdate(parent.pipelines, i, ps);
        var slot;
        slot, t1 := ManageInstance(parent, now, i, w, t1, instances[k]);
        managed := managed + [slot];
        now := now[i := Snap()];
        k := k + 1;
      }
      assert instances[k..] == [];
      instances := managed;
      assert now[i := now[i].(slots := managed)] == ps[i := Snap()];
    }
  }

  ghost function Configs(settings: seq<Settings>): seq<Config> {
    seq(|settings|, k requires 0 <= k < |settings| => settings[k].Config())
  }

  ghost function SnapAll(ps: seq<Pipeline>): (r: seq<Pipe>)
    reads ps
    ensures |r| == |ps| && forall k :: 0 <= k < |ps| ==> r[k] == ps[k].Snap()
  {
    seq(|ps|, k requires 0 <= k < |ps| reads ps => ps[k].Snap())
  }

  /** When only pipeline `i` differs from the old snapshot, the new one is an update of it. */
  lemma SnapUpdate(ps: seq<Pipeline>, i: nat, before: seq<Pipe>)
    requires i < |ps| == |before|
    requires forall k :: 0 <= k < |ps| && k != i ==> ps[k].Snap() == before[k]
    ensures SnapAll(ps) == before[i := ps[i].Snap()]
  {
  }

  class Composition {
    var pipelines: seq<Pipeline>

    ghost predicate Valid()
      reads this
    {
      forall a, b :: 0 <= a < b < |pipelines| ==> pipelines[a] != pipelines[b]
    }

    constructor (settings: seq<Settings>)
      requires forall k :: 0 <= k < |settings| ==> settings[k].Valid()
      ensures Valid() && fresh(pipelines)
      ensures SnapAll(pipelines) == Initial(Configs(settings))
    {
      pipelines := [];
      new;
      for k := 0 to |settings|
        invariant Valid() && fresh(pipelines) && |pipelines| == k
        invariant forall j :: 0 <= j < k ==> pipelines[j].Snap() == Fresh(j, settings[j].Config())
      {
        var pipeline := new Pipeline(k, settings[k]);
        pipelines := pipelines + [pipeline];
      }
    }

    method AreRequirementsActive(w: World, t: nat, identity: Identity) returns (active: bool, t1: nat)
      ensures (active, t1) == RequirementsActive(w, t, SnapAll(pipelines), identity)
    {
      t1 := t;
      var k := 0;
      ghost var ps := SnapAll(pipelines);
      while k < |pipelines|
        invariant k <= |pipelines|
        invariant RequirementsActive(w, t1, ps[k..], identity) == RequirementsActive(w, t, ps, identity)
      {
        assert ps[k..][1..] == ps[k + 1..] && ps[k..][0] == pipelines[k].Snap();
        if identity in pipelines[k].cfg.requiredBy {
          active, t1 := pipelines[k].IsActive(w, t1);
          if !active { return; }
        }
        k := k + 1;
      }
      active := true;
    }

    method IsRequiredByOthers(cfg: Config) returns (required: bool)
      ensures required == RequiredByOthers(SnapAll(pipelines), cfg)
    {
      var k := 0;
      while k < |pipelines|
        invariant k <= |pipelines|
        invariant forall b :: 0 <= b < k ==> pipelines[b].cfg.identity !in cfg.requiredBy
      {
        if pipelines[k].cfg.identity in cfg.requiredBy {
          assert SnapAll(pipelines)[k].cfg.identity in cfg.requiredBy;
          return true;
        }
        k := k + 1;
      }
      required := false;
    }

    /** One round over all pipelines; true while any are left. */
    method Manage(w: World, t: nat) returns (more: bool, t1: nat)
      requires Valid()
      modifies this, pipelines
      ensures Valid() && (forall p :: p in pipelines ==> p in old(pipelines))
      ensures (SnapAll(pipelines), t1) == Round(w, t, old(SnapAll(pipelines)))
      ensures more == (pipelines != [])
    {
      var k := 0;
      t1 := t;
      var remaining: seq<Pipeline> := [];
      ghost var kept: seq<bool> := [];
      ghost var ps0, ps := SnapAll(pipelines), SnapAll(pipelines);
      while k < |pipelines|
        invariant k == |kept| <= |pipelines| && pipelines == old(pipelines) && Valid()
        invariant ps == SnapAll(pipelines)
        invariant Sweep(w, t1, ps, k, kept) == Sweep(w, t, ps0, 0, [])
        invariant remaining == Select(pipelines[..k], kept)
      {
        var stays;
        stays, t1 := pipelines[k].Manage(this, ps, k, w, t1);
        SnapUpdate(pipelines, k, ps);
        ps := ps[k := pipelines[k].Snap()];
        assert pipelines[..k + 1][..k] == pipelines[..k] && (kept + [stays])[..k] == kept;
        if stays { remaining := remaining + [pipelines[k]]; }
        kept := kept + [stays];
        k := k + 1;
      }
      assert pipelines[..k] == pipelines;
      SelectDistinct(pipelines, kept);
      SnapSelect(pipelines, kept);
      pipelines := remaining;
      more := |pipelines| > 0;
    }
  }

  lemma {:induction false} SnapSelect(ps: seq<Pipeline>, kept: seq<bool>)
    requires |ps| == |kept|
    ensures SnapAll(Select(ps, kept)) == Select(SnapAll(ps), kept)
  {
    if ps != [] {
      var n := |ps| - 1;
      SnapSelect(ps[..n], kept[..n]);
      assert SnapAll(ps)[..n] == SnapAll(ps[..n]);
      assert forall rest: seq<Pipeline> :: SnapAll(rest + [ps[n]]) == SnapAll(rest) + [ps[n].Snap()];
    }
  }

  lemma {:induction false} SelectDistinct<T>(xs: seq<T>, kept: seq<bool>)
    requires |xs| == |kept|
    requires forall a, b :: 0 <= a < b < |xs| ==> xs[a] != xs[b]
    ensures forall a, b :: 0 <= a < b < |Select(xs, kept)| ==> Select(xs, kept)[a] != Select(xs, kept)[b]
    ensures forall x :: x in Select(xs, kept) ==> x in xs
  {
    if xs != [] {
      var n := |xs| - 1;
      SelectDistinct(xs[..n], kept[..n]);
      assert xs[n] !in xs[..n];
    }
  }

}
