/** Publishing and unpublishing volumes on a node. Every RPC runs inside its volume's lifecycle
    lock, RPCs of different volumes interleave freely on one host mount table, commands may fail
    with or without effect, and the driver may restart at any time, which loses the RPCs but not
    the mounts. */
module Publication {
  import opened MountPaths
  import opened MountRefs

  type Volume(==, !new)
  type Table = seq<Mount>

  /** Where a volume is staged: its staging path, how deep the mount containing that path is, and
      the device and the path on it that the staging path names. */
  datatype Staged = Staged(staging: Comps, depth: nat, device: string, path: Comps) {
    function Content(): (string, Root) { (device, Path(path)) }
  }

  datatype Rpc =
    | Publish(target: Comps, single: bool)
    | Unpublish(target: Comps)

  /** An RPC that holds its volume's lock. `checked` says that a publish passed the
      single-writer check. */
  datatype Inside = Inside(rpc: Rpc, checked: bool) {
    /** It relies on what the check has seen: nobody but the driver may mount the volume now. */
    predicate Relies() { checked && rpc.Publish? && rpc.single }
  }

  datatype State = State(table: Table, inside: map<Volume, Inside>)

  datatype Step =
    | Begin(v: Volume, rpc: Rpc)
    | Check(v: Volume, readable: bool)
    | Mounted(v: Volume)                            // the target is a mount point already
    | MountRuns(v: Volume, effect: bool, ok: bool)  // the bind mount command
    | Detach(v: Volume, index: nat)                 // an effect of the unmount command
    | End(v: Volume)                                // an unpublish ends, or any RPC fails
    | Restart
    | OtherMount(mount: Mount)                      // not the driver
    | OtherUnmount(index: nat)

  // ----- What the driver sees and does -----

  predicate IsMountPoint(table: Table, target: Comps) {
    exists i :: 0 <= i < |table| && table[i].target == target
  }

  /** The single-writer check on the table it reads: every reference is the requested target. */
  ghost predicate CheckPasses(table: Table, staging: Comps, target: Comps) {
    var r := BindRefs(ShowAll(table), Render(staging));
    r.Refs? && forall t :: t in r.targets ==> t == Render(target)
  }

  /** A mount at `target` cannot change what the staging path names: it is not between the mount
      that contains the staging path and the staging path itself. */
  predicate Apart(c: Staged, target: Comps) {
    target <= c.staging ==> |target| < c.depth
  }

  function Without(table: Table, i: nat): Table
    requires i < |table|
  {
    table[..i] + table[i + 1..]
  }

  ghost predicate Enabled(cfg: map<Volume, Staged>, s: State, step: Step) {
    match step
    case Begin(v, rpc) =>
      && v in cfg && v !in s.inside   // the lifecycle lock
      && AreComponents(rpc.target) && forall w :: w in cfg ==> Apart(cfg[w], rpc.target)
    case Check(v, _) => v in cfg && v in s.inside && s.inside[v].rpc.Publish? && !s.inside[v].checked
    case Mounted(v) => v in cfg && v in s.inside && s.inside[v].rpc.Publish? && s.inside[v].checked
                       && IsMountPoint(s.table, s.inside[v].rpc.target)
    case MountRuns(v, effect, ok) => v in cfg && v in s.inside && s.inside[v].rpc.Publish? && s.inside[v].checked
                                     && !IsMountPoint(s.table, s.inside[v].rpc.target) && (ok ==> effect)
    case Detach(v, i) => v in cfg && v in s.inside && s.inside[v].rpc.Unpublish? && i < |s.table|
                         && s.inside[v].rpc.target <= s.table[i].target
                         && forall w :: w in cfg ==> Apart(cfg[w], s.table[i].target)
    case End(v) => v in s.inside
    case Restart => true
    case OtherMount(m) =>
      CleanMount(m) && forall w :: w in cfg ==>
        Apart(cfg[w], m.target) && ((m.device, m.root) == cfg[w].Content() ==> !(w in s.inside && s.inside[w].Relies()))
    case OtherUnmount(i) => i < |s.table| && forall w :: w in cfg ==> Apart(cfg[w], s.table[i].target)
  }

  ghost function Next(cfg: map<Volume, Staged>, s: State, step: Step): State
    requires Enabled(cfg, s, step)
  {
    match step
    case Begin(v, rpc) => s.(inside := s.inside[v := Inside(rpc, false)])
    case Check(v, readable) =>
      var rpc := s.inside[v].rpc;
      if !rpc.single || (readable && CheckPasses(s.table, cfg[v].staging, rpc.target)) then
        s.(inside := s.inside[v := Inside(rpc, true)])
      else
        s.(inside := s.inside - {v})
    case Mounted(v) => s.(inside := s.inside - {v})
    case MountRuns(v, effect, ok) =>
      State(if effect then s.table + [BindOf(cfg[v], s.inside[v].rpc.target)] else s.table, s.inside - {v})
    case Detach(v, i) => s.(table := Without(s.table, i))
    case End(v) => s.(inside := s.inside - {v})
    case Restart => s.(inside := map[])
    case OtherMount(m) => s.(table := s.table + [m])
    case OtherUnmount(i) => s.(table := Without(s.table, i))
  }

  /** The mount that `mount -o bind` makes of what the staging path names. */
  function BindOf(c: Staged, target: Comps): Mount { Mount(c.device, Path(c.path), target) }

  /** The step answers a publish with success. */
  predicate Succeeds(step: Step) { step.Mounted? || (step.MountRuns? && step.ok) }

  // ----- What a volume is published at -----

  /** The staging path names the volume's content, by way of a containing mount at the configured depth. */
  ghost predicate Names(table: Table, c: Staged) {
    exists k ::
      IsDeepest(table, c.staging, k) && |table[k].target| == c.depth && Origin(table, c.staging, k) == c.Content()
  }

  /** The mount points other than the staging path of what is staged. */
  function Published(table: Table, c: Staged): set<Comps> {
    set i | 0 <= i < |table| && (table[i].device, table[i].root) == c.Content() && table[i].target != c.staging ::
      table[i].target
  }

  lemma DeepestIsUnique(table: Table, source: Comps, k: int, l: int)
    requires IsDeepest(table, source, k) && IsDeepest(table, source, l)
    ensures k == l
  {
  }

  /** The check is exact: it passes when the volume is published nowhere else, and only then. */
  lemma CheckIsExact(table: Table, c: Staged, target: Comps)
    requires CleanTable(table) && AreComponents(c.staging) && AreComponents(target) && Names(table, c)
    ensures CheckPasses(table, c.staging, target) <==> Published(table, c) <= {target}
  {
    var k :| IsDeepest(table, c.staging, k) && |table[k].target| == c.depth &&
             Origin(table, c.staging, k) == c.Content();
    BindRefsMeaning(table, c.staging);
    hide BindRefs, IsDeepest, Origin, CleanTable, ShowAll, Render;
    var r := BindRefs(ShowAll(table), Render(c.staging));
    if CheckPasses(table, c.staging, target) {
      forall t | t in Published(table, c) ensures t == target {
        assert IsRef(table, c.staging, k, t);
        assert Render(t) in r.targets;
        RenderInjective(t, target);
      }
    }
    if Published(table, c) <= {target} {
      forall u | u in r.targets ensures u == Render(target) {
        assert IsClean(u);
        var t :| AreComponents(t) && u == Render(t);
        assert IsRef(table, c.staging, k, t);
        assert t in Published(table, c);
      }
    }
  }

  // ----- How the table's changes show -----

  lemma AppendKeepsName(table: Table, c: Staged, m: Mount)
    requires Names(table, c) && Apart(c, m.target)
    ensures Names(table + [m], c)
  {
    var k :| IsDeepest(table, c.staging, k) && |table[k].target| == c.depth &&
             Origin(table, c.staging, k) == c.Content();
    var t := table + [m];
    assert t[k] == table[k];
    assert forall j :: 0 <= j < |table| ==> t[j] == table[j];
    assert IsDeepest(t, c.staging, k);
    assert Origin(t, c.staging, k) == c.Content();
  }

  lemma RemoveKeepsName(table: Table, c: Staged, i: nat)
    requires i < |table| && Names(table, c) && Apart(c, table[i].target)
    ensures Names(Without(table, i), c)
  {
    var k :| IsDeepest(table, c.staging, k) && |table[k].target| == c.depth &&
             Origin(table, c.staging, k) == c.Content();
    var t := Without(table, i);
    var k' := if k < i then k else k - 1;
    assert k != i;
    assert t[k'] == table[k];
    forall j | 0 <= j < |t| && t[j].target <= c.staging
      ensures |t[j].target| < |t[k'].target| || (|t[j].target| == |t[k'].target| && j <= k')
    {
      assert t[j] == table[if j < i then j else j + 1];
    }
    assert IsDeepest(t, c.staging, k');
    assert Origin(t, c.staging, k') == c.Content();
  }

  lemma AppendPublishes(table: Table, c: Staged, m: Mount)
    ensures Published(table + [m], c) == Published(table, c)
              + if (m.device, m.root) == c.Content() && m.target != c.staging then {m.target} else {}
  {
    var t := table + [m];
    assert t[|table|] == m;
    forall p | p in Published(table, c) ensures p in Published(t, c) {
      var i :| 0 <= i < |table| && (table[i].device, table[i].root) == c.Content() && table[i].target != c.staging &&
               table[i].target == p;
      assert t[i] == table[i];
    }
  }

  lemma RemoveOnlyUnpublishes(table: Table, c: Staged, i: nat)
    requires i < |table|
    ensures Published(Without(table, i), c) <= Published(table, c)
  {
    var t := Without(table, i);
    forall p | p in Published(t, c) ensures p in Published(table, c) {
      var j :| 0 <= j < |t| && (t[j].device, t[j].root) == c.Content() && t[j].target != c.staging && t[j].target == p;
      assert t[j] == table[if j < i then j else j + 1];
    }
  }

  // ----- The invariant and the runs -----

  ghost predicate Sane(cfg: map<Volume, Staged>) {
    && (forall v :: v in cfg ==> AreComponents(cfg[v].staging) && AreComponents(cfg[v].path))
    && (forall v, w :: v in cfg && w in cfg && cfg[v].Content() == cfg[w].Content() ==> v == w)
  }

  /** The state of one volume: an RPC that passed the single-writer check still has the volume
      to itself. */
  ghost predicate VolumeInv(table: Table, c: Staged, inside: Inside) {
    && AreComponents(inside.rpc.target)
    && (inside.Relies() ==> Published(table, c) <= {inside.rpc.target})
  }

  ghost predicate Inv(cfg: map<Volume, Staged>, s: State) {
    && CleanTable(s.table)
    && (forall v :: v in cfg ==> Names(s.table, cfg[v]))
    && (forall v :: v in s.inside ==> v in cfg && VolumeInv(s.table, cfg[v], s.inside[v])
                                      && forall w :: w in cfg ==> Apart(cfg[w], s.inside[v].rpc.target))
  }

  lemma AppendKeepsNames(cfg: map<Volume, Staged>, s: State, m: Mount)
    requires Inv(cfg, s) && CleanMount(m)
    requires forall w :: w in cfg ==> Apart(cfg[w], m.target)
    ensures CleanTable(s.table + [m]) && forall v :: v in cfg ==> Names(s.table + [m], cfg[v])
  {
    forall v | v in cfg ensures Names(s.table + [m], cfg[v]) { AppendKeepsName(s.table, cfg[v], m); }
  }

  lemma RemoveKeeps(cfg: map<Volume, Staged>, s: State, i: nat)
    requires Inv(cfg, s) && i < |s.table| && forall w :: w in cfg ==> Apart(cfg[w], s.table[i].target)
    ensures Inv(cfg, s.(table := Without(s.table, i)))
  {
    forall v | v in cfg ensures Names(Without(s.table, i), cfg[v]) { RemoveKeepsName(s.table, cfg[v], i); }
    forall v | v in s.inside ensures VolumeInv(Without(s.table, i), cfg[v], s.inside[v]) {
      RemoveOnlyUnpublishes(s.table, cfg[v], i);
    }
  }

  lemma MountKeeps(cfg: map<Volume, Staged>, s: State, step: Step)
    requires Sane(cfg) && Inv(cfg, s) && Enabled(cfg, s, step) && step.MountRuns?
    ensures Inv(cfg, Next(cfg, s, step))
  {
    var t := Next(cfg, s, step);
    var m := BindOf(cfg[step.v], s.inside[step.v].rpc.target);
    if step.effect {
      AppendKeepsNames(cfg, s, m);
      forall w | w in t.inside ensures VolumeInv(t.table, cfg[w], t.inside[w]) {
        AppendPublishes(s.table, cfg[w], m);
        assert cfg[w].Content() != cfg[step.v].Content();
      }
    }
  }

  lemma CheckKeeps(cfg: map<Volume, Staged>, s: State, step: Step)
    requires Sane(cfg) && Inv(cfg, s) && Enabled(cfg, s, step) && step.Check?
    ensures Inv(cfg, Next(cfg, s, step))
  {
    hide Names, CheckPasses, Apart, Published, CleanTable;
    CleanInputs(cfg, s, step.v);
    CheckIsExact(s.table, cfg[step.v], s.inside[step.v].rpc.target);
  }

  lemma CleanInputs(cfg: map<Volume, Staged>, s: State, v: Volume)
    requires Sane(cfg) && Inv(cfg, s) && v in cfg && v in s.inside
    ensures CleanTable(s.table) && Names(s.table, cfg[v])
    ensures AreComponents(cfg[v].staging) && AreComponents(s.inside[v].rpc.target)
  {
  }

  lemma OtherMountKeeps(cfg: map<Volume, Staged>, s: State, step: Step)
    requires Sane(cfg) && Inv(cfg, s) && Enabled(cfg, s, step) && step.OtherMount?
    ensures Inv(cfg, Next(cfg, s, step))
  {
    var t := Next(cfg, s, step);
    AppendKeepsNames(cfg, s, step.mount);
    forall w | w in s.inside ensures VolumeInv(t.table, cfg[w], t.inside[w]) {
      AppendPublishes(s.table, cfg[w], step.mount);
    }
  }

  lemma LocalStepKeeps(cfg: map<Volume, Staged>, s: State, step: Step)
    requires Sane(cfg) && Inv(cfg, s) && Enabled(cfg, s, step)
    requires step.Begin? || step.Mounted? || step.End? || step.Restart?
    ensures Inv(cfg, Next(cfg, s, step))
  {
  }

  /** Every step keeps the invariant. */
  lemma StepKeeps(cfg: map<Volume, Staged>, s: State, step: Step)
    requires Sane(cfg) && Inv(cfg, s) && Enabled(cfg, s, step)
    ensures Inv(cfg, Next(cfg, s, step))
  {
    hide Inv, Sane;
    match step
    case Check(_, _) => CheckKeeps(cfg, s, step);
    case MountRuns(_, _, _) => MountKeeps(cfg, s, step);
    case Detach(_, i) => RemoveKeeps(cfg, s, i);
    case OtherUnmount(i) => RemoveKeeps(cfg, s, i);
    case OtherMount(m) => OtherMountKeeps(cfg, s, step);
    case _ => LocalStepKeeps(cfg, s, step);
  }

  /** When a single-writer publish succeeds, the volume is published at its target at most. */
  lemma SuccessIsExclusive(cfg: map<Volume, Staged>, s: State, step: Step)
    requires Sane(cfg) && Inv(cfg, s) && Enabled(cfg, s, step) && Succeeds(step)
    requires s.inside[step.v].rpc.single
    ensures Published(Next(cfg, s, step).table, cfg[step.v]) <= {s.inside[step.v].rpc.target}
  {
    if step.MountRuns? {
      AppendPublishes(s.table, cfg[step.v], BindOf(cfg[step.v], s.inside[step.v].rpc.target));
    }
  }

  /** A publish that succeeds has its target published, whoever mounted it: if it ran the mount command,
      its own target, with the volume's content; and if it found a mount there, that is where it is. */
  lemma SuccessPublishes(cfg: map<Volume, Staged>, s: State, step: Step)
    requires Enabled(cfg, s, step) && Succeeds(step)
    ensures var t, target := Next(cfg, s, step), s.inside[step.v].rpc.target;
            && step.v !in t.inside && IsMountPoint(t.table, target)
            && (step.MountRuns? && target != cfg[step.v].staging ==> target in Published(t.table, cfg[step.v]))
            && (forall m :: m in s.table ==> m in t.table)
  {
    var t, target := Next(cfg, s, step), s.inside[step.v].rpc.target;
    if step.MountRuns? {
      AppendPublishes(s.table, cfg[step.v], BindOf(cfg[step.v], target));
      assert t.table[|s.table|] == BindOf(cfg[step.v], target);
    }
  }

  /** What the single-writer check lets through: a publish that allows several writers, and otherwise
      one whose volume is published nowhere but at the target, on a table that could be read. */
  lemma CheckDecidesIff(cfg: map<Volume, Staged>, s: State, step: Step)
    requires Sane(cfg) && Inv(cfg, s) && Enabled(cfg, s, step) && step.Check?
    ensures var t, rpc := Next(cfg, s, step), s.inside[step.v].rpc;
            && t.table == s.table
            && t.inside == (if !rpc.single || (step.readable && Published(s.table, cfg[step.v]) <= {rpc.target})
                            then s.inside[step.v := Inside(rpc, true)] else s.inside - {step.v})
  {
    CleanInputs(cfg, s, step.v);
    hide Inv, Sane, Names, CheckPasses, Apart, Published, CleanTable;
    CheckIsExact(s.table, cfg[step.v], s.inside[step.v].rpc.target);
  }

  /** An RPC goes on undisturbed until a step of its own volume or a restart. */
  lemma OthersLeaveRpcAlone(cfg: map<Volume, Staged>, s: State, step: Step, v: Volume)
    requires Enabled(cfg, s, step) && v in s.inside && !step.Restart?
    requires step.Check? || step.Mounted? || step.MountRuns? || step.End? ==> step.v != v
    ensures v in Next(cfg, s, step).inside && Next(cfg, s, step).inside[v] == s.inside[v]
  {
  }

  ghost predicate CanTake(cfg: map<Volume, Staged>, s: State, steps: seq<Step>)
    decreases |steps|
  {
    steps == [] || (Enabled(cfg, s, steps[0]) && CanTake(cfg, Next(cfg, s, steps[0]), steps[1..]))
  }

  ghost function After(cfg: map<Volume, Staged>, s: State, steps: seq<Step>): State
    requires CanTake(cfg, s, steps)
    decreases |steps|
  {
    if steps == [] then s else After(cfg, Next(cfg, s, steps[0]), steps[1..])
  }

  lemma TakeFirst(cfg: map<Volume, Staged>, s: State, step: Step, steps: seq<Step>)
    requires Enabled(cfg, s, step) && CanTake(cfg, Next(cfg, s, step), steps)
    ensures CanTake(cfg, s, [step] + steps)
    ensures After(cfg, s, [step] + steps) == After(cfg, Next(cfg, s, step), steps)
  {
    assert ([step] + steps)[1..] == steps;
  }

  lemma {:induction false} TakeBoth(cfg: map<Volume, Staged>, s: State, steps: seq<Step>, more: seq<Step>)
    requires CanTake(cfg, s, steps) && CanTake(cfg, After(cfg, s, steps), more)
    ensures CanTake(cfg, s, steps + more)
    ensures After(cfg, s, steps + more) == After(cfg, After(cfg, s, steps), more)
    decreases |steps|
  {
    if steps == [] {
      assert steps + more == more;
    } else {
      TakeBoth(cfg, Next(cfg, s, steps[0]), steps[1..], more);
      assert steps + more == [steps[0]] + (steps[1..] + more);
    }
  }

  /** Nothing keeps a publish from being made: no RPC of the volume runs, and with a single writer the
      volume is published nowhere else. */
  ghost predicate CanPublish(cfg: map<Volume, Staged>, s: State, v: Volume, target: Comps, single: bool) {
    && Sane(cfg) && Inv(cfg, s) && v in cfg && v !in s.inside
    && AreComponents(target) && (forall w :: w in cfg ==> Apart(cfg[w], target))
    && (single ==> Published(s.table, cfg[v]) <= {target})
  }

  function Publishing(v: Volume, target: Comps, single: bool, mounting: Step): seq<Step> {
    [Begin(v, Publish(target, single)), Check(v, true), mounting]
  }

  lemma BeginsAndPasses(cfg: map<Volume, Staged>, s: State, v: Volume, target: Comps, single: bool)
    requires CanPublish(cfg, s, v, target, single)
    ensures var rpc := Publish(target, single);
            var s1 := State(s.table, s.inside[v := Inside(rpc, false)]);
            var s2 := State(s.table, s.inside[v := Inside(rpc, true)]);
            && Enabled(cfg, s, Begin(v, rpc)) && Next(cfg, s, Begin(v, rpc)) == s1
            && Enabled(cfg, s1, Check(v, true)) && Next(cfg, s1, Check(v, true)) == s2
  {
    hide Published, CheckPasses, Names, CleanTable, Apart;
    var rpc := Publish(target, single);
    StepKeeps(cfg, s, Begin(v, rpc));
    CheckDecidesIff(cfg, Next(cfg, s, Begin(v, rpc)), Check(v, true));
  }

  /** The publish gets to its mount command. */
  lemma CheckPassed(cfg: map<Volume, Staged>, s: State, v: Volume, target: Comps, single: bool, mounting: Step)
    requires CanPublish(cfg, s, v, target, single)
    requires var ready := State(s.table, s.inside[v := Inside(Publish(target, single), true)]);
             Enabled(cfg, ready, mounting)
    ensures var ready := State(s.table, s.inside[v := Inside(Publish(target, single), true)]);
            && CanTake(cfg, s, Publishing(v, target, single, mounting))
            && After(cfg, s, Publishing(v, target, single, mounting)) == Next(cfg, ready, mounting)
  {
    var begin, check, rpc := Begin(v, Publish(target, single)), Check(v, true), Publish(target, single);
    var s1, s2 := State(s.table, s.inside[v := Inside(rpc, false)]), State(s.table, s.inside[v := Inside(rpc, true)]);
    BeginsAndPasses(cfg, s, v, target, single);
    assert CanTake(cfg, Next(cfg, s2, mounting), []);
    hide Enabled, Next, CanPublish, CanTake;
    TakeFirst(cfg, s2, mounting, []);
    TakeFirst(cfg, s1, check, [mounting]);
    TakeFirst(cfg, s, begin, [check, mounting]);
  }

  /** At a free target it can be carried out, and mounts the target and nothing else, whether or not
      the mount command reports an error. */
  lemma PublishWorks(cfg: map<Volume, Staged>, s: State, v: Volume, target: Comps, single: bool, ok: bool)
    requires CanPublish(cfg, s, v, target, single) && !IsMountPoint(s.table, target)
    ensures CanTake(cfg, s, Publishing(v, target, single, MountRuns(v, true, ok)))
    ensures After(cfg, s, Publishing(v, target, single, MountRuns(v, true, ok))) ==
              State(s.table + [BindOf(cfg[v], target)], s.inside)
  {
    CheckPassed(cfg, s, v, target, single, MountRuns(v, true, ok));
    var inside := Inside(Publish(target, single), true);
    assert s.inside[v := inside] - {v} == s.inside;
  }

  lemma {:induction false} TakesKeep(cfg: map<Volume, Staged>, s: State, steps: seq<Step>)
    requires Sane(cfg) && Inv(cfg, s) && CanTake(cfg, s, steps)
    ensures Inv(cfg, After(cfg, s, steps))
    decreases |steps|
  {
    if steps != [] {
      StepKeeps(cfg, s, steps[0]);
      TakesKeep(cfg, Next(cfg, s, steps[0]), steps[1..]);
    }
  }

  lemma CanStillPublish(cfg: map<Volume, Staged>, s: State, v: Volume, target: Comps, single: bool)
    requires CanPublish(cfg, s, v, target, single) && !IsMountPoint(s.table, target)
    ensures var lost := State(s.table + [BindOf(cfg[v], target)], map[]);
            && CanPublish(cfg, lost, v, target, single) && IsMountPoint(lost.table, target)
            && Enabled(cfg, State(lost.table, lost.inside[v := Inside(Publish(target, single), true)]), Mounted(v))
  {
    var m, first := BindOf(cfg[v], target), Publishing(v, target, single, MountRuns(v, true, false));
    PublishWorks(cfg, s, v, target, single, false);
    AppendPublishes(s.table, cfg[v], m);
    assert (s.table + [m])[|s.table|] == m;
    hide Published, Names, CleanTable, Apart, CanTake, After, Publishing;
    TakesKeep(cfg, s, first);
    StepKeeps(cfg, State(s.table + [m], s.inside), Restart);
  }

  /** A publish whose mount took effect although the command failed, and whose driver then restarted,
      succeeds when it is repeated, and mounts nothing more. */
  lemma RepeatedPublishSucceeds(cfg: map<Volume, Staged>, s: State, v: Volume, target: Comps, single: bool)
    requires CanPublish(cfg, s, v, target, single) && !IsMountPoint(s.table, target)
    ensures var steps := Publishing(v, target, single, MountRuns(v, true, false)) +
                         ([Restart] + Publishing(v, target, single, Mounted(v)));
            && CanTake(cfg, s, steps)
            && After(cfg, s, steps) == State(s.table + [BindOf(cfg[v], target)], map[])
  {
    var m, first, second := BindOf(cfg[v], target), Publishing(v, target, single, MountRuns(v, true, false)),
                            Publishing(v, target, single, Mounted(v));
    var mounted, lost := State(s.table + [m], s.inside), State(s.table + [m], map[]);
    PublishWorks(cfg, s, v, target, single, false);
    CanStillPublish(cfg, s, v, target, single);
    CheckPassed(cfg, lost, v, target, single, Mounted(v));
    assert lost.inside[v := Inside(Publish(target, single), true)] - {v} == map[];
    assert After(cfg, lost, second) == lost;
    assert Enabled(cfg, mounted, Restart) && Next(cfg, mounted, Restart) == lost;
    hide Enabled, Next, CanPublish, CanTake, After, Publishing;
    TakeFirst(cfg, mounted, Restart, second);
    TakeBoth(cfg, s, first, [Restart] + second);
  }

  /** Publishing and unpublishing again gives back the host's mounts. */
  lemma UnpublishUndoesPublish(cfg: map<Volume, Staged>, s: State, v: Volume, target: Comps, single: bool)
    requires CanPublish(cfg, s, v, target, single) && !IsMountPoint(s.table, target)
    ensures var steps := Publishing(v, target, single, MountRuns(v, true, true)) +
                         [Begin(v, Unpublish(target)), Detach(v, |s.table|), End(v)];
            CanTake(cfg, s, steps) && After(cfg, s, steps) == s
  {
    var m, rpc, first := BindOf(cfg[v], target), Unpublish(target),
                         Publishing(v, target, single, MountRuns(v, true, true));
    PublishWorks(cfg, s, v, target, single, true);
    var t := s.table + [m];
    var begin, detach, end := Begin(v, rpc), Detach(v, |s.table|), End(v);
    var s0, s1, s2 := State(t, s.inside), State(t, s.inside[v := Inside(rpc, false)]),
                      State(s.table, s.inside[v := Inside(rpc, false)]);
    assert t[|s.table|] == m && Without(t, |s.table|) == s.table;
    assert Enabled(cfg, s0, begin) && Next(cfg, s0, begin) == s1;
    assert Enabled(cfg, s1, detach) && Next(cfg, s1, detach) == s2;
    assert s2.inside - {v} == s.inside;
    assert Enabled(cfg, s2, end) && Next(cfg, s2, end) == s;
    hide Enabled, Next, CanPublish, CanTake, After, Publishing;
    TakeFirst(cfg, s2, end, []);
    TakeFirst(cfg, s1, detach, [end]);
    TakeFirst(cfg, s0, begin, [detach, end]);
    TakeBoth(cfg, s, first, [begin, detach, end]);
  }

  ghost predicate IsRun(cfg: map<Volume, Staged>, states: seq<State>, steps: seq<Step>) {
    && |states| == |steps| + 1
    && CleanTable(states[0].table) && states[0].inside == map[]
    && (forall v :: v in cfg ==> Names(states[0].table, cfg[v]))
    && forall i :: 0 <= i < |steps| ==>
         Enabled(cfg, states[i], steps[i]) && states[i + 1] == Next(cfg, states[i], steps[i])
  }

  lemma {:induction false} RunKeeps(cfg: map<Volume, Staged>, states: seq<State>, steps: seq<Step>, i: nat)
    requires Sane(cfg) && IsRun(cfg, states, steps) && i < |states|
    ensures Inv(cfg, states[i])
  {
    if i > 0 {
      RunKeeps(cfg, states, steps, i - 1);
      assert states[i - 1 + 1] == Next(cfg, states[i - 1], steps[i - 1]);
      StepKeeps(cfg, states[i - 1], steps[i - 1]);
    }
  }

  /** Main result: at the moment any single-writer publish succeeds, the targets mounted from the
      staged source are a subset of that target, whatever interleaved, failed or restarted. */
  lemma SingleWriterIsExclusive(cfg: map<Volume, Staged>, states: seq<State>, steps: seq<Step>, i: nat)
    requires Sane(cfg) && IsRun(cfg, states, steps) && i < |steps|
    requires Succeeds(steps[i]) && states[i].inside[steps[i].v].rpc.single
    ensures Published(states[i + 1].table, cfg[steps[i].v]) <= {states[i].inside[steps[i].v].rpc.target}
  {
    RunKeeps(cfg, states, steps, i);
    SuccessIsExclusive(cfg, states[i], steps[i]);
  }

  /** At most one of the volume's targets is mounted. */
  ghost predicate AtMostOne(table: Table, c: Staged) {
    forall p, q :: p in Published(table, c) && q in Published(table, c) ==> p == q
  }

  lemma MountKeepsAtMostOne(cfg: map<Volume, Staged>, s: State, step: Step, v: Volume)
    requires Sane(cfg) && Inv(cfg, s) && Enabled(cfg, s, step) && v in cfg && step.MountRuns?
    requires AtMostOne(s.table, cfg[v])
    requires v in s.inside && s.inside[v].rpc.Publish? ==> s.inside[v].rpc.single
    ensures AtMostOne(Next(cfg, s, step).table, cfg[v])
  {
    hide Names, CleanTable, Apart;
    AppendPublishes(s.table, cfg[v], BindOf(cfg[step.v], s.inside[step.v].rpc.target));
    if step.v != v {
      assert cfg[step.v].Content() != cfg[v].Content();
    } else {
      assert VolumeInv(s.table, cfg[v], s.inside[v]);
    }
  }

  /** A volume published at most once stays so when the RPC inside, if it publishes, is a
      single-writer one. */
  lemma StepKeepsAtMostOne(cfg: map<Volume, Staged>, s: State, step: Step, v: Volume)
    requires Sane(cfg) && Inv(cfg, s) && Enabled(cfg, s, step) && v in cfg
    requires AtMostOne(s.table, cfg[v])
    requires v in s.inside && s.inside[v].rpc.Publish? ==> s.inside[v].rpc.single
    requires step.OtherMount? ==> (step.mount.device, step.mount.root) != cfg[v].Content()
    ensures AtMostOne(Next(cfg, s, step).table, cfg[v])
  {
    hide Sane, Inv, Names, CleanTable, Apart;
    match step
    case MountRuns(_, _, _) => MountKeepsAtMostOne(cfg, s, step, v);
    case OtherMount(m) => AppendPublishes(s.table, cfg[v], m);
    case Detach(_, k) => RemoveOnlyUnpublishes(s.table, cfg[v], k);
    case OtherUnmount(k) => RemoveOnlyUnpublishes(s.table, cfg[v], k);
    case _ =>
  }

  /** If every publish of a volume asks for a single writer, and nobody but the driver mounts it, it
      has at most one target in every state of the run, even between a failed command and its
      retry. */
  lemma {:induction false} SingleWriterIsInvariant(cfg: map<Volume, Staged>, states: seq<State>, steps: seq<Step>,
                                                   v: Volume, i: nat)
    requires Sane(cfg) && IsRun(cfg, states, steps) && i < |states| && v in cfg
    requires forall j :: 0 <= j < |steps| && steps[j].Begin? && steps[j].v == v && steps[j].rpc.Publish? ==>
               steps[j].rpc.single
    requires forall j :: 0 <= j < |steps| && steps[j].OtherMount? ==>
               (steps[j].mount.device, steps[j].mount.root) != cfg[v].Content()
    requires AtMostOne(states[0].table, cfg[v])
    ensures AtMostOne(states[i].table, cfg[v])
    ensures v in states[i].inside && states[i].inside[v].rpc.Publish? ==> states[i].inside[v].rpc.single
  {
    if i > 0 {
      SingleWriterIsInvariant(cfg, states, steps, v, i - 1);
      RunKeeps(cfg, states, steps, i - 1);
      var s, step := states[i - 1], steps[i - 1];
      assert states[i - 1 + 1] == Next(cfg, s, step) && Enabled(cfg, s, step);
      StepKeepsAtMostOne(cfg, s, step, v);
      if v in states[i].inside { InsideComesFromBegin(cfg, s, step, v); }
    }
  }

  lemma InsideComesFromBegin(cfg: map<Volume, Staged>, s: State, step: Step, v: Volume)
    requires Enabled(cfg, s, step) && v in Next(cfg, s, step).inside
    ensures if step.Begin? && step.v == v then Next(cfg, s, step).inside[v].rpc == step.rpc
            else v in s.inside && Next(cfg, s, step).inside[v].rpc == s.inside[v].rpc
  {
  }

  // ----- Why targets must stay apart from the staging path -----

  /** Binding onto a place between the containing mount and the staging path changes what the
      staging path names, and binding anywhere else outside it does not. */
  lemma ApartIsNeeded(table: Table, c: Staged, target: Comps)
    requires Names(table, c) && target != c.staging
    ensures Names(table + [BindOf(c, target)], c) <==> Apart(c, target)
  {
    if Apart(c, target) {
      AppendKeepsName(table, c, BindOf(c, target));
    } else {
      var k :| IsDeepest(table, c.staging, k) && |table[k].target| == c.depth &&
               Origin(table, c.staging, k) == c.Content();
      var t := table + [BindOf(c, target)];
      assert forall j :: 0 <= j < |table| ==> t[j] == table[j];
      assert IsDeepest(t, c.staging, |table|);
      forall l | IsDeepest(t, c.staging, l) ensures Origin(t, c.staging, l) != c.Content() {
        DeepestIsUnique(t, c.staging, l, |table|);
        assert |Origin(t, c.staging, l).1.comps| > |c.path|;
      }
    }
  }
}
