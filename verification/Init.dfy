/** init() (src/init.cc), which orders and runs the modules, and what the graph shows after it. */
module Init {
  import G = Gpu
  import H = Hwloc
  import opened Invariants
  import M = Mpi
  import opened Outcomes
  import opened Runs
  import S = Supermuc
  import opened Sorting
  import opened StepNames
  import opened Topology

  datatype InitOrder = First | Second

  datatype Module = Module(initOrder: InitOrder, enabled: bool, step: Step)

  function OrderKeys(modules: seq<Module>): (keys: seq<nat>)
    ensures |keys| == |modules|
  {
    seq(|modules|, i requires 0 <= i < |modules| => if modules[i].initOrder.First? then 0 else 1)
  }

  /** The steps of the enabled modules. */
  function EnabledSteps(modules: seq<Module>): seq<Step> {
    if modules == [] then []
    else EnabledSteps(modules[..|modules| - 1])
         + (if modules[|modules| - 1].enabled then [modules[|modules| - 1].step] else [])
  }

  lemma {:induction false} EnabledAdmissible(modules: seq<Module>)
    requires forall m :: m in modules ==> Admissible(m.step)
    ensures AllAdmissible(EnabledSteps(modules))
  {
    if modules != [] {
      EnabledAdmissible(modules[..|modules| - 1]);
    }
  }

  lemma EnabledOneMore(modules: seq<Module>, i: nat)
    requires i < |modules|
    ensures EnabledSteps(modules[..i + 1]) ==
            if modules[i].enabled then EnabledSteps(modules[..i]) + [modules[i].step] else EnabledSteps(modules[..i])
  {
    assert modules[..i + 1][..i] == modules[..i];
  }

  lemma RunOneMore(order: SortOrder, modules: seq<Module>, i: nat)
    requires Sorts(order) && i < |modules| && forall m :: m in modules ==> Admissible(m.step)
    ensures AllAdmissible(EnabledSteps(modules[..i])) && AllAdmissible(EnabledSteps(modules[..i + 1]))
    ensures Run(order, EnabledSteps(modules[..i + 1])) ==
            if modules[i].enabled then RunStep(Run(order, EnabledSteps(modules[..i])), order, modules[i].step)
            else Run(order, EnabledSteps(modules[..i]))
  {
    EnabledAdmissible(modules[..i]);
    EnabledAdmissible(modules[..i + 1]);
    EnabledOneMore(modules, i);
    if modules[i].enabled {
      RunSnoc(order, EnabledSteps(modules[..i]), modules[i].step);
    }
  }

  /** Runs one module on the graph. */
  method Execute(g: Graph, order: SortOrder, step: Step)
    requires Inv(g.View()) && Sorts(order) && Admissible(step)
    modifies g
    ensures g.View() == RunStep(old(g.View()), order, step)
  {
    match step {
      case HwlocStep(hostname, machine) =>
        H.InitGraph(g, hostname, machine);
      case SupermucStep(buffers) =>
        var hostnames := new char[|buffers|, HOSTNAME_WIDTH];
        forall i, j | 0 <= i < |buffers| && 0 <= j < HOSTNAME_WIDTH {
          hostnames[i, j] := if j < |buffers[i]| then buffers[i][j] else '\0';
        }
        forall i | 0 <= i < |buffers|
          ensures S.Row(hostnames, i) == buffers[i]
        {
          assert buffers[i] in buffers;
        }
        S.MakeSupermucGraph(g, hostnames, NamesOf(buffers));
      case MpiStep(hostname, nprocs, ranks) =>
        M.MakeMpiGraph(g, M.Local(hostname, nprocs, order), ranks);
      case GpuStep(gpu, devices, link) =>
        G.InitGraph(g, gpu, devices, link);
      case FailedStep =>
    }
  }

  /** init() on the empty root graph: the modules sorted by init order, the enabled ones run in turn. At the end the
      graph shows what every enabled module adds, and it has no name and no direct connection but theirs. */
  method Init(g: Graph, order: SortOrder, modules: seq<Module>) returns (sorted: seq<Module>)
    requires g.View() == EMPTY && Sorts(order) && forall m :: m in modules ==> Admissible(m.step)
    modifies g
    ensures SortedModules(modules, sorted)
    ensures AllAdmissible(EnabledSteps(sorted)) && g.View() == Run(order, EnabledSteps(sorted))
    ensures forall m :: m in modules && m.enabled ==> Shown(g.View(), order, m.step)
    ensures forall id :: id in g.View().ids <==> ModuleProvides(modules, id)
    ensures forall e: Edge :: e.edgeType == GPU_INTERCONNECT ==> (e in g.edges <==> ModuleJoins(g.View(), modules, e))
  {
    sorted := SortModules(order, modules);
    EnabledAdmissible(sorted[..0]);
    ghost var reached := Run(order, EnabledSteps(sorted[..0]));
    for i := 0 to |sorted|
      invariant AllAdmissible(EnabledSteps(sorted[..i])) && g.View() == reached == Run(order, EnabledSteps(sorted[..i]))
    {
      RunOneMore(order, sorted, i);
      reached := Run(order, EnabledSteps(sorted[..i + 1]));
      assert sorted[i] in sorted;
      if sorted[i].enabled {
        Execute(g, order, sorted[i].step);
      }
    }
    assert sorted[..|sorted|] == sorted;
    EnabledModulesShow(order, modules, sorted);
  }

  /** Some enabled module has been told of a component with this name. */
  ghost predicate ModuleProvides(modules: seq<Module>, id: string) {
    exists m :: m in modules && m.enabled && Provides(m.step, id)
  }

  /** Some enabled GPU module has linked the devices that e joins. */
  ghost predicate ModuleJoins(t: Snapshot, modules: seq<Module>, e: Edge) {
    exists m :: m in modules && m.enabled && StepJoins(t, m.step, e)
  }

  ghost predicate IsEnabledStep(modules: seq<Module>, step: Step) {
    exists m :: m in modules && m.enabled && m.step == step
  }

  /** The steps run are those of the enabled modules. */
  lemma {:induction false} EnabledStepsAre(modules: seq<Module>, step: Step)
    ensures step in EnabledSteps(modules) <==> IsEnabledStep(modules, step)
  {
    if modules != [] {
      var n := |modules| - 1;
      EnabledStepsAre(modules[..n], step);
      assert modules == modules[..n] + [modules[n]];
      forall m
        ensures m in modules <==> m in modules[..n] || m == modules[n]
      {
      }
    }
  }

  lemma EnabledModulesShow(order: SortOrder, modules: seq<Module>, sorted: seq<Module>)
    requires Sorts(order) && SortedModules(modules, sorted) && AllAdmissible(EnabledSteps(sorted))
    ensures var t := Run(order, EnabledSteps(sorted));
            && (forall m :: m in modules && m.enabled ==> Shown(t, order, m.step))
            && (forall id :: id in t.ids <==> ModuleProvides(modules, id))
            && forall e: Edge :: e.edgeType == GPU_INTERCONNECT ==> (e in t.edges <==> ModuleJoins(t, modules, e))
  {
    var steps := EnabledSteps(sorted);
    var t := Run(order, steps);
    RunShows(order, steps);
    forall m | m in modules && m.enabled
      ensures Shown(t, order, m.step)
    {
      EnabledStepsAre(sorted, m.step);
      assert IsEnabledStep(sorted, m.step) && m.step in steps;
    }
    forall id
      ensures id in t.ids <==> ModuleProvides(modules, id)
    {
      RunBinds(order, steps, id);
      NamesOfModules(modules, sorted, id);
    }
    forall e: Edge | e.edgeType == GPU_INTERCONNECT
      ensures e in t.edges <==> ModuleJoins(t, modules, e)
    {
      RunConnects(order, steps, e);
      LinksOfModules(t, modules, sorted, e);
    }
  }

  lemma NamesOfModules(modules: seq<Module>, sorted: seq<Module>, id: string)
    requires forall m :: m in sorted <==> m in modules
    ensures SomeProvides(EnabledSteps(sorted), id) <==> ModuleProvides(modules, id)
  {
    var steps := EnabledSteps(sorted);
    if j :| 0 <= j < |steps| && Provides(steps[j], id) {
      EnabledStepsAre(sorted, steps[j]);
      var m :| m in sorted && m.enabled && m.step == steps[j];
      assert m in modules && Provides(m.step, id);
    }
    if m :| m in modules && m.enabled && Provides(m.step, id) {
      EnabledStepsAre(sorted, m.step);
      assert m in sorted && m.step in steps;
    }
  }

  lemma LinksOfModules(t: Snapshot, modules: seq<Module>, sorted: seq<Module>, e: Edge)
    requires forall m :: m in sorted <==> m in modules
    ensures SomeJoins(t, EnabledSteps(sorted), e) <==> ModuleJoins(t, modules, e)
  {
    var steps := EnabledSteps(sorted);
    if j :| 0 <= j < |steps| && StepJoins(t, steps[j], e) {
      EnabledStepsAre(sorted, steps[j]);
      var m :| m in sorted && m.enabled && m.step == steps[j];
      assert m in modules && StepJoins(t, m.step, e);
    }
    if m :| m in modules && m.enabled && StepJoins(t, m.step, e) {
      EnabledStepsAre(sorted, m.step);
      assert m in sorted && m.step in steps;
    }
  }

  /** The same modules, every FIRST one before every SECOND one. */
  ghost predicate SortedModules(modules: seq<Module>, sorted: seq<Module>) {
    && (forall m :: m in sorted <==> m in modules)
    && |sorted| == |modules|
    && forall i, j :: 0 <= i < j < |sorted| && sorted[i].initOrder.Second? ==> sorted[j].initOrder.Second?
  }

  method SortModules(order: SortOrder, modules: seq<Module>) returns (sorted: seq<Module>)
    requires Sorts(order)
    ensures SortedModules(modules, sorted)
    ensures IsSortOf(order(OrderKeys(modules)), OrderKeys(modules))
    ensures sorted == Arrange(modules, order(OrderKeys(modules)))
  {
    var keys := OrderKeys(modules);
    assert IsSortOf(order(keys), keys);
    sorted := Arrange(modules, order(keys));
    forall m
      ensures m in sorted <==> m in modules
    {
      ArrangeKeepsElements(modules, order(keys), keys, m);
    }
    forall i, j | 0 <= i < j < |sorted| && sorted[i].initOrder.Second?
      ensures sorted[j].initOrder.Second?
    {
      assert keys[order(keys)[i]] <= keys[order(keys)[j]];
    }
  }
}
