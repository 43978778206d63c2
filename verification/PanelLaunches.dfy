/** What the panel itself launches on a GPU, and when its containers can be stopped from it. */
module PanelLaunches {
  import opened ControlPanel
  import opened PanelRuns
  import opened PanelSafety
  import opened Wrappers

  /** Nothing but the panel names the project of this launch. */
  predicate NamedByPanel(c: Config, l: Launch) {
    (l.gpu && c.haveLease) || PROJECT !in c.ambient + l.settings || (c.ambient + l.settings)[PROJECT] == GpuName(l.gpu, l.name)
  }

  ghost predicate PanelNames(c: Config, steps: seq<Step>) {
    forall i :: 0 <= i < |steps| ==>
      (LaunchOf(c, steps[i]).Some? && LaunchOf(c, steps[i]).value.gpu ==> NamedByPanel(c, LaunchOf(c, steps[i]).value))
  }

  /** Every GPU launch waiting to act is of a GPU project. */
  ghost predicate JobsPrefixed(jobs: seq<Command>) {
    JobsNamed(jobs) && forall i :: 0 <= i < |jobs| ==> JobPrefixed(jobs[i])
  }

  ghost predicate JobPrefixed(cmd: Command)
    requires cmd.ComposeUp? && !cmd.leased ==> PROJECT in cmd.env
  {
    cmd.ComposeUp? && cmd.launch.gpu ==> GPU_PREFIX <= Exported(cmd)
  }

  /** Every container one has started is in a GPU project. */
  ghost predicate OursPrefixed(d: Docker) {
    forall n :: n in d && d[n].ours ==> d[n].project.Some? && GPU_PREFIX <= d[n].project.value
  }

  ghost predicate Prefixed(w: World) {
    JobsPrefixed(w.jobs) && OursPrefixed(w.docker)
  }

  lemma LaunchIsPrefixed(c: Config, jobs: seq<Command>, l: Launch)
    requires JobsPrefixed(jobs) && (l.gpu ==> NamedByPanel(c, l))
    ensures JobsPrefixed(jobs + [UpCommand(c, l)])
  {
    NamesAgree(c, l);
    assert l.gpu ==> GPU_PREFIX <= Exported(UpCommand(c, l));
    hide UpCommand, Exported;
  }

  lemma DownIsPrefixed(c: Config, st: State, d: Docker, key: string, jobs: seq<Command>)
    requires JobsPrefixed(jobs) && DownCommand(c, st, d, key).Some?
    ensures JobsPrefixed(jobs + [DownCommand(c, st, d, key).value])
  {
    assert !DownCommand(c, st, d, key).value.ComposeUp?;
    hide DownCommand, Exported;
  }

  lemma ActKeepsOurs(jobs: seq<Command>, i: nat, d: Docker, names: set<string>)
    requires JobsPrefixed(jobs) && OursPrefixed(d) && i < |jobs|
    ensures OursPrefixed(Acted(jobs[i], d, names))
  {
    assert JobPrefixed(jobs[i]);
    hide Exported, JobsPrefixed;
  }

  lemma StepKeepsPrefixed(c: Config, w: World, s: Step)
    requires Prefixed(w)
    requires LaunchOf(c, s).Some? && LaunchOf(c, s).value.gpu ==> NamedByPanel(c, LaunchOf(c, s).value)
    ensures Prefixed(After(c, w, s))
  {
    hide JobPrefixed, UpCommand, DownCommand, Acted, NamedByPanel;
    assert JobsNamed(w.jobs);
    hide JobsPrefixed;
    match s
    case Load(id) =>
      if id in w.requests && w.requests[id].seen.None? && w.requests[id].change.Forget? {
        if DownCommand(c, Loaded(w.file), w.docker, w.requests[id].change.key).Some? {
          DownIsPrefixed(c, Loaded(w.file), w.docker, w.requests[id].change.key, w.jobs);
        }
      }
    case JobActs(job, names) =>
      if job < |w.jobs| {
        ActKeepsOurs(w.jobs, job, w.docker, names);
      }
    case Up(_, repo, _, _, _, _, _) =>
      if repo in c.repos {
        LaunchIsPrefixed(c, w.jobs, LaunchOf(c, s).value);
      }
    case Custom(_, _, _, _, _, _, _) => LaunchIsPrefixed(c, w.jobs, LaunchOf(c, s).value);
    case _ =>
  }

  lemma {:induction false} RunKeepsPrefixed(c: Config, w: World, steps: seq<Step>)
    requires Prefixed(w) && PanelNames(c, steps)
    ensures Prefixed(Run(c, w, steps))
    decreases |steps|
  {
    hide After, LaunchOf;
    if steps != [] {
      var before := steps[..|steps| - 1];
      assert forall i :: 0 <= i < |before| ==> before[i] == steps[i];
      RunKeepsPrefixed(c, w, before);
      StepKeepsPrefixed(c, Run(c, w, before), steps[|steps| - 1]);
    }
  }

  /** Whatever a GPU launch of the panel brought up can be stopped from it as long as it runs. */
  lemma OwnGpuContainersStayStoppable(c: Config, w: World, steps: seq<Step>, n: string)
    requires GoodRepos(c, AnyGpuProject) && Fresh(w, AnyGpuProject) && Prefixed(w) && PanelNames(c, steps)
    requires var d := Run(c, w, steps).docker; n in d && d[n].ours && Live(d[n])
    ensures var r := Run(c, w, steps);
            r.docker[n].project.Some? && Stoppable(c, Loaded(r.file), r.docker, r.docker[n].project.value)
  {
    RunKeepsPrefixed(c, w, steps);
    GpuProjectsStayStoppable(c, w, steps, AnyGpuProject);
    hide Run, Stoppable;
    var d := Run(c, w, steps).docker;
    assert AnyGpuProject(d[n].project.value) && LiveIn(d, d[n].project.value);
  }

  /** One launch, undisturbed, and its container: it can be stopped exactly when the project it runs in is
      the recorded one or one that orphan recovery would take for a GPU project. */
  lemma LaunchStoppableIff(c: Config, s: Step, l: Launch)
    requires GoodRepos(c, AnyGpuProject) && LaunchOf(c, s) == Some(l) && s.id == 0
    ensures var w := Run(c, EMPTY, [s, Load(0), Save(0)] + [JobActs(0, {"box"})]);
            var p := Exported(UpCommand(c, l));
            && LiveIn(w.docker, p)
            && (Stoppable(c, Loaded(w.file), w.docker, p) <==> p == ProjectOf(RecordOf(l)) || GPU_PREFIX <= p)
  {
    hide Run, After, UpCommand, RepoLaunch, CustomLaunch, Stoppable;
    var p := Exported(UpCommand(c, l));
    var steps := [s, Load(0), Save(0)];
    LaunchRun(c, s, l);
    Then(c, EMPTY, steps, JobActs(0, {"box"}));
    JobFills(c, Run(c, EMPTY, steps), l);
    LaunchIsSafe(c, s, l, AnyGpuProject);
    OneProjectStoppableIff(c, l.key, RecordOf(l), p, l.gpu);
  }

  lemma JobFills(c: Config, w: World, l: Launch)
    requires w.jobs == [UpCommand(c, l)] && w.docker == map[]
    ensures After(c, w, JobActs(0, {"box"}))
         == w.(docker := map["box" := Container(Some(Exported(UpCommand(c, l))), Running, l.gpu)])
  {
    var p := Exported(UpCommand(c, l));
    var box := {"box"};
    assert box - w.docker.Keys == box;
    var started := map n | n in box :: Container(Some(p), Running, l.gpu);
    assert started == map["box" := Container(Some(p), Running, l.gpu)];
    assert w.docker + started == started;
  }

  lemma OneProjectStoppableIff(c: Config, key: string, r: Record, p: string, ours: bool)
    requires GPU_PREFIX <= p ==> ORPHAN + p != key
    ensures var st, d := map[key := r], map["box" := Container(Some(p), Running, ours)];
            && LiveIn(d, p)
            && (Stoppable(c, st, d, p) <==> p == ProjectOf(r) || GPU_PREFIX <= p)
  {
    var st, d := map[key := r], map["box" := Container(Some(p), Running, ours)];
    assert "box" in d && d["box"].project == Some(p) && Live(d["box"]);
    if p == ProjectOf(r) {
      assert TrackedEntry(d, key, st[key]) in Listing(st, d);
    } else if GPU_PREFIX <= p {
      LiveGpuProjectStoppableIff(c, st, d, p);
    }
  }
}
