/** Whole runs of the panel: requests whose reads and writes of the state file interleave, jobs that act
    whenever they get to it, containers that come and go, and a state file that vanishes or is cut short. */
module PanelRuns {
  import opened ControlPanel
  import opened Wrappers

  /** A request between its read and its write of the state file. */
  datatype Request = Request(change: Change, seen: Option<State>)

  datatype World = World(file: StateFile, requests: map<nat, Request>, jobs: seq<Command>, docker: Docker)

  datatype Step =
    | Up(id: nat, repo: string, profile: string, gpu: bool, cards: int, name: string, overrides: Env)
    | Custom(id: nat, file: string, leaseName: string, profile: string, gpu: bool, cards: int, overrides: Env)
    | Down(id: nat, key: string)
    | Load(id: nat)
    | Save(id: nat)
    | JobActs(job: nat, names: set<string>)
    | Appears(container: string, project: Option<string>, status: Status)
    | Changes(container: string, status: Status)
    | Disappears(container: string)
    | Lose
    | Garble

  const EMPTY: World := World(Missing, map[], [], map[])

  function Launched(c: Config, w: World, id: nat, l: Launch): World {
    w.(requests := w.requests[id := Request(Store(l.key, RecordOf(l)), None)], jobs := w.jobs + [UpCommand(c, l)])
  }

  /** Reading the file; a stop also issues its command here, and is done when there is no record to forget. */
  function Read(c: Config, w: World, id: nat): World
    requires id in w.requests
  {
    var ch, st := w.requests[id].change, Loaded(w.file);
    match ch
    case Store(_, _) => w.(requests := w.requests[id := Request(ch, Some(st))])
    case Forget(key) =>
      var cmd := DownCommand(c, st, w.docker, key);
      w.(requests := if key in st then w.requests[id := Request(ch, Some(st))] else w.requests - {id},
         jobs := if cmd.Some? then w.jobs + [cmd.value] else w.jobs)
  }

  /** What a job does to the containers, for as many of them as it gets to. */
  function Acted(cmd: Command, d: Docker, names: set<string>): Docker
    requires cmd.ComposeUp? && !cmd.leased ==> PROJECT in cmd.env
  {
    match cmd
    case ComposeUp(_, l, _) => d + map n | n in names - d.Keys :: Container(Some(Exported(cmd)), Running, l.gpu)
    case ComposeDown(p, _, _, _) => d - (names * Members(d, p))
    case RemoveContainers(ns) => d - ns
  }

  ghost predicate JobsNamed(jobs: seq<Command>) {
    forall i :: 0 <= i < |jobs| ==> jobs[i].ComposeUp? && !jobs[i].leased ==> PROJECT in jobs[i].env
  }

  function After(c: Config, w: World, s: Step): (r: World)
    requires JobsNamed(w.jobs)
    ensures JobsNamed(r.jobs)
  {
    match s
    case Up(id, repo, profile, gpu, cards, name, overrides) =>
      if repo in c.repos && id !in w.requests then Launched(c, w, id, RepoLaunch(c, repo, profile, gpu, cards, name, overrides)) else w
    case Custom(id, file, leaseName, profile, gpu, cards, overrides) =>
      if id !in w.requests then Launched(c, w, id, CustomLaunch(file, leaseName, profile, gpu, cards, overrides)) else w
    case Down(id, key) =>
      if id !in w.requests then w.(requests := w.requests[id := Request(Forget(key), None)]) else w
    case Load(id) =>
      if id in w.requests && w.requests[id].seen.None? then Read(c, w, id) else w
    case Save(id) =>
      if id in w.requests && w.requests[id].seen.Some? then
        w.(file := Saved(Applied(w.requests[id].change, w.requests[id].seen.value)), requests := w.requests - {id})
      else w
    case JobActs(job, names) =>
      if job < |w.jobs| then w.(docker := Acted(w.jobs[job], w.docker, names)) else w
    case Appears(n, project, status) =>
      if n !in w.docker then w.(docker := w.docker[n := Container(project, status, false)]) else w
    case Changes(n, status) =>
      if n in w.docker then w.(docker := w.docker[n := w.docker[n].(status := status)]) else w
    case Disappears(n) => w.(docker := w.docker - {n})
    case Lose => w.(file := Missing)
    case Garble => w.(file := Garbled)
  }

  function Run(c: Config, w: World, steps: seq<Step>): (r: World)
    requires JobsNamed(w.jobs)
    ensures JobsNamed(r.jobs)
    decreases |steps|
  {
    if steps == [] then w else After(c, Run(c, w, steps[..|steps| - 1]), steps[|steps| - 1])
  }

  function LaunchOf(c: Config, s: Step): Option<Launch> {
    match s
    case Up(_, repo, profile, gpu, cards, name, overrides) =>
      if repo in c.repos then Some(RepoLaunch(c, repo, profile, gpu, cards, name, overrides)) else None
    case Custom(_, file, leaseName, profile, gpu, cards, overrides) => Some(CustomLaunch(file, leaseName, profile, gpu, cards, overrides))
    case _ => None
  }

  lemma Then(c: Config, w: World, steps: seq<Step>, s: Step)
    requires JobsNamed(w.jobs)
    ensures Run(c, w, steps + [s]) == After(c, Run(c, w, steps), s)
  {
    assert (steps + [s])[..|steps|] == steps;
  }

  lemma ThreeSteps(c: Config, w: World, s: Step, t: Step, u: Step)
    requires JobsNamed(w.jobs)
    ensures Run(c, w, [s, t, u]) == After(c, After(c, After(c, w, s), t), u)
  {
    hide After;
    Then(c, w, [], s);
    Then(c, w, [s], t);
    Then(c, w, [s, t], u);
    assert [] + [s] == [s] && [s] + [t] == [s, t] && [s, t] + [u] == [s, t, u];
  }

  /** A launch nothing interferes with leaves its record alone in the file. */
  lemma LaunchRun(c: Config, s: Step, l: Launch)
    requires LaunchOf(c, s) == Some(l) && s.id == 0
    ensures Run(c, EMPTY, [s, Load(0), Save(0)]) == World(Saved(map[l.key := RecordOf(l)]), map[], [UpCommand(c, l)], map[])
  {
    hide Run, UpCommand, RepoLaunch, CustomLaunch;
    ThreeSteps(c, EMPTY, s, Load(0), Save(0));
    assert After(c, EMPTY, s) == Launched(c, EMPTY, 0, l);
    var w := After(c, Launched(c, EMPTY, 0, l), Load(0));
    assert w.requests == map[0 := Request(Store(l.key, RecordOf(l)), Some(map[]))];
    assert After(c, w, Save(0)).requests == map[];
  }

  /** A stop nothing interferes with issues its command, forgets the record, and once the command has reached
      them all leaves the project without a container and every other container as it was. */
  lemma StopRun(c: Config, w: World, key: string, names: set<string>)
    requires JobsNamed(w.jobs) && w.requests == map[] && w.file.Saved? && key in w.file.state && w.docker.Keys <= names
    ensures var p := ProjectOf(w.file.state[key]);
      var after := Run(c, w, [Down(0, key), Load(0), Save(0)] + [JobActs(|w.jobs|, names)]);
      && after.file == Saved(w.file.state - {key}) && after.requests == map[]
      && (exists cmd :: DownCommand(c, w.file.state, w.docker, key) == Some(cmd) && after.jobs == w.jobs + [cmd])
      && (forall n :: n in after.docker <==> n in w.docker && w.docker[n].project != Some(p))
      && (forall n :: n in after.docker ==> after.docker[n] == w.docker[n])
  {
    var st := w.file.state;
    var cmd := DownCommand(c, st, w.docker, key).value;
    var asked := After(c, w, Down(0, key));
    assert asked == w.(requests := map[0 := Request(Forget(key), None)]);
    var read := After(c, asked, Load(0));
    assert read == w.(requests := map[0 := Request(Forget(key), Some(st))], jobs := w.jobs + [cmd]);
    var saved := After(c, read, Save(0));
    assert saved == read.(file := Saved(st - {key}), requests := map[]);
    hide After;
    ThreeSteps(c, w, Down(0, key), Load(0), Save(0));
    Then(c, w, [Down(0, key), Load(0), Save(0)], JobActs(|w.jobs|, names));
    StopActs(c, saved, w, key, names);
  }

  lemma StopActs(c: Config, saved: World, w: World, key: string, names: set<string>)
    requires JobsNamed(saved.jobs) && w.file.Saved? && key in w.file.state && saved.docker == w.docker
    requires saved.jobs == w.jobs + [DownCommand(c, w.file.state, w.docker, key).value] && w.docker.Keys <= names
    ensures var after := After(c, saved, JobActs(|w.jobs|, names));
      && after == saved.(docker := after.docker)
      && (forall n :: n in after.docker <==> n in w.docker && w.docker[n].project != Some(ProjectOf(w.file.state[key])))
      && (forall n :: n in after.docker ==> after.docker[n] == w.docker[n])
  {
  }

  // ----- why orphan recovery is needed ----------------------------------------------------------

  /** Both requests read the file, then both write it. */
  function BothInTurn(c: Config, w: World): World
    requires JobsNamed(w.jobs)
  {
    After(c, After(c, After(c, After(c, w, Load(0)), Load(1)), Save(0)), Save(1))
  }

  /** Two launches that read the file before either writes it leave only one record, and nothing else went
      wrong. */
  lemma InterleavedLaunchIsForgotten(c: Config, a: Launch, b: Launch, w: World)
    requires a.key != b.key && 0 !in w.requests && 1 !in w.requests && JobsNamed(w.jobs)
    ensures var r := BothInTurn(c, Launched(c, Launched(c, w, 0, a), 1, b));
            && Loaded(r.file) == Loaded(w.file)[b.key := RecordOf(b)]
            && (a.key !in Loaded(w.file) ==> a.key !in Loaded(r.file))
  {
    hide UpCommand;
    var w0 := Launched(c, Launched(c, w, 0, a), 1, b);
    var w1 := After(c, w0, Load(0));
    var w2 := After(c, w1, Load(1));
    assert w1.file == w.file && w1.requests[1] == w0.requests[1];
    assert w2.requests[1] == Request(Store(b.key, RecordOf(b)), Some(Loaded(w.file)));
    assert w2.requests[0] == w1.requests[0] && w1.requests[0].seen.Some?;
    assert After(c, w2, Save(0)).requests[1] == w2.requests[1];
  }

  /** The command a stop issues for an orphan leaves none of its containers. */
  lemma OrphanStopEmptiesIt(c: Config, st: State, d: Docker, p: string, key: string, names: set<string>)
    requires Orphan(st, d, p) && key == ORPHAN + p && key !in st
    ensures DownCommand(c, st, d, key) == Some(RemoveContainers(Members(d, p)))
    ensures var after := Acted(RemoveContainers(Members(d, p)), d, names);
            Members(after, p) == {} && forall n :: n in d && d[n].project != Some(p) ==> n in after && after[n] == d[n]
  {
    var n :| n in d && d[n].project == Some(p) && Live(d[n]);
    assert n in Members(d, p) && key[|ORPHAN|..] == p;
  }
}
