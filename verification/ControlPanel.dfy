/** Starting and stopping compose services from a state file that may be lost, overwritten or stale, with
    docker itself as the last word on what runs. */
module ControlPanel {
  import opened Wrappers

  type Env = map<string, string>

  const PROJECT: string := "COMPOSE_PROJECT_NAME"
  const LEASE: string := "LEASE_NAME"
  const GPU_PREFIX: string := "lease-"
  const ORPHAN: string := "orphan::"

  datatype Config = Config(repos: set<string>, defaults: map<string, Env>, ambient: Env, haveLease: bool)

  // ----- launching ------------------------------------------------------------------------------

  /** A launch as the panel understands it, whether of a repository's profile or of a custom file. */
  datatype Launch = Launch(key: string, profile: string, gpu: bool, cards: int, name: string, custom: bool, settings: Env)

  datatype Record = Record(profile: string, name: string, project: string, gpu: bool, cards: int, custom: bool, env: Env)

  datatype Command =
    | ComposeUp(leased: bool, launch: Launch, env: Env)
    | ComposeDown(project: string, profile: string, custom: bool, env: Env)
    | RemoveContainers(names: set<string>)

  /** Empty values set nothing. */
  function NonEmpty(env: Env): Env {
    map k | k in env && env[k] != "" :: env[k]
  }

  function ValueOf(env: Env, k: string): string {
    if k in env then env[k] else ""
  }

  function DefaultsOf(c: Config, key: string): Env {
    if key in c.defaults then c.defaults[key] else map[]
  }

  /** The panel's defaults under the user's values: a value that is not empty wins, an empty one leaves the
      default in force. */
  function Settings(c: Config, key: string, overrides: Env): (s: Env)
    ensures forall k :: k in s <==> ValueOf(overrides, k) != "" || ValueOf(DefaultsOf(c, key), k) != ""
    ensures forall k :: k in s ==>
      s[k] == if ValueOf(overrides, k) != "" then overrides[k] else ValueOf(DefaultsOf(c, key), k)
  {
    NonEmpty(DefaultsOf(c, key) + NonEmpty(overrides))
  }

  function RepoKey(repo: string, profile: string): string { repo + "::" + profile }

  function RepoLaunch(c: Config, repo: string, profile: string, gpu: bool, cards: int, name: string, overrides: Env): (l: Launch)
    ensures l.key == repo + "::" + profile && l.profile == profile && l.gpu == gpu && l.cards == cards && l.name == name && !l.custom
    ensures forall k :: k in l.settings <==> ValueOf(overrides, k) != "" || ValueOf(DefaultsOf(c, l.key), k) != ""
  {
    var key := RepoKey(repo, profile);
    Launch(key, profile, gpu, cards, name, false, Settings(c, key, overrides))
  }

  function CustomLaunch(file: string, leaseName: string, profile: string, gpu: bool, cards: int, overrides: Env): (l: Launch)
    ensures l.key == "custom::" + file && l.profile == profile && l.gpu == gpu && l.cards == cards && l.name == leaseName && l.custom
    ensures forall k :: k in l.settings <==> k in overrides && overrides[k] != ""
    ensures forall k :: k in l.settings ==> l.settings[k] == overrides[k]
  {
    Launch("custom::" + file, profile, gpu, cards, leaseName, true, NonEmpty(overrides))
  }

  function GpuName(gpu: bool, name: string): string {
    if gpu then GPU_PREFIX + name else name
  }

  function RecordOf(l: Launch): Record {
    Record(l.profile, l.name, GpuName(l.gpu, l.name), l.gpu, l.cards, l.custom, l.settings)
  }

  /** The project a record is looked up by; one without a project falls back on the naming convention. */
  function ProjectOf(r: Record): string {
    if r.project != "" then r.project else GpuName(r.gpu, r.name)
  }

  function SetDefault(env: Env, k: string, v: string): Env {
    if k in env then env else env[k := v]
  }

  function UpCommand(c: Config, l: Launch): (cmd: Command)
    ensures cmd.ComposeUp? && cmd.launch == l && (!cmd.leased ==> PROJECT in cmd.env)
  {
    var env := c.ambient + l.settings;
    if l.gpu && c.haveLease then ComposeUp(true, l, env)
    else
      var p := GpuName(l.gpu, l.name);
      ComposeUp(false, l, SetDefault(SetDefault(env, PROJECT, p), LEASE, p))
  }

  /** The project compose brings up: the arbiter exports its own name, otherwise the environment says. */
  function Exported(up: Command): string
    requires up.ComposeUp? && (!up.leased ==> PROJECT in up.env)
  {
    if up.leased then GPU_PREFIX + up.launch.name else up.env[PROJECT]
  }

  /** Launch and record agree on the project in all three branches unless something the panel does not set
      itself, the surrounding environment, the defaults or the user, names another. */
  lemma NamesAgree(c: Config, l: Launch)
    ensures var env := c.ambient + l.settings;
            Exported(UpCommand(c, l)) == ProjectOf(RecordOf(l)) <==>
              (l.gpu && c.haveLease) || PROJECT !in env || env[PROJECT] == GpuName(l.gpu, l.name)
  {
  }

  // ----- stopping -------------------------------------------------------------------------------

  type State = map<string, Record>

  datatype Status = Created | Running | Paused | Restarting | Exited | Dead

  /** Docker's row for a container: ours says that a GPU launch of the panel started it. */
  datatype Container = Container(project: Option<string>, status: Status, ours: bool)

  type Docker = map<string, Container>

  /** Docker reports a paused container as up, too, but not a restarting one. */
  predicate Live(c: Container) { c.status in {Running, Paused} }

  function Members(d: Docker, project: string): set<string> {
    set n | n in d && d[n].project == Some(project)
  }

  predicate LiveIn(d: Docker, project: string) {
    exists n :: n in d && d[n].project == Some(project) && Live(d[n])
  }

  function LiveMembers(d: Docker, project: string): set<string> {
    set n | n in Members(d, project) && Live(d[n])
  }

  lemma LiveMembersIff(d: Docker, project: string)
    ensures LiveMembers(d, project) != {} <==> LiveIn(d, project)
  {
    if LiveMembers(d, project) != {} {
      var n :| n in LiveMembers(d, project);
      assert n in d && d[n].project == Some(project) && Live(d[n]);
    }
    if LiveIn(d, project) {
      var n :| n in d && d[n].project == Some(project) && Live(d[n]);
      assert n in LiveMembers(d, project);
    }
  }

  function DownEnv(c: Config, r: Record): Env {
    c.ambient[PROJECT := ProjectOf(r)][LEASE := ProjectOf(r)] + r.env
  }

  /** What stopping a key runs; nothing, when the key names neither a record nor an orphan with containers. */
  function DownCommand(c: Config, st: State, d: Docker, key: string): Option<Command> {
    if key in st then Some(ComposeDown(ProjectOf(st[key]), st[key].profile, st[key].custom, DownEnv(c, st[key])))
    else if ORPHAN <= key && Members(d, key[|ORPHAN|..]) != {} then Some(RemoveContainers(Members(d, key[|ORPHAN|..])))
    else None
  }

  /** Stopping sees every variable as an unleased launch did, so templates expand to the same names, unless
      the surroundings fix one of the two names and the settings leave it be. */
  lemma StopSeesLaunchEnv(c: Config, l: Launch)
    requires !(l.gpu && c.haveLease)
    ensures UpCommand(c, l).env == DownEnv(c, RecordOf(l)) <==>
      forall k :: k in {PROJECT, LEASE} ==> k in l.settings || k !in c.ambient || c.ambient[k] == GpuName(l.gpu, l.name)
  {
    var p := GpuName(l.gpu, l.name);
    var up, down := UpCommand(c, l).env, DownEnv(c, RecordOf(l));
    assert up.Keys == down.Keys;
    forall k | k in up
      ensures up[k] == down[k] <==> k !in {PROJECT, LEASE} || k in l.settings || k !in c.ambient || c.ambient[k] == p
    {
    }
    if up != down {
      assert exists k :: k in up && up[k] != down[k];
    }
  }

  /** Where compose takes a variable from. Starting: the settings first, then the surroundings, and only where
      both leave one of the two names open the project's. Stopping: the settings, then the project for the two
      names, then the surroundings. Only a GPU launch with the arbiter at hand sets neither name itself. */
  lemma EnvironmentOf(c: Config, l: Launch, k: string)
    ensures var up := UpCommand(c, l); var p := if l.gpu then "lease-" + l.name else l.name;
      && (up.leased <==> l.gpu && c.haveLease)
      && (k in l.settings ==> k in up.env && up.env[k] == l.settings[k])
      && (k !in l.settings && k in c.ambient ==> k in up.env && up.env[k] == c.ambient[k])
      && (k !in l.settings && k !in c.ambient ==>
            (k in up.env <==> !up.leased && k in ["COMPOSE_PROJECT_NAME", "LEASE_NAME"]) && (k in up.env ==> up.env[k] == p))
    ensures var down := DownEnv(c, RecordOf(l)); var p := if l.gpu then "lease-" + l.name else l.name;
      && (k in l.settings ==> k in down && down[k] == l.settings[k])
      && (k !in l.settings && k in ["COMPOSE_PROJECT_NAME", "LEASE_NAME"] ==> k in down && down[k] == p)
      && (k !in l.settings && k !in ["COMPOSE_PROJECT_NAME", "LEASE_NAME"] ==>
            (k in down <==> k in c.ambient) && (k in down ==> down[k] == c.ambient[k]))
  {
  }

  /** Stopping what was launched, whatever else was recorded since: compose is told to take down the project
      of the launch with the profile and the kind of file it was launched with. */
  lemma StopMatchesLaunch(c: Config, l: Launch, st: State, d: Docker)
    requires l.key in st && st[l.key] == RecordOf(l)
    ensures var cmd := DownCommand(c, st, d, l.key);
      && cmd.Some? && cmd.value.ComposeDown? && cmd.value.profile == l.profile && cmd.value.custom == l.custom
      && cmd.value.project == (if l.gpu then "lease-" + l.name else l.name)
      && cmd.value.env == DownEnv(c, RecordOf(l))
  {
  }

  /** A key without a record stops something only when it is an orphan's, and then exactly the containers,
      running or not, that carry the orphan's label. */
  lemma UntrackedStop(c: Config, st: State, d: Docker, key: string)
    requires key !in st
    ensures match DownCommand(c, st, d, key)
      case None => forall p :: key == "orphan::" + p ==> forall n :: n in d ==> d[n].project != Some(p)
      case Some(RemoveContainers(names)) =>
        exists p :: key == "orphan::" + p && names != {} && forall n :: n in names <==> n in d && d[n].project == Some(p)
      case Some(_) => false
  {
    if ORPHAN <= key {
      var p := key[|ORPHAN|..];
      assert key == "orphan::" + p;
      assert forall n :: n in Members(d, p) <==> n in d && d[n].project == Some(p);
      assert forall q :: key == "orphan::" + q ==> q == p;
    } else {
      assert forall p :: ORPHAN <= "orphan::" + p;
    }
  }

  // ----- what the panel shows -------------------------------------------------------------------

  datatype Entry = Entry(key: string, project: string, orphan: bool, up: bool)

  predicate Tracked(st: State, project: string) {
    exists k :: k in st && ProjectOf(st[k]) == project
  }

  /** The containers shown for a tracked project: its members, or by name when it has none. */
  function Shown(d: Docker, project: string): set<string> {
    if Members(d, project) != {} then Members(d, project) else set n | n in d && project <= n
  }

  function TrackedEntry(d: Docker, key: string, r: Record): Entry {
    Entry(key, ProjectOf(r), false, exists n :: n in Shown(d, ProjectOf(r)) && d[n].status == Running)
  }

  predicate Orphan(st: State, d: Docker, project: string) {
    GPU_PREFIX <= project && !Tracked(st, project) && LiveIn(d, project)
  }

  function Projects(d: Docker): set<string> {
    set n | n in d && d[n].project.Some? :: d[n].project.value
  }

  function Listing(st: State, d: Docker): set<Entry> {
    (set k | k in st :: TrackedEntry(d, k, st[k])) +
    (set p | p in Projects(d) && Orphan(st, d, p) :: Entry(ORPHAN + p, p, true, true))
  }

  /** Some container d lists with the project's label runs. */
  ghost predicate MemberRuns(d: Docker, project: string) {
    exists n :: n in d && d[n].project == Some(project) && d[n].status == Running
  }

  /** What the panel must say of a record: it is up when one of its project's members runs, whatever else is
      named like the project; a project without members is up when a container named like it runs. */
  ghost predicate ShowsStatus(d: Docker, r: Record, e: Entry) {
    && !e.orphan
    && e.project == (if r.project != "" then r.project else if r.gpu then "lease-" + r.name else r.name)
    && ((exists n :: n in d && d[n].project == Some(e.project)) ==> (e.up <==> MemberRuns(d, e.project)))
    && ((forall n :: n in d ==> d[n].project != Some(e.project)) ==>
          (e.up <==> exists n :: n in d && e.project <= n && d[n].status == Running))
  }

  /** Every record is listed once, under its own key and with its live status; every other entry is a
      running orphan. */
  lemma EveryRecordShown(st: State, d: Docker, key: string)
    ensures key in st ==> exists e :: e in Listing(st, d) && e.key == key && ShowsStatus(d, st[key], e)
    ensures forall e :: e in Listing(st, d) && !e.orphan ==> e.key in st && ShowsStatus(d, st[e.key], e)
    ensures forall e :: e in Listing(st, d) && e.orphan ==> e.up && e.key == "orphan::" + e.project
  {
    hide ShowsStatus, Shown, ProjectOf;
    forall k | k in st
      ensures ShowsStatus(d, st[k], TrackedEntry(d, k, st[k]))
    {
      StatusOfRecord(d, k, st[k]);
    }
    if key in st {
      assert TrackedEntry(d, key, st[key]) in Listing(st, d);
    }
  }

  lemma StatusOfRecord(d: Docker, key: string, r: Record)
    ensures ShowsStatus(d, r, TrackedEntry(d, key, r))
  {
    var p := ProjectOf(r);
    if n :| n in d && d[n].project == Some(p) {
      assert n in Members(d, p);
      assert forall m :: m in Shown(d, p) <==> m in d && d[m].project == Some(p);
    } else {
      assert Members(d, p) == {};
      assert forall m :: m in Shown(d, p) <==> m in d && p <= m;
    }
  }

  /** A record whose only container has exited is shown, and shown as down, even beside a running container
      that is merely named like its project. */
  lemma ExitedIsDown(r: Record, other: Container, d: Docker, e: Entry)
    requires r.project == "lease-a" && other.project == None && other.status == Running
    requires d == map["a-1" := Container(Some("lease-a"), Exited, true), "lease-a-x" := other]
    requires e in Listing(map["a" := r], d) && e.project == "lease-a"
    ensures e.key == "a" && !e.up
  {
    var st := map["a" := r];
    EveryRecordShown(st, d, "a");
    assert d["a-1"].project == Some("lease-a");
    assert Tracked(st, "lease-a");
  }

  /** A command that ends the project: down by its own name, or removal of exactly its containers. */
  predicate Ends(cmd: Option<Command>, d: Docker, project: string) {
    match cmd
    case Some(ComposeDown(p, _, _, _)) => p == project
    case Some(RemoveContainers(names)) => names == Members(d, project) != {}
    case _ => false
  }

  /** Some entry the panel shows for the project has a key whose stop ends it. */
  ghost predicate Stoppable(c: Config, st: State, d: Docker, project: string) {
    exists e :: e in Listing(st, d) && e.project == project && Ends(DownCommand(c, st, d, e.key), d, project)
  }

  /** A live GPU project can be stopped, by one stop, exactly when some record is about it or none sits under
      the key it would be listed by as an orphan. */
  lemma LiveGpuProjectStoppableIff(c: Config, st: State, d: Docker, project: string)
    requires GPU_PREFIX <= project && LiveIn(d, project)
    ensures Stoppable(c, st, d, project) <==> Tracked(st, project) || ORPHAN + project !in st
  {
    var key := ORPHAN + project;
    var n :| n in d && d[n].project == Some(project) && Live(d[n]);
    assert project in Projects(d) && n in Members(d, project) && key[|ORPHAN|..] == project;
    if Tracked(st, project) {
      var k :| k in st && ProjectOf(st[k]) == project;
      assert TrackedEntry(d, k, st[k]) in Listing(st, d);
    } else if key !in st {
      assert Entry(key, project, true, true) in Listing(st, d);
    } else {
      forall e | e in Listing(st, d) && e.project == project
        ensures !Ends(DownCommand(c, st, d, e.key), d, project)
      {
        assert e.key == key && ProjectOf(st[key]) != project;
      }
    }
  }

  /** A record under the orphan's key takes one stop, which forgets it; the next one reaches the orphan. */
  lemma SecondStopReachesOrphan(c: Config, st: State, d: Docker, project: string)
    requires GPU_PREFIX <= project && LiveIn(d, project) && !Tracked(st, project) && ORPHAN + project in st
    ensures !Stoppable(c, st, d, project)
    ensures Stoppable(c, Applied(Forget(ORPHAN + project), st), d, project)
  {
    LiveGpuProjectStoppableIff(c, st, d, project);
    LiveGpuProjectStoppableIff(c, Applied(Forget(ORPHAN + project), st), d, project);
  }

  /** An untracked project is surfaced exactly when it carries the GPU prefix and docker says that one of
      its containers runs; one that only restarts over and over is not. */
  lemma OrphanListedIff(st: State, d: Docker, project: string)
    requires forall k :: k in st ==> ProjectOf(st[k]) != project
    ensures (exists e :: e in Listing(st, d) && e.project == project)
      <==> "lease-" <= project && exists n :: n in d && d[n].project == Some(project) && (d[n].status == Running || d[n].status == Paused)
  {
    if GPU_PREFIX <= project && LiveIn(d, project) {
      assert project in Projects(d);
      assert Entry(ORPHAN + project, project, true, true) in Listing(st, d);
    }
  }

  // ----- the panel ------------------------------------------------------------------------------

  datatype StateFile = Missing | Garbled | Saved(state: State)

  /** A missing or unreadable file reads as no records. */
  function Loaded(f: StateFile): State {
    if f.Saved? then f.state else map[]
  }

  datatype Change = Store(key: string, record: Record) | Forget(key: string)

  function Applied(ch: Change, st: State): State {
    match ch
    case Store(key, record) => st[key := record]
    case Forget(key) => st - {key}
  }

  class Panel {
    const config: Config
    var file: StateFile
    var jobs: seq<Command>

    constructor (config: Config, file: StateFile)
      ensures this.config == config && this.file == file && jobs == []
    {
      this.config, this.file, jobs := config, file, [];
    }

    method LoadState() returns (st: State)
      ensures st == Loaded(file)
      ensures match file
        case Saved(state) => st == state
        case _ => st == map[]
    {
      match file
      case Saved(state) => st := state;
      case Garbled => st := map[];
      case Missing => st := map[];
    }

    method SaveState(st: State)
      modifies this`file
      ensures file == Saved(st)
    {
      file := Saved(st);
    }

    method NewJob(cmd: Command) returns (job: nat)
      modifies this`jobs
      ensures jobs == old(jobs) + [cmd] && job == |old(jobs)|
    {
      job := |jobs|;
      jobs := jobs + [cmd];
    }

    /** The launch itself, shared by up and custom: issue the command, then read, amend and write the file. */
    method Start(l: Launch) returns (job: nat)
      modifies this
      ensures jobs == old(jobs) + [UpCommand(config, l)] && job == |old(jobs)|
      ensures file == Saved(Applied(Store(l.key, RecordOf(l)), Loaded(old(file))))
      ensures file.state == (if old(file).Saved? then old(file).state else map[])[
        l.key := Record(l.profile, l.name, if l.gpu then "lease-" + l.name else l.name, l.gpu, l.cards, l.custom, l.settings)]
    {
      var env := config.ambient + l.settings;
      var cmd: Command;
      if l.gpu && config.haveLease {
        cmd := ComposeUp(true, l, env);
      } else if l.gpu {
        env := SetDefault(env, PROJECT, GPU_PREFIX + l.name);
        env := SetDefault(env, LEASE, GPU_PREFIX + l.name);
        cmd := ComposeUp(false, l, env);
      } else {
        env := SetDefault(env, PROJECT, l.name);
        env := SetDefault(env, LEASE, l.name);
        cmd := ComposeUp(false, l, env);
      }
      job := NewJob(cmd);
      var st := LoadState();
      st := st[l.key := Record(l.profile, l.name, if l.gpu then GPU_PREFIX + l.name else l.name, l.gpu, l.cards, l.custom, l.settings)];
      SaveState(st);
    }

    /** A repository's profile; an unknown repository changes nothing. */
    method DoUp(repo: string, profile: string, gpu: bool, cards: int, name: string, overrides: Env) returns (job: Option<nat>)
      modifies this
      ensures repo !in config.repos ==> job == None && file == old(file) && jobs == old(jobs)
      ensures repo in config.repos ==>
        var l := RepoLaunch(config, repo, profile, gpu, cards, name, overrides);
        && job == Some(|old(jobs)|) && jobs == old(jobs) + [UpCommand(config, l)]
        && file == Saved(Applied(Store(RepoKey(repo, profile), RecordOf(l)), Loaded(old(file))))
    {
      if repo !in config.repos {
        return None;
      }
      var j := Start(RepoLaunch(config, repo, profile, gpu, cards, name, overrides));
      job := Some(j);
    }

    /** A custom file; one that does not parse, or that compose rejects, changes nothing here. */
    method DoCustom(accepted: bool, name: string, leaseName: string, profile: string, gpu: bool, cards: int, overrides: Env)
      returns (job: Option<nat>)
      modifies this
      ensures !accepted ==> job == None && file == old(file) && jobs == old(jobs)
      ensures accepted ==>
        var l := CustomLaunch(name, leaseName, profile, gpu, cards, overrides);
        && job == Some(|old(jobs)|) && jobs == old(jobs) + [UpCommand(config, l)]
        && file == Saved(Applied(Store("custom::" + name, RecordOf(l)), Loaded(old(file))))
    {
      if !accepted {
        return None;
      }
      var j := Start(CustomLaunch(name, leaseName, profile, gpu, cards, overrides));
      job := Some(j);
    }

    /** Stopping by key: a tracked service is taken down and forgotten, an orphan loses its containers. */
    method DoDown(d: Docker, key: string) returns (job: Option<nat>)
      modifies this
      ensures var cmd := DownCommand(config, Loaded(old(file)), d, key);
        && (cmd.None? ==> job == None && jobs == old(jobs))
        && (cmd.Some? ==> job == Some(|old(jobs)|) && jobs == old(jobs) + [cmd.value])
      ensures file == if key in Loaded(old(file)) then Saved(Applied(Forget(key), Loaded(old(file)))) else old(file)
      ensures !old(file).Saved? || key !in old(file).state ==> file == old(file)
      ensures old(file).Saved? && key in old(file).state ==> file == Saved(old(file).state - {key})
    {
      var st := LoadState();
      if key !in st {
        if |key| >= |ORPHAN| && key[..|ORPHAN|] == ORPHAN {
          var names := Members(d, key[|ORPHAN|..]);
          if names == {} {
            return None;
          }
          var j := NewJob(RemoveContainers(names));
          return Some(j);
        }
        return None;
      }
      var rec := st[key];
      var proj := ProjectOf(rec);
      var env := config.ambient[PROJECT := proj];
      env := env[LEASE := proj];
      env := env + rec.env;
      var j := NewJob(ComposeDown(proj, rec.profile, rec.custom, env));
      SaveState(st - {key});
      job := Some(j);
    }

    /** The panel's view: every record with its live status, then what docker runs that no record names. */
    method BuildState(d: Docker) returns (entries: set<Entry>)
      ensures entries == Listing(Loaded(file), d)
      ensures forall k :: k in Loaded(file) ==> exists e :: e in entries && e.key == k && ShowsStatus(d, Loaded(file)[k], e)
    {
      hide ShowsStatus, Shown, ProjectOf;
      var st := LoadState();
      var trackedProjects: set<string> := {};
      var keys := st.Keys;
      entries := {};
      while keys != {}
        invariant keys <= st.Keys
        invariant trackedProjects == set k | k in st && k !in keys :: ProjectOf(st[k])
        invariant entries == set k | k in st && k !in keys :: TrackedEntry(d, k, st[k])
        decreases keys
      {
        var key :| key in keys;
        var proj := ProjectOf(st[key]);
        trackedProjects := trackedProjects + {proj};
        entries := entries + {TrackedEntry(d, key, st[key])};
        keys := keys - {key};
      }
      assert forall p :: p in trackedProjects <==> Tracked(st, p);
      ghost var shown := entries;
      var projects := Projects(d);
      while projects != {}
        invariant projects <= Projects(d)
        invariant entries == shown + set p | p in Projects(d) && p !in projects && Orphan(st, d, p) :: Entry(ORPHAN + p, p, true, true)
        decreases projects
      {
        var proj :| proj in projects;
        if proj !in trackedProjects && GPU_PREFIX <= proj {
          LiveMembersIff(d, proj);
          if LiveMembers(d, proj) != {} {
            entries := entries + {Entry(ORPHAN + proj, proj, true, true)};
          }
        }
        projects := projects - {proj};
      }
      forall k | k in st
        ensures exists e :: e in entries && e.key == k && ShowsStatus(d, st[k], e)
      {
        EveryRecordShown(st, d, k);
      }
    }
  }
}
