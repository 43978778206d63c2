/** Every live GPU project stays stoppable: exactly for which repositories, over all runs of the panel. */
module PanelSafety {
  import opened ControlPanel
  import opened PanelRuns
  import opened Wrappers

  /** The projects of concern: all with the GPU prefix, or those of them that compose can create. */
  predicate AnyGpuProject(project: string) {
    GPU_PREFIX <= project
  }

  predicate ComposeGpuProject(project: string) {
    GPU_PREFIX <= project
    && forall i :: 0 <= i < |project| ==>
         'a' <= project[i] <= 'z' || '0' <= project[i] <= '9' || project[i] == '-' || project[i] == '_'
  }

  ghost predicate GpuOnly(concern: string -> bool) {
    forall p :: concern(p) ==> GPU_PREFIX <= p
  }

  /** Some profile of the repository has the key that some such project gets as an orphan. */
  ghost predicate Clashing(repo: string, concern: string -> bool) {
    exists profile, p :: concern(p) && RepoKey(repo, profile) == ORPHAN + p
  }

  /** A repository whose key starts like an orphan's is called "orphan" or starts so itself. */
  lemma KeyLikeOrphan(repo: string, profile: string, p: string)
    requires RepoKey(repo, profile) == ORPHAN + p
    ensures repo == "orphan" || (repo == "orphan:" && p != "" && p[0] == ':') || ORPHAN <= repo
  {
    var key := RepoKey(repo, profile);
    assert key[|repo|] == ':' == key[|repo| + 1] && key[..|repo|] == repo;
    assert |repo| < |ORPHAN| ==> repo == ORPHAN[..|repo|];
    if |repo| == 6 {
      assert ORPHAN[..6] == "orphan";
    } else if |repo| == 7 {
      assert ORPHAN[..7] == "orphan:";
      assert p[0] == key[8];
    }
  }

  /** With any label allowed the clashing repositories are those called "orphan" or starting with "orphan::lease-". */
  lemma ClashingIff(repo: string)
    ensures Clashing(repo, AnyGpuProject) <==> repo == "orphan" || ORPHAN + GPU_PREFIX <= repo
  {
    if repo == "orphan" {
      assert RepoKey(repo, GPU_PREFIX) == ORPHAN + GPU_PREFIX;
    } else if ORPHAN + GPU_PREFIX <= repo {
      var p := repo[|ORPHAN|..] + "::";
      assert RepoKey(repo, "") == ORPHAN + p;
    } else if profile, p :| AnyGpuProject(p) && RepoKey(repo, profile) == ORPHAN + p {
      KeyLikeOrphan(repo, profile, p);
      LongKey(repo, profile, p);
    }
  }

  lemma LongKey(repo: string, profile: string, p: string)
    requires RepoKey(repo, profile) == ORPHAN + p && GPU_PREFIX <= p && ORPHAN <= repo
    ensures ORPHAN + GPU_PREFIX <= repo
  {
    var key, o := RepoKey(repo, profile), ORPHAN + GPU_PREFIX;
    assert o == key[..|o|] && key[..|repo|] == repo && key[|repo|] == ':';
    assert forall i :: |ORPHAN| <= i < |o| ==> o[i] != ':' && key[i] == o[i];
  }

  /** With the names compose can create it is the one called "orphan" alone. */
  lemma ComposeClashingIff(repo: string)
    ensures Clashing(repo, ComposeGpuProject) <==> repo == "orphan"
  {
    if repo == "orphan" {
      assert RepoKey(repo, GPU_PREFIX) == ORPHAN + GPU_PREFIX;
    } else if profile, p :| ComposeGpuProject(p) && RepoKey(repo, profile) == ORPHAN + p {
      ComposeKey(repo, profile, p);
    }
  }

  lemma ComposeKey(repo: string, profile: string, p: string)
    requires ComposeGpuProject(p) && RepoKey(repo, profile) == ORPHAN + p
    ensures repo == "orphan"
  {
    KeyLikeOrphan(repo, profile, p);
    var key := RepoKey(repo, profile);
    assert forall i :: |ORPHAN| <= i < |key| ==> key[i] == p[i - |ORPHAN|];
    assert key[|repo|] == ':';
  }

  /** No record sits under the key an orphaned project of concern would get. */
  ghost predicate NoClash(st: State, concern: string -> bool) {
    forall p :: concern(p) ==> ORPHAN + p !in st
  }

  /** No record, read, held by a request or about to be written, sits under such a key. */
  ghost predicate Safe(w: World, concern: string -> bool) {
    NoClash(Loaded(w.file), concern) && forall id :: id in w.requests ==> SafeRequest(w.requests[id], concern)
  }

  ghost predicate SafeRequest(r: Request, concern: string -> bool) {
    && (r.seen.Some? ==> NoClash(r.seen.value, concern))
    && (r.change.Store? ==> forall p :: concern(p) ==> ORPHAN + p != r.change.key)
  }

  ghost predicate GoodRepos(c: Config, concern: string -> bool) {
    forall r :: r in c.repos ==> !Clashing(r, concern)
  }

  lemma AppliedKeepsSafe(r: Request, concern: string -> bool)
    requires SafeRequest(r, concern) && r.seen.Some?
    ensures NoClash(Applied(r.change, r.seen.value), concern)
  {
  }

  lemma LaunchIsSafe(c: Config, s: Step, l: Launch, concern: string -> bool)
    requires GoodRepos(c, concern) && LaunchOf(c, s) == Some(l)
    ensures SafeRequest(Request(Store(l.key, RecordOf(l)), None), concern)
  {
    forall p | concern(p)
      ensures ORPHAN + p != l.key
    {
      if s.Up? {
        assert !Clashing(s.repo, concern) && l.key == RepoKey(s.repo, s.profile);
      } else {
        assert l.key[0] == 'c' && (ORPHAN + p)[0] == 'o';
      }
    }
  }

  lemma StepKeepsSafe(c: Config, w: World, s: Step, concern: string -> bool)
    requires GoodRepos(c, concern) && Safe(w, concern) && JobsNamed(w.jobs)
    ensures Safe(After(c, w, s), concern)
  {
    hide Clashing, NoClash, SafeRequest, UpCommand, DownCommand, Acted;
    match s
    case Load(id) =>
      if id in w.requests && w.requests[id].seen.None? {
        SeenIsSafe(w.requests[id], Loaded(w.file), concern);
      }
    case Save(id) =>
      if id in w.requests && w.requests[id].seen.Some? {
        AppliedKeepsSafe(w.requests[id], concern);
      }
    case Down(id, key) => NothingSeen(key, concern);
    case Lose => NothingStored(concern);
    case Garble => NothingStored(concern);
    case Up(_, repo, _, _, _, _, _) =>
      if repo in c.repos {
        LaunchIsSafe(c, s, LaunchOf(c, s).value, concern);
      }
    case Custom(_, _, _, _, _, _, _) => LaunchIsSafe(c, s, LaunchOf(c, s).value, concern);
    case _ =>
  }

  lemma SeenIsSafe(r: Request, st: State, concern: string -> bool)
    requires SafeRequest(r, concern) && NoClash(st, concern)
    ensures SafeRequest(Request(r.change, Some(st)), concern)
  {
  }

  lemma NothingSeen(key: string, concern: string -> bool)
    ensures SafeRequest(Request(Forget(key), None), concern)
  {
  }

  lemma NothingStored(concern: string -> bool)
    ensures NoClash(map[], concern)
  {
  }

  lemma {:induction false} RunKeepsSafe(c: Config, w: World, steps: seq<Step>, concern: string -> bool)
    requires GoodRepos(c, concern) && Safe(w, concern) && JobsNamed(w.jobs)
    ensures Safe(Run(c, w, steps), concern)
    decreases |steps|
  {
    hide After, Safe;
    if steps != [] {
      RunKeepsSafe(c, w, steps[..|steps| - 1], concern);
      StepKeepsSafe(c, Run(c, w, steps[..|steps| - 1]), steps[|steps| - 1], concern);
    }
  }

  ghost predicate AllStoppable(c: Config, w: World, concern: string -> bool) {
    forall p :: concern(p) && LiveIn(w.docker, p) ==> Stoppable(c, Loaded(w.file), w.docker, p)
  }

  /** A start: nothing in flight, and a state file the panel could have written. */
  ghost predicate Fresh(w: World, concern: string -> bool) {
    w.requests == map[] && w.jobs == [] && NoClash(Loaded(w.file), concern)
  }

  lemma GpuProjectsStayStoppable(c: Config, w: World, steps: seq<Step>, concern: string -> bool)
    requires GpuOnly(concern) && GoodRepos(c, concern) && Fresh(w, concern)
    ensures AllStoppable(c, Run(c, w, steps), concern)
  {
    RunKeepsSafe(c, w, steps, concern);
    hide After, Run;
    var r := Run(c, w, steps);
    forall p | concern(p) && LiveIn(r.docker, p)
      ensures Stoppable(c, Loaded(r.file), r.docker, p)
    {
      LiveGpuProjectStoppableIff(c, Loaded(r.file), r.docker, p);
    }
  }

  /** The configuration keeps its promise whatever happens. */
  ghost predicate AlwaysStoppable(c: Config, concern: string -> bool) {
    forall w, steps :: Fresh(w, concern) ==> AllStoppable(c, Run(c, w, steps), concern)
  }

  /** And it does so exactly when no repository's key can be taken for an orphan's. */
  lemma AlwaysStoppableIff(c: Config, concern: string -> bool)
    requires GpuOnly(concern)
    ensures AlwaysStoppable(c, concern) <==> GoodRepos(c, concern)
  {
    hide AllStoppable, Clashing;
    if GoodRepos(c, concern) {
      forall w, steps | Fresh(w, concern)
        ensures AllStoppable(c, Run(c, w, steps), concern)
      {
        GpuProjectsStayStoppable(c, w, steps, concern);
      }
    } else {
      var repo :| repo in c.repos && Clashing(repo, concern);
      var steps := ClashRun(c, repo, concern);
      assert Fresh(EMPTY, concern);
    }
  }

  /** For the projects compose can create: exactly when no repository is called "orphan". */
  lemma ComposeProjectsStoppableIff(c: Config)
    ensures AlwaysStoppable(c, ComposeGpuProject) <==> "orphan" !in c.repos
  {
    hide AlwaysStoppable, Clashing;
    AlwaysStoppableIff(c, ComposeGpuProject);
    forall r | r in c.repos
      ensures Clashing(r, ComposeGpuProject) <==> r == "orphan"
    {
      ComposeClashingIff(r);
    }
  }

  /** For projects under any label: exactly when none is called "orphan" or starts with "orphan::lease-". */
  lemma LabelledProjectsStoppableIff(c: Config)
    ensures AlwaysStoppable(c, AnyGpuProject) <==> forall r :: r in c.repos ==> r != "orphan" && !(ORPHAN + GPU_PREFIX <= r)
  {
    hide AlwaysStoppable, Clashing;
    AlwaysStoppableIff(c, AnyGpuProject);
    forall r | r in c.repos
      ensures Clashing(r, AnyGpuProject) <==> r == "orphan" || ORPHAN + GPU_PREFIX <= r
    {
      ClashingIff(r);
    }
  }

  lemma ClashRun(c: Config, repo: string, concern: string -> bool) returns (steps: seq<Step>)
    requires repo in c.repos && Clashing(repo, concern) && GpuOnly(concern)
    ensures !AllStoppable(c, Run(c, EMPTY, steps), concern)
  {
    hide Run, UpCommand, RepoLaunch, CustomLaunch, Stoppable;
    var profile, p :| concern(p) && RepoKey(repo, profile) == ORPHAN + p;
    var up := Up(0, repo, profile, false, 1, "cpu", map[]);
    var l := LaunchOf(c, up).value;
    LaunchRun(c, up, l);
    steps := [up, Load(0), Save(0)] + [Appears("box", Some(p), Running)];
    Then(c, EMPTY, [up, Load(0), Save(0)], Appears("box", Some(p), Running));
    var w := Run(c, EMPTY, steps);
    assert w.docker == map["box" := Container(Some(p), Running, false)];
    assert "box" in w.docker && w.docker["box"].project == Some(p) && Live(w.docker["box"]);
    ShadowedKey(c, repo, profile, p, w.docker, l);
  }

  lemma ShadowedKey(c: Config, repo: string, profile: string, p: string, d: Docker, l: Launch)
    requires RepoKey(repo, profile) == ORPHAN + p && GPU_PREFIX <= p && LiveIn(d, p)
    requires l == RepoLaunch(c, repo, profile, false, 1, "cpu", map[])
    ensures !Stoppable(c, map[l.key := RecordOf(l)], d, p)
  {
    LiveGpuProjectStoppableIff(c, map[l.key := RecordOf(l)], d, p);
  }
}
