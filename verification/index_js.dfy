/** One run of the older JavaScript variant: no settings file, a default
    target of `~/git`, an existence check for the target that always looks
    under `/Users/<user>/`, and commands that always join with `/`. */
module IndexJs {
  import opened Wrappers
  import opened JsString
  import opened Lines
  import opened RepoName
  import opened Workflow

  const DefaultList: string := "./my.list"
  const DefaultTarget: string := "~/git"

  /** `parseArgs`: the raw arguments, or None when `-h` asks for help. */
  function ParseArgs(argv: seq<string>): (r: Option<seq<string>>)
    ensures r.None? <==> "-h" in argv
    ensures r.Some? ==> r.value == argv
  {
    if "-h" in argv then None else Some(argv)
  }

  /** Destructuring without defaults; the parameter defaults of `getReposUrls`
      and of the path functions apply to a missing element. */
  function ConfigOf(args: seq<string>): Config {
    Destructure(args, DefaultList, DefaultTarget)
  }

  /** The home directory `~` stands for. */
  function Home(user: string): string {
    "/Users/" + user + "/"
  }

  /** `path.substring(2)` when the path contains `~` anywhere, else the path:
      the first two characters go (all of a one-character path such as `~`),
      whatever they are. */
  function StripTilde(path: string): (r: string)
    ensures '~' !in path ==> r == path
    ensures '~' in path ==> r == path[(if |path| < 2 then |path| else 2)..]
  {
    if '~' in path then Substring(path, 2, |path|) else path
  }

  /** The path `createGitDir` checks: under the home directory even when the
      target has no `~` at all. */
  function GitDirCheckPath(user: string, target: string): (r: string)
    ensures '~' !in target ==> r == "/Users/" + user + "/" + target
    ensures '~' in target ==> r == "/Users/" + user + "/" + target[(if |target| < 2 then |target| else 2)..]
  {
    Home(user) + StripTilde(target)
  }

  /** The path `cloneIfNotExists` checks. */
  function RepoCheckPath(user: string, target: string, name: string): (r: string)
    ensures '~' in target ==> r == "/Users/" + user + "/" + target[(if |target| < 2 then |target| else 2)..] + "/" + name
    ensures '~' !in target ==> r == target + "/" + name
  {
    (if '~' in target then Home(user) + StripTilde(target) else target) + "/" + name
  }

  /** The default target `~/git` is checked at `/Users/<user>/git`, and a
      `~`-relative target is checked under the home directory. */
  lemma CheckPathsHomeRelative(user: string, rest: string, name: string)
    ensures GitDirCheckPath(user, DefaultTarget) == "/Users/" + user + "/git"
    ensures GitDirCheckPath(user, "~/" + rest) == "/Users/" + user + "/" + rest
    ensures RepoCheckPath(user, "~/" + rest, name) == "/Users/" + user + "/" + rest + "/" + name
  {
    var p := "~/" + rest;
    assert p[0] == '~';
    assert p[2..] == rest;
    assert DefaultTarget[0] == '~';
    assert DefaultTarget[2..] == "git";
  }

  /** The target check ignores whether the target is absolute or relative: `.`
      and `/tmp/x` are both looked for inside the home directory. */
  lemma GitDirCheckOutsideHome(user: string)
    ensures GitDirCheckPath(user, ".") == "/Users/" + user + "/."
    ensures GitDirCheckPath(user, "/tmp/x") == "/Users/" + user + "//tmp/x"
  {
  }

  /** A `~` that is not at the start still expands, dropping the first two
      characters: `/a~b` is checked at `/Users/<user>/~b/<name>`. */
  lemma RepoCheckTildeNotAtStart(user: string, name: string)
    ensures RepoCheckPath(user, "/a~b", name) == "/Users/" + user + "/~b/" + name
  {
    assert "/a~b"[2] == '~';
    assert "/a~b"[2..] == "~b";
  }

  /** What the per-URL closure computes for one URL; log lines show the raw target. */
  function Plan(url: string, target: string, user: string): (p: RepoPlan)
    ensures WellFormedPlan(p)
    ensures p.name == GetRepoName(url)
    ensures p.checkPath == RepoCheckPath(user, target, p.name)
    ensures p.clone == GitClone(url, target + "/" + p.name)
    ensures p.pull == GitPull(target + "/" + p.name)
  {
    var name := GetRepoName(url);
    RepoPlan(
      name,
      RepoCheckPath(user, target, name),
      GitClone(url, target + "/" + name),
      "Cloning " + name + " into " + target + "...",
      GitPull(target + "/" + name),
      "Updating " + name + " in " + target + "...")
  }

  function Plans(urls: seq<string>, target: string, user: string): (ps: seq<RepoPlan>)
    ensures |ps| == |urls|
    ensures forall i :: 0 <= i < |urls| ==> ps[i] == Plan(urls[i], target, user)
    ensures forall i :: 0 <= i < |ps| ==> WellFormedPlan(ps[i])
  {
    seq(|urls|, i requires 0 <= i < |urls| => Plan(urls[i], target, user))
  }

  /** `createGitDir`: `mkdir -p <target>` exactly when the check fails, with no
      exemption for `.`. */
  function CreateGitDir(user: string, target: string, present: set<string>): (events: seq<Event>)
    ensures Commands(events) == if GitDirCheckPath(user, target) in present then [] else [MakeDir(target)]
  {
    if GitDirCheckPath(user, target) in present then []
    else [Say("Creating a new directory at " + target + "..."), Run(MakeDir(target))]
  }

  /** The main function: arguments, list file, user, target directory, fan-out. */
  function Main(env: Env): (r: RunResult)
    // nothing is ever written, and `-h` wins over every other failure
    ensures r.writes == []
    ensures "-h" in env.argv ==> r == Stopped([], [], HelpShown)
    // the list is read before the user is looked up
    ensures r.Stopped? && r.why.UserUnknown? ==> ConfigOf(env.argv).source in env.files
    ensures r.Finished? ==> r.config == ConfigOf(env.argv) && |r.reports| == |r.urls|
    // a missing source defaults to ./my.list and a missing target to ~/git
    ensures r.Finished? && |env.argv| == 0 ==> r.config.source == DefaultList
    ensures r.Finished? && |env.argv| < 2 ==> r.config.target == DefaultTarget
    ensures r.Finished? ==> r.suggestion == Some("cd " + r.config.target)
  {
    match ParseArgs(env.argv)
    case None => Stopped([], [], HelpShown)
    case Some(args) =>
      var config := ConfigOf(args);
      if config.source !in env.files then Stopped([], [], ListMissing(config.source))
      else
        match env.user
        case None => Stopped([], [], UserUnknown)
        case Some(user) =>
          var setup := CreateGitDir(user, config.target, env.present);
          if MakeDir(config.target) in Commands(setup) && MakeDir(config.target) !in env.succeeds then
            Stopped([], setup, MakeDirFailed(config.target))
          else
            var urls := ParseLines(env.files[config.source]);
            Finished([], config, urls, setup,
                     SyncAll(Plans(urls, config.target, user), env.present, env.succeeds),
                     Some("cd " + config.target))
  }

  /** In a finished run, every URL gets exactly one clone if its checked path is
      absent and otherwise exactly one pull, both on the raw target. */
  lemma MainOneCommandPerUrl(env: Env)
    ensures var r := Main(env);
            r.Finished? ==>
              && r.urls == ParseLines(env.files[r.config.source])
              && forall i :: 0 <= i < |r.urls| ==>
                   var name := GetRepoName(r.urls[i]);
                   Commands(r.reports[i].events) ==
                     if RepoCheckPath(env.user.value, r.config.target, name) in env.present
                     then [GitPull(r.config.target + "/" + name)]
                     else [GitClone(r.urls[i], r.config.target + "/" + name)]
  {
  }

  /** The target directory is created whenever its check under the home
      directory fails, including for `.`: the run then either stops on a failed
      `mkdir -p` or goes on with that command in its setup. */
  lemma MainMakeDir(env: Env)
    requires "-h" !in env.argv && env.user.Some?
    requires ConfigOf(env.argv).source in env.files
    ensures var r := Main(env);
            var t := ConfigOf(env.argv).target;
            (MakeDir(t) in Commands(r.setup) <==> GitDirCheckPath(env.user.value, t) !in env.present)
            && (r.Stopped? <==> MakeDir(t) in Commands(r.setup) && MakeDir(t) !in env.succeeds)
  {
  }

  /** Whether a run finishes does not depend on any git command's outcome. */
  lemma MainFinishesDespiteRepoFailures(env: Env, succeeds: set<Command>)
    requires forall p :: MakeDir(p) in env.succeeds <==> MakeDir(p) in succeeds
    ensures Main(env).Finished? <==> Main(env.(succeeds := succeeds)).Finished?
  {
  }
}
