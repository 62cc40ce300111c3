/** One run of the TypeScript variant: find the user, reconcile the arguments
    with the settings file, read the repository list, make sure the target
    directory exists, then clone or pull every listed repository and suggest a
    `cd` into the target. */
module IndexTs {
  import opened Wrappers
  import opened JsString
  import opened Lines
  import opened RepoName
  import opened Workflow
  import opened TsSettings
  import opened TsPaths

  /** What the per-URL closure of the main function computes for one URL. */
  function Plan(url: string, target: string, user: string, windows: bool, style: HomeStyle): (p: RepoPlan)
    ensures WellFormedPlan(p)
    ensures p.name == GetRepoName(url)
    ensures p.checkPath == RepoCheckPath(target, p.name, user, windows, style)
    ensures p.clone == CloneCommand(url, target, p.name, windows)
    ensures p.pull == PullCommand(target, p.name, windows)
  {
    var name := GetRepoName(url);
    var shown := Display(target, user);
    RepoPlan(
      name,
      RepoCheckPath(target, name, user, windows, style),
      CloneCommand(url, target, name, windows),
      "Cloning " + name + " into " + shown + "...",
      PullCommand(target, name, windows),
      "Updating " + name + " in " + shown + "...")
  }

  function Plans(urls: seq<string>, target: string, user: string, windows: bool, style: HomeStyle): (ps: seq<RepoPlan>)
    ensures |ps| == |urls|
    ensures forall i :: 0 <= i < |urls| ==> ps[i] == Plan(urls[i], target, user, windows, style)
    ensures forall i :: 0 <= i < |ps| ==> WellFormedPlan(ps[i])
  {
    seq(|urls|, i requires 0 <= i < |urls| => Plan(urls[i], target, user, windows, style))
  }

  /** `createGitDir`: when the expanded target is missing, announce it and run
      `mkdir -p` on the raw target, except for the current directory `.`. */
  function CreateGitDir(user: string, target: string, windows: bool, style: HomeStyle, present: set<string>): (events: seq<Event>)
    ensures |events| == 0 <==> ExpandTilde(target, user, windows, style) in present
    ensures Commands(events) ==
              if ExpandTilde(target, user, windows, style) in present || target == "." then [] else [MakeDir(target)]
  {
    if ExpandTilde(target, user, windows, style) in present then []
    else
      var note := [Say("Creating a new directory at " + Display(target, user) + "...")];
      if target == "." then note else note + [Run(MakeDir(target))]
  }

  /** `suggestAction`: nothing for `.`, otherwise `cd` into the target in its
      display form, the home directory shown as `~`. */
  function SuggestAction(target: string, user: string): (s: Option<string>)
    ensures s.None? <==> target == "."
    ensures target != "." ==> s == Some("cd " + Display(target, user))
  {
    if target == "." then None else Some("cd " + ReplaceFirst(target, HomeMarker(user), "~"))
  }

  /** A target inside the home directory is suggested with `~`. */
  lemma SuggestInsideHome(user: string, rest: string)
    ensures SuggestAction(HomeMarker(user) + "/" + rest, user) == Some("cd ~/" + rest)
  {
    var target := HomeMarker(user) + "/" + rest;
    assert target[0] != "."[0];
    DisplayInsideHome(user, rest);
    assert "cd " + Display(target, user) == "cd ~/" + rest;
  }

  /** A target that cannot mention the home directory is suggested verbatim. */
  lemma SuggestOutsideHome(target: string, user: string)
    requires target != "." && '/' !in target
    ensures SuggestAction(target, user) == Some("cd " + target)
  {
    DisplayOutsideHome(target, user);
  }

  /** The main function. `style` selects the POSIX home prefix of the `~`
      expansion: `AsWritten` is the script as it stands, `Corrected` adds the
      missing leading slash. */
  function Main(env: Env, style: HomeStyle): (r: RunResult)
    // the user is looked up first, then `-h` is honoured; neither touches the settings
    ensures env.user.None? ==> r == Stopped([], [], UserUnknown)
    ensures env.user.Some? && "-h" in env.argv ==> r == Stopped([], [], HelpShown)
    // at most one settings write per run, only to the settings file, and only one that succeeds
    ensures |r.writes| <= 1
    ensures forall w :: w in r.writes ==>
              env.user.Some? && w.path == SettingsFilePath(env.user.value, env.windows) && w.path in env.writable
    // every listed URL settles with exactly one report
    ensures r.Finished? ==> |r.reports| == |r.urls|
    ensures r.Finished? ==> (r.suggestion.None? <==> r.config.target == ".")
  {
    match env.user
    case None => Stopped([], [], UserUnknown)
    case Some(user) =>
      var settingsPath := SettingsFilePath(user, env.windows);
      match ParseArgs(env.argv, Lookup(env.files, settingsPath))
      case HelpRequested => Stopped([], [], HelpShown)
      case Parsed(args, write) =>
        if write.Some? && settingsPath !in env.writable then Stopped([], [], SettingsWriteFailed(settingsPath))
        else
          var writes := if write.Some? then [FileWrite(settingsPath, write.value)] else [];
          var files := if write.Some? then env.files[settingsPath := write.value] else env.files;
          var config := ConfigOf(args);
          if config.source !in files then Stopped(writes, [], ListMissing(config.source))
          else
            var setup := CreateGitDir(user, config.target, env.windows, style, env.present);
            if MakeDir(config.target) in Commands(setup) && MakeDir(config.target) !in env.succeeds then
              Stopped(writes, setup, MakeDirFailed(config.target))
            else
              var urls := ParseLines(files[config.source]);
              var plans := Plans(urls, config.target, user, env.windows, style);
              Finished(writes, config, urls, setup,
                       SyncAll(plans, env.present, env.succeeds),
                       SuggestAction(config.target, user))
  }

  /** A run stops on the settings write exactly when `saveSettings` decides to
      write and the write fails; with no readable settings file that is every
      run whose settings path cannot be written. */
  lemma MainSettingsWriteFailure(env: Env, style: HomeStyle)
    requires env.user.Some? && "-h" !in env.argv
    ensures var path := SettingsFilePath(env.user.value, env.windows);
            var r := Main(env, style);
            && ((r.Stopped? && r.why.SettingsWriteFailed?) <==>
                  SaveSettings(env.argv, Lookup(env.files, path)).write.Some? && path !in env.writable)
            && (path !in env.files && path !in env.writable ==> r == Stopped([], [], SettingsWriteFailed(path)))
  {
  }

  /** A run that gets past the settings write uses the reconciled arguments,
      falls back to the raw ones, and applies the destructuring defaults; the
      list it processes is the parsed source file, read after the write. */
  lemma MainConfiguration(env: Env, style: HomeStyle)
    requires env.user.Some? && "-h" !in env.argv
    ensures var user := env.user.value;
            var path := SettingsFilePath(user, env.windows);
            var file := Lookup(env.files, path);
            var saved := SaveSettings(env.argv, file);
            var r := Main(env, style);
            && ((r.Stopped? && r.why.SettingsWriteFailed?) ||
                r.writes == (if saved.write.Some? then [FileWrite(path, saved.write.value)] else []))
            && (r.Finished? ==>
                  && r.setup == CreateGitDir(user, r.config.target, env.windows, style, env.present)
                  && r.config == ConfigOf(if |env.argv| == 0 && file.Some? && |ParseLines(file.value)| > 0
                                          then ParseLines(file.value) else env.argv)
                  && r.urls == ParseLines(if saved.write.Some? && r.config.source == path
                                          then saved.write.value else env.files[r.config.source]))
  {
    EffectiveArguments(env.argv, Lookup(env.files, SettingsFilePath(env.user.value, env.windows)));
  }

  /** In a finished run, every URL gets exactly one clone if
      `<expanded target>/<name>` is absent and otherwise exactly one pull. */
  lemma MainOneCommandPerUrl(env: Env, style: HomeStyle)
    ensures var r := Main(env, style);
            r.Finished? ==>
              forall i :: 0 <= i < |r.urls| ==>
                var name := GetRepoName(r.urls[i]);
                Commands(r.reports[i].events) ==
                  if RepoCheckPath(r.config.target, name, env.user.value, env.windows, style) in env.present
                  then [PullCommand(r.config.target, name, env.windows)]
                  else [CloneCommand(r.urls[i], r.config.target, name, env.windows)]
  {
  }

  /** The same for the `i`-th URL alone. */
  lemma MainCommandOf(env: Env, style: HomeStyle, i: int)
    requires Main(env, style).Finished? && 0 <= i < |Main(env, style).urls|
    ensures var r := Main(env, style);
            var name := GetRepoName(r.urls[i]);
            Commands(r.reports[i].events) ==
              if RepoCheckPath(r.config.target, name, env.user.value, env.windows, style) in env.present
              then [PullCommand(r.config.target, name, env.windows)]
              else [CloneCommand(r.urls[i], r.config.target, name, env.windows)]
  {
    MainOneCommandPerUrl(env, style);
  }

  /** Only `mkdir -p` can stop a run after the list is read: whether a run
      finishes does not depend on any git command's outcome. */
  lemma MainFinishesDespiteRepoFailures(env: Env, style: HomeStyle, succeeds: set<Command>)
    requires forall p :: MakeDir(p) in env.succeeds <==> MakeDir(p) in succeeds
    ensures Main(env, style).Finished? <==> Main(env.(succeeds := succeeds), style).Finished?
  {
  }

  /** Once a run reaches `createGitDir`, it stops there exactly when the
      expanded target is missing, the target is not `.`, and `mkdir -p` fails. */
  lemma MainMakeDirFailure(env: Env, style: HomeStyle)
    requires var r := Main(env, style); r.Finished? || r.why.MakeDirFailed?
    ensures var r := Main(env, style);
            var t := if r.Finished? then r.config.target else r.why.path;
            r.Stopped? <==>
              t != "." && ExpandTilde(t, env.user.value, env.windows, style) !in env.present && MakeDir(t) !in env.succeeds
  {
  }

  /** The target `~/git` of the example below expands to `Users/u/git` as
      written and to `/Users/u/git` corrected. */
  lemma ExampleTarget()
    ensures ExpandTilde("~/git", "u", false, AsWritten) == "Users/u/git"
    ensures ExpandTilde("~/git", "u", false, Corrected) == "/Users/u/git"
  {
    assert "~/git" == "~/" + "git";
    ExpandHomeRelative(HomePrefix(AsWritten, "u", false), "git");
    ExpandHomeRelative(HomePrefix(Corrected, "u", false), "git");
  }

  /** A repository list holding one URL whose repository is `foo`, such as
      `h/foo.git`. */
  predicate FooUrl(url: string) {
    url != "" && '\n' !in url && GetRepoName(url) == "foo"
  }

  lemma FooUrlExample()
    ensures FooUrl("h/foo.git")
  {
    NameBetweenSlashAndDot("h", "foo", "git");
    assert "h" + "/" + "foo" + "." + "git" == "h/foo.git";
  }

  /** The environment of the example: user `u` on POSIX, arguments `l` and
      `~/git`, no settings file yet, a list `l` holding `url`, and a working
      directory that happens to hold `Users/u/git/foo`; only `mkdir -p ~/git`
      succeeds. */
  function ExampleEnv(url: string): Env {
    Env(["l", "~/git"], Some("u"), false, map["l" := url],
        {"Users/u/git", "Users/u/git/foo"}, {"/Users/u/.git_init_settings"},
        {MakeDir("~/git")})
  }

  /** A run that gets past `-h`, the settings write and the list read either
      finishes or stops on `mkdir -p`. */
  lemma MainReachesCreateGitDir(env: Env, style: HomeStyle)
    requires env.user.Some? && "-h" !in env.argv
    requires var path := SettingsFilePath(env.user.value, env.windows);
             var p := ParseArgs(env.argv, Lookup(env.files, path));
             && (p.write.None? || path in env.writable)
             && (ConfigOf(p.args).source in env.files || (p.write.Some? && ConfigOf(p.args).source == path))
    ensures var r := Main(env, style);
            r.Finished? || r.why.MakeDirFailed?
  {
  }

  /** The example run gets to `createGitDir` in both styles. */
  lemma ExampleReachesCreateGitDir(url: string, style: HomeStyle)
    ensures var r := Main(ExampleEnv(url), style);
            r.Finished? || r.why.MakeDirFailed?
  {
    var env := ExampleEnv(url);
    var settings := SettingsFilePath("u", false);
    assert settings == "/Users/u/.git_init_settings";
    assert Lookup(env.files, settings) == None;
    EffectiveArguments(env.argv, None);
    MainReachesCreateGitDir(env, style);
  }

  /** A finished example run uses `l`, `~/git` and the single URL of the list. */
  lemma ExampleConfiguration(url: string, style: HomeStyle)
    requires FooUrl(url)
    ensures var r := Main(ExampleEnv(url), style);
            r.Finished? ==> r.config == Config("l", "~/git") && r.urls == [url]
  {
    var env := ExampleEnv(url);
    var settings := SettingsFilePath("u", false);
    assert Lookup(env.files, settings) == None;
    MainConfiguration(env, style);
    var r := Main(env, style);
    if r.Finished? {
      assert r.config == ConfigOf(env.argv) == Config("l", "~/git");
      assert r.config.source != settings;
      assert r.urls == ParseLines(env.files["l"]);
      ParseSingleLine(url);
    }
  }

  /** The example run finishes in both styles: `mkdir -p ~/git` succeeds. */
  lemma ExampleFinishes(url: string, style: HomeStyle)
    requires FooUrl(url)
    ensures var r := Main(ExampleEnv(url), style);
            r.Finished? && r.config == Config("l", "~/git") && r.urls == [url]
  {
    var env := ExampleEnv(url);
    ExampleReachesCreateGitDir(url, style);
    ExampleConfiguration(url, style);
    MainMakeDirFailure(env, style);
  }

  /** The `createGitDir` step of the example: nothing as written, because
      `Users/u/git` exists; `mkdir -p ~/git` corrected, because `/Users/u/git`
      does not. */
  lemma ExampleSetup(url: string, style: HomeStyle)
    requires FooUrl(url)
    ensures var r := Main(ExampleEnv(url), style);
            Commands(r.setup) == if style.AsWritten? then [] else [MakeDir("~/git")]
    ensures style.AsWritten? ==> Main(ExampleEnv(url), style).setup == []
  {
    var env := ExampleEnv(url);
    ExampleFinishes(url, style);
    ExampleTarget();
    MainConfiguration(env, style);
  }

  /** Where the example's repository is checked, and its two commands. */
  lemma ExampleChecks(url: string)
    ensures RepoCheckPath("~/git", "foo", "u", false, AsWritten) in ExampleEnv(url).present
    ensures RepoCheckPath("~/git", "foo", "u", false, Corrected) !in ExampleEnv(url).present
    ensures PullCommand("~/git", "foo", false) == GitPull("~/git/foo")
    ensures CloneCommand(url, "~/git", "foo", false) == GitClone(url, "~/git/foo")
  {
    ExampleTarget();
    assert RepoCheckPath("~/git", "foo", "u", false, AsWritten) == "Users/u/git/foo";
    assert RepoCheckPath("~/git", "foo", "u", false, Corrected) == "/Users/u/git/foo";
  }

  /** The one report of the example: a pull as written, a clone corrected. */
  lemma ExampleReport(url: string, style: HomeStyle)
    requires FooUrl(url)
    ensures var r := Main(ExampleEnv(url), style);
            r.Finished? && |r.reports| == 1 &&
            Commands(r.reports[0].events) ==
              if style.AsWritten? then [GitPull("~/git/foo")] else [GitClone(url, "~/git/foo")]
  {
    var env := ExampleEnv(url);
    var r := Main(env, style);
    ExampleFinishes(url, style);
    assert r.config.target == "~/git" && r.urls[0] == url;
    MainCommandOf(env, style, 0);
    ExampleChecks(url);
  }

  /** As written, the example run creates nothing and pulls `foo`: the
      relative `Users/u/git/foo` stands in for the home directory. */
  lemma MainAsWrittenChecksRelativePaths(url: string)
    requires FooUrl(url)
    ensures var r := Main(ExampleEnv(url), AsWritten);
            && r.Finished? && r.setup == [] && |r.reports| == 1
            && Commands(r.reports[0].events) == [GitPull("~/git/foo")]
  {
    ExampleFinishes(url, AsWritten);
    ExampleSetup(url, AsWritten);
    ExampleReport(url, AsWritten);
  }

  /** With the corrected prefix, the same run creates `~/git` and clones `foo`. */
  lemma MainCorrectedChecksHome(url: string)
    requires FooUrl(url)
    ensures var r := Main(ExampleEnv(url), Corrected);
            && r.Finished? && Commands(r.setup) == [MakeDir("~/git")] && |r.reports| == 1
            && Commands(r.reports[0].events) == [GitClone(url, "~/git/foo")]
  {
    ExampleFinishes(url, Corrected);
    ExampleSetup(url, Corrected);
    ExampleReport(url, Corrected);
  }
}
