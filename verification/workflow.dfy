/** The per-repository clone-or-pull engine shared by both variants, and the
    abstract environment a run executes against.

    The file system is an abstract set of paths that exist plus a map of
    readable files; the external commands (`git clone`, `git pull`,
    `mkdir -p`) are values whose success is decided by an oracle, the set of
    commands that succeed. Every repository is processed against the same
    initial file system, which is what makes the concurrent `Promise.all`
    fan-out a plain, order-independent map. */
module Workflow {
  import opened Wrappers

  /** An external command the script hands to the shell. */
  datatype Command =
    | GitClone(url: string, dest: string)
    | GitPull(dir: string)
    | MakeDir(path: string)

  /** The command line as the script builds it. */
  function CommandLine(c: Command): string {
    match c
    case GitClone(url, dest) => "git clone " + url + " " + dest
    case GitPull(dir) => "git -C " + dir + " pull"
    case MakeDir(path) => "mkdir -p " + path
  }

  /** One observable step: a log line (without colour codes) or a command. */
  datatype Event = Say(line: string) | Run(cmd: Command)

  /** The commands among the events, in order. */
  function Commands(events: seq<Event>): (r: seq<Command>)
    ensures |r| <= |events|
    ensures forall c :: c in r <==> Run(c) in events
  {
    if |events| == 0 then []
    else (if events[0].Run? then [events[0].cmd] else []) + Commands(events[1..])
  }

  lemma {:induction false} CommandsConcat(a: seq<Event>, b: seq<Event>)
    ensures Commands(a + b) == Commands(a) + Commands(b)
    decreases |a|
  {
    if |a| > 0 {
      assert (a + b)[0] == a[0];
      assert (a + b)[1..] == a[1..] + b;
      CommandsConcat(a[1..], b);
    } else {
      assert a + b == b;
    }
  }

  /** What a variant derives from one URL before touching the file system:
      the directory name, the path whose existence decides clone or pull, the
      two candidate commands and the line announcing each. */
  datatype RepoPlan = RepoPlan(
    name: string,
    checkPath: string,
    clone: Command,
    cloneNote: string,
    pull: Command,
    pullNote: string)

  /** A plan whose clone command is a clone and whose pull command is a pull. */
  predicate WellFormedPlan(p: RepoPlan) {
    p.clone.GitClone? && p.pull.GitPull?
  }

  /** Why a repository's promise rejected. The script signals a successful clone
      by throwing, so that the pull after it is skipped. */
  datatype Thrown = CloneSignal | CommandFailed(cmd: Command)

  /** The events of one async step and the exception it ended with, if any. */
  datatype Attempt = Attempt(events: seq<Event>, thrown: Option<Thrown>)

  /** `cloneIfNotExists`: if the checked path is absent, announce and run the
      clone, then throw either the clone's own error or the success signal. */
  function CloneIfNotExists(p: RepoPlan, present: set<string>, succeeds: set<Command>): (a: Attempt)
    ensures a.thrown.None? <==> p.checkPath in present
    ensures p.checkPath in present ==> a.events == []
    ensures p.checkPath !in present ==> a.events == [Say(p.cloneNote), Run(p.clone)]
    ensures a.thrown == Some(CloneSignal) <==> p.checkPath !in present && p.clone in succeeds
    ensures a.thrown == Some(CommandFailed(p.clone)) <==> p.checkPath !in present && p.clone !in succeeds
  {
    if p.checkPath in present then Attempt([], None)
    else
      Attempt([Say(p.cloneNote), Run(p.clone)],
              Some(if p.clone in succeeds then CloneSignal else CommandFailed(p.clone)))
  }

  /** `pullIfExists`: announce and run the pull; a failing pull throws. */
  function PullIfExists(p: RepoPlan, succeeds: set<Command>): (a: Attempt)
    ensures Commands(a.events) == [p.pull]
    ensures a.thrown.None? <==> p.pull in succeeds
  {
    Attempt([Say(p.pullNote), Run(p.pull)],
            if p.pull in succeeds then None else Some(CommandFailed(p.pull)))
  }

  /** How one repository's workflow settled: `outcome` is None when it ran to
      the end (a successful pull) and otherwise the exception the empty
      `catch` swallowed. The script discards it; the model keeps it. */
  datatype RepoReport = RepoReport(name: string, events: seq<Event>, outcome: Option<Thrown>)

  /** The `try { clone-if-absent; pull } catch {} finally { resolve }` block
      run for each URL. */
  function SyncRepo(p: RepoPlan, present: set<string>, succeeds: set<Command>): (r: RepoReport)
    requires WellFormedPlan(p)
    ensures r.name == p.name
    ensures Commands(r.events) == if p.checkPath in present then [p.pull] else [p.clone]
    ensures r.outcome == Some(CloneSignal) <==> p.checkPath !in present && p.clone in succeeds
    ensures r.outcome == None <==> p.checkPath in present && p.pull in succeeds
    ensures r.outcome.Some? && r.outcome.value.CommandFailed? ==>
              r.outcome.value.cmd in Commands(r.events) && r.outcome.value.cmd !in succeeds
  {
    var c := CloneIfNotExists(p, present, succeeds);
    if c.thrown.Some? then
      RepoReport(p.name, c.events, c.thrown)
    else
      var q := PullIfExists(p, succeeds);
      CommandsConcat(c.events, q.events);
      RepoReport(p.name, c.events + q.events, q.thrown)
  }

  /** A clone is never followed by a pull in the same repository's workflow,
      and a pull is never preceded by a clone: exactly one git command runs. */
  lemma CloneExcludesPull(p: RepoPlan, present: set<string>, succeeds: set<Command>)
    requires WellFormedPlan(p)
    ensures var cmds := Commands(SyncRepo(p, present, succeeds).events);
            |cmds| == 1 && (p.clone in cmds <==> p.pull !in cmds)
  {
  }

  /** `Promise.all(urls.map(...))`: one settled report per plan, in order. */
  function SyncAll(plans: seq<RepoPlan>, present: set<string>, succeeds: set<Command>): (rs: seq<RepoReport>)
    requires forall i :: 0 <= i < |plans| ==> WellFormedPlan(plans[i])
    ensures |rs| == |plans|
    ensures forall i :: 0 <= i < |plans| ==>
              Commands(rs[i].events) == if plans[i].checkPath in present then [plans[i].pull] else [plans[i].clone]
    ensures forall i :: 0 <= i < |plans| ==> rs[i] == SyncRepo(plans[i], present, succeeds)
  {
    if |plans| == 0 then []
    else [SyncRepo(plans[0], present, succeeds)] + SyncAll(plans[1..], present, succeeds)
  }

  /** Failure containment: repository `i`'s report depends only on whether ITS
      OWN commands succeed; any other repository may fail or succeed. */
  lemma FailureIsContained(plans: seq<RepoPlan>, present: set<string>, s1: set<Command>, s2: set<Command>, i: int)
    requires forall j :: 0 <= j < |plans| ==> WellFormedPlan(plans[j])
    requires 0 <= i < |plans|
    requires plans[i].clone in s1 <==> plans[i].clone in s2
    requires plans[i].pull in s1 <==> plans[i].pull in s2
    ensures SyncAll(plans, present, s1)[i] == SyncAll(plans, present, s2)[i]
  {
  }

  /** The sub-sequence or rearrangement of `xs` chosen by the indices `idx`. */
  function Pick<T>(xs: seq<T>, idx: seq<nat>): (r: seq<T>)
    requires forall k :: 0 <= k < |idx| ==> idx[k] < |xs|
    ensures |r| == |idx|
    ensures forall k :: 0 <= k < |idx| ==> r[k] == xs[idx[k]]
  {
    seq(|idx|, k requires 0 <= k < |idx| => xs[idx[k]])
  }

  /** Order independence: reordering, dropping or duplicating URLs reorders,
      drops or duplicates their reports and changes nothing else. */
  lemma {:induction false} OrderIndependent(plans: seq<RepoPlan>, idx: seq<nat>, present: set<string>, succeeds: set<Command>)
    requires forall j :: 0 <= j < |plans| ==> WellFormedPlan(plans[j])
    requires forall k :: 0 <= k < |idx| ==> idx[k] < |plans|
    ensures SyncAll(Pick(plans, idx), present, succeeds) == Pick(SyncAll(plans, present, succeeds), idx)
  {
    var picked := Pick(plans, idx);
    var lhs := SyncAll(picked, present, succeeds);
    var rhs := Pick(SyncAll(plans, present, succeeds), idx);
    assert |lhs| == |rhs|;
    forall k | 0 <= k < |idx|
      ensures lhs[k] == rhs[k]
    {
      assert picked[k] == plans[idx[k]];
    }
  }

  /** The paths created by the clones that ran and succeeded. */
  function Cloned(plans: seq<RepoPlan>, present: set<string>, succeeds: set<Command>): (created: set<string>)
    ensures forall i :: 0 <= i < |plans| && plans[i].checkPath !in present && plans[i].clone in succeeds ==>
              plans[i].checkPath in created
  {
    set i | 0 <= i < |plans| && plans[i].checkPath !in present && plans[i].clone in succeeds :: plans[i].checkPath
  }

  /** Running the engine again after a run whose clones succeeded performs only
      pulls: every repository present before, or cloned by the first run, is
      pulled and none is cloned. */
  lemma SecondRunOnlyPulls(plans: seq<RepoPlan>, present: set<string>, succeeds: set<Command>)
    requires forall j :: 0 <= j < |plans| ==> WellFormedPlan(plans[j])
    requires forall j :: 0 <= j < |plans| ==> plans[j].clone in succeeds
    ensures var again := SyncAll(plans, present + Cloned(plans, present, succeeds), succeeds);
            forall i :: 0 <= i < |plans| ==> Commands(again[i].events) == [plans[i].pull]
  {
  }

  // ----- the abstract environment of one run -----

  /** Everything a run depends on that the script gets from the outside world. */
  datatype Env = Env(
    argv: seq<string>,        // process.argv.slice(2)
    user: Option<string>,     // the output of `whoami`, None if the command fails
    windows: bool,            // process.platform === 'win32'
    files: map<string, string>, // readable files and their contents
    present: set<string>,      // paths for which `access` succeeds
    writable: set<string>,     // paths for which `writeFile` succeeds
    succeeds: set<Command>)   // commands that exit successfully

  /** The (source list, target directory) pair governing one run. */
  datatype Config = Config(source: string, target: string)

  /** Takes the first two arguments as source list and target directory, the way
      `const [source = s, target = t] = args` (and, in the older variant,
      parameter defaults) do: a default replaces a MISSING element only, never
      one that is present but empty. */
  function Destructure(args: seq<string>, defaultSource: string, defaultTarget: string): (c: Config)
    ensures |args| > 0 ==> c.source == args[0]
    ensures |args| > 1 ==> c.target == args[1]
    ensures |args| == 0 ==> c.source == defaultSource
    ensures |args| <= 1 ==> c.target == defaultTarget
  {
    Config(if |args| > 0 then args[0] else defaultSource,
           if |args| > 1 then args[1] else defaultTarget)
  }

  /** Why a run stopped before the fan-out. */
  datatype Stop =
    | HelpShown                    // `-h` given: help printed, exit code 1
    | UserUnknown                  // `whoami` failed: exit code 1
    | ListMissing(path: string)    // the source list cannot be read: exit code 1
    | SettingsWriteFailed(path: string)  // the settings write rejected outside any catch
    | MakeDirFailed(path: string)  // `mkdir -p` rejected outside any catch

  datatype FileWrite = FileWrite(path: string, contents: string)

  datatype RunResult =
    | Stopped(writes: seq<FileWrite>, setup: seq<Event>, why: Stop)
    | Finished(
        writes: seq<FileWrite>,
        config: Config,
        urls: seq<string>,
        setup: seq<Event>,
        reports: seq<RepoReport>,
        suggestion: Option<string>)
}
