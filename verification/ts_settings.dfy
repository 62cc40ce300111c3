/** The persisted-settings half of the TypeScript variant: `saveSettings`
    reconciles the command-line arguments with the per-user settings file,
    `parseArgs` picks the arguments a run uses, and array destructuring with
    defaults turns them into the effective configuration.

    `saveSettings` is modelled as a decision: given what reading the file gave
    (None when it is absent or unreadable, Some(raw contents) otherwise) and the
    arguments, it returns what the function resolves to and the single write it
    performs, if any. */
module TsSettings {
  import opened Wrappers
  import opened JsString
  import opened Lines
  import opened Workflow

  const DefaultList: string := "./my.list"
  const DefaultTarget: string := "."

  /** The contents written when there is no settings file and no argument. */
  const DefaultSettings: string := DefaultList + "\n" + DefaultTarget

  /** Where the settings are persisted, per operating-system family. */
  function SettingsFilePath(user: string, windows: bool): string {
    if windows then "C:\\Users\\" + user + "\\.git_init_settings"
    else "/Users/" + user + "/.git_init_settings"
  }

  /** What `saveSettings` resolves to (`undefined` is None) and what it writes. */
  datatype Reconciled = Reconciled(returned: Option<seq<string>>, write: Option<string>)

  /** The `forEach` comparison: every argument equals the stored line at the same position. */
  predicate StoredMatches(args: seq<string>, stored: seq<string>)
    requires |args| <= |stored|
  {
    args == stored[..|args|]
  }

  function SaveSettings(args: seq<string>, file: Option<string>): (r: Reconciled)
    // the stored lines come back only when there are no arguments to prefer
    ensures r.returned.Some? <==> file.Some? && |args| == 0
    ensures r.returned.Some? ==> r.returned.value == ParseLines(file.value)
    // the only thing ever written is the arguments, or the defaults when there are none
    ensures r.write.Some? ==> r.write.value == if |args| == 0 then DefaultSettings else Join(args, "\n")
    // a missing file is always (re)created; returning stored lines never writes
    ensures file.None? ==> r.write.Some?
    ensures r.returned.Some? ==> r.write.None?
  {
    match file
    case None =>
      Reconciled(None, Some(if |args| > 0 then Join(args, "\n") else DefaultSettings))
    case Some(raw) =>
      var settings := ParseLines(raw);
      if |args| == 0 then Reconciled(Some(settings), None)
      else if |settings| < |args| then Reconciled(None, None)
      else if StoredMatches(args, settings) then Reconciled(None, None)
      else Reconciled(None, Some(Join(args, "\n")))
  }

  /** The settings file after the call: the write if there was one, else unchanged. */
  function FileAfter(file: Option<string>, r: Reconciled): (after: Option<string>)
    ensures r.write.Some? ==> after == r.write
    ensures r.write.None? ==> after == file
  {
    if r.write.Some? then r.write else file
  }

  /** A readable file with fewer stored lines than arguments: nothing is
      returned and nothing is written, so the shorter settings stay. */
  lemma FewerStoredLinesNoWrite(args: seq<string>, raw: string)
    requires |ParseLines(raw)| < |args|
    ensures SaveSettings(args, Some(raw)) == Reconciled(None, None)
  {
  }

  /** Otherwise the arguments are written exactly when some position differs;
      stored lines beyond the arguments are ignored. */
  lemma WriteIffSomePositionDiffers(args: seq<string>, raw: string)
    requires 0 < |args| <= |ParseLines(raw)|
    ensures var stored := ParseLines(raw);
            SaveSettings(args, Some(raw)).write.Some? <==> exists i :: 0 <= i < |args| && args[i] != stored[i]
    ensures SaveSettings(args, Some(raw)).returned.None?
  {
    var stored := ParseLines(raw);
    if exists i :: 0 <= i < |args| && args[i] != stored[i] {
      var i :| 0 <= i < |args| && args[i] != stored[i];
      assert stored[..|args|][i] == stored[i];
    } else {
      assert args == stored[..|args|];
    }
  }

  /** After any call with storable arguments, an immediate second call with the
      same arguments writes nothing: reconciliation reaches a fixed point. */
  lemma SecondCallWritesNothing(args: seq<string>, file: Option<string>)
    requires forall i :: 0 <= i < |args| ==> StorableLine(args[i])
    ensures var after := FileAfter(file, SaveSettings(args, file));
            SaveSettings(args, after).write.None?
  {
    var r := SaveSettings(args, file);
    if r.write.Some? {
      if |args| == 0 {
        assert r.write.value == DefaultSettings;
      } else {
        ParseJoin(args);
        assert ParseLines(r.write.value) == args;
        assert args == args[..|args|];
      }
    }
  }

  /** Unless the readable file holds fewer lines than there are arguments, the
      settings file ends up holding the arguments as its leading lines. */
  lemma ArgumentsPersisted(args: seq<string>, file: Option<string>)
    requires |args| > 0
    requires forall i :: 0 <= i < |args| ==> StorableLine(args[i])
    requires file.Some? ==> |ParseLines(file.value)| >= |args|
    ensures var after := FileAfter(file, SaveSettings(args, file));
            after.Some? && args <= ParseLines(after.value)
  {
    var r := SaveSettings(args, file);
    if r.write.Some? {
      ParseJoin(args);
    } else {
      var stored := ParseLines(file.value);
      assert args == stored[..|args|];
    }
  }

  /** The result of `parseArgs`: help was requested, or the arguments the run
      uses together with the settings write `saveSettings` performed. */
  datatype Parsed = HelpRequested | Parsed(args: seq<string>, write: Option<string>)

  /** `parseArgs`: `-h` anywhere stops before the settings are touched;
      otherwise the stored lines are used only if returned AND non-empty. */
  function ParseArgs(argv: seq<string>, file: Option<string>): (p: Parsed)
    ensures p.HelpRequested? <==> "-h" in argv
    ensures p.Parsed? ==> p.write == SaveSettings(argv, file).write
    ensures p.Parsed? && p.args != argv ==>
              |argv| == 0 && file.Some? && p.args == ParseLines(file.value) && |p.args| > 0
  {
    if "-h" in argv then HelpRequested
    else
      var saved := SaveSettings(argv, file);
      var args := if saved.returned.Some? && |saved.returned.value| > 0 then saved.returned.value else argv;
      Parsed(args, saved.write)
  }

  /** `const [source = './my.list', target = '.'] = args`. */
  function ConfigOf(args: seq<string>): Config {
    Destructure(args, DefaultList, DefaultTarget)
  }

  /** The stored lines are the configuration exactly when no argument is given
      and the file holds at least one line; otherwise the raw arguments are. */
  lemma EffectiveArguments(argv: seq<string>, file: Option<string>)
    requires "-h" !in argv
    ensures var p := ParseArgs(argv, file);
            p.Parsed? &&
            (if |argv| == 0 && file.Some? && |ParseLines(file.value)| > 0
             then p.args == ParseLines(file.value)
             else p.args == argv)
  {
  }

  /** The defaults written for a first run without arguments parse back to the
      same configuration the destructuring defaults give, so a second run
      without arguments behaves exactly like the first. */
  lemma DefaultsAreStable()
    ensures SaveSettings([], None).write == Some(DefaultSettings)
    ensures ParseLines(DefaultSettings) == [DefaultList, DefaultTarget]
    ensures ConfigOf(ParseArgs([], Some(DefaultSettings)).args) == ConfigOf([])
  {
    var lines := [DefaultList, DefaultTarget];
    assert StorableLine(lines[0]) && StorableLine(lines[1]);
    assert Join(lines, "\n") == DefaultSettings;
    ParseJoin(lines);
  }

  /** Worked cases: a first run with two arguments, an identical second run,
      and a later run with a single different argument, which overwrites. */
  lemma SettingsExamples()
    ensures SaveSettings(["a.list", "/tmp/x"], None) == Reconciled(None, Some("a.list\n/tmp/x"))
    ensures SaveSettings(["a.list", "/tmp/x"], Some("a.list\n/tmp/x")) == Reconciled(None, None)
    ensures SaveSettings(["b.list"], Some("a.list\n/tmp/x")) == Reconciled(None, Some("b.list"))
  {
    var stored := ["a.list", "/tmp/x"];
    assert StorableLine(stored[0]) && StorableLine(stored[1]);
    assert Join(stored, "\n") == "a.list\n/tmp/x";
    ParseJoin(stored);
    assert stored[..1] != ["b.list"];
  }
}
