/** Path handling of the TypeScript variant: home-directory (`~`) expansion for
    the existence checks, the display form used in log lines, and the clone
    and pull commands.

    On POSIX the expansion as written uses the home prefix `Users/<user>/`,
    without a leading slash, so an expanded path is relative to the working
    directory. The JavaScript variant and the settings path use
    `/Users/<user>/`. Both prefixes are modelled (`HomeStyle`), and every
    operation that checks a path takes the style as a parameter. */
module TsPaths {
  import opened JsString
  import opened Workflow

  /** Which POSIX home prefix `~` expands to: the one the code writes, or the
      one with the leading slash it is missing. Windows is the same in both. */
  datatype HomeStyle = AsWritten | Corrected

  /** The home prefix a `~` path expands to. */
  function HomePrefix(style: HomeStyle, user: string, windows: bool): (h: string)
    ensures windows ==> h == "C:\\Users\\" + user + "\\"
    ensures !windows && style.AsWritten? ==> h == "Users/" + user + "/"
    ensures !windows && style.Corrected? ==> h == "/Users/" + user + "/"
  {
    if windows then "C:\\Users\\" + user + "\\"
    else match style
      case AsWritten => "Users/" + user + "/"
      case Corrected => "/Users/" + user + "/"
  }

  /** `path.includes('~') ? home + path.substring(2) : path`: a `~` ANYWHERE
      triggers the expansion, which always drops the first two characters
      (all of a one-character path). */
  function ExpandWith(home: string, path: string): (r: string)
    ensures '~' !in path ==> r == path
    ensures '~' in path ==> r == home + path[(if |path| < 2 then |path| else 2)..]
  {
    if '~' in path then home + Substring(path, 2, |path|) else path
  }

  /** A path starting with `~/` is the rest of it under the home prefix. */
  lemma ExpandHomeRelative(home: string, rest: string)
    ensures ExpandWith(home, "~/" + rest) == home + rest
  {
    var p := "~/" + rest;
    assert p[0] == '~';
    assert p[2..] == rest;
  }

  /** `~` on its own is the home prefix. */
  lemma ExpandBareTilde(home: string)
    ensures ExpandWith(home, "~") == home
  {
    assert "~"[0] == '~';
    assert "~"[1..] == "";
  }

  /** A `~` after the first two characters still triggers the expansion, and
      those two characters are dropped whatever they are. */
  lemma ExpandTildeNotAtStart(home: string, a: char, b: char, rest: string)
    requires '~' in rest
    ensures ExpandWith(home, [a, b] + rest) == home + rest
  {
    var p := [a, b] + rest;
    var k :| 0 <= k < |rest| && rest[k] == '~';
    assert p[k + 2] == '~';
    assert p[2..] == rest;
  }

  /** The path checked with `access` for the target directory. */
  function ExpandTilde(path: string, user: string, windows: bool, style: HomeStyle): string {
    ExpandWith(HomePrefix(style, user, windows), path)
  }

  /** The home directory as the display rewrite looks for it, on every platform. */
  function HomeMarker(user: string): string {
    "/Users/" + user
  }

  /** The directory shown in log lines: `.` reads `current directory`, and the
      FIRST occurrence of `/Users/<user>` becomes `~`. */
  function Display(path: string, user: string): string {
    ReplaceFirst(if path == "." then "current directory" else path, HomeMarker(user), "~")
  }

  lemma DisplayCurrentDirectory(user: string)
    ensures Display(".", user) == "current directory"
  {
    NoOccurrence("current directory", HomeMarker(user));
  }

  /** A path that does not mention the home directory is shown verbatim. */
  lemma DisplayOutsideHome(path: string, user: string)
    requires path != "." && '/' !in path
    ensures Display(path, user) == path
  {
    NoOccurrence(path, HomeMarker(user));
  }

  /** A path inside the home directory is shown with `~`. */
  lemma DisplayInsideHome(user: string, rest: string)
    ensures Display(HomeMarker(user) + "/" + rest, user) == "~/" + rest
  {
    var p := HomeMarker(user) + "/" + rest;
    var m := HomeMarker(user);
    assert p[0..|m|] == m;
    ReplaceFirstAt(p, m, "~", 0);
    assert p[|m|..] == "/" + rest;
  }

  /** Expanding the displayed form of a path inside the home directory gives
      the same path as expanding the path itself (POSIX, corrected prefix). */
  lemma DisplayRoundTrip(user: string, rest: string)
    requires '~' !in user && '~' !in rest
    ensures var p := HomeMarker(user) + "/" + rest;
            ExpandTilde(Display(p, user), user, false, Corrected) == ExpandTilde(p, user, false, Corrected) == p
  {
    var p := HomeMarker(user) + "/" + rest;
    DisplayInsideHome(user, rest);
    ExpandHomeRelative(HomePrefix(Corrected, user, false), rest);
    assert '~' !in p;
  }

  /** With the prefix as written, the same round trip loses the leading slash:
      every path inside the home directory comes back as a different, relative
      path. */
  lemma DisplayRoundTripFailsAsWritten(user: string, rest: string)
    requires '~' !in user && '~' !in rest
    ensures var p := HomeMarker(user) + "/" + rest;
            ExpandTilde(Display(p, user), user, false, AsWritten) == p[1..] &&
            ExpandTilde(Display(p, user), user, false, AsWritten) != ExpandTilde(p, user, false, AsWritten)
  {
    var p := HomeMarker(user) + "/" + rest;
    var back := ExpandTilde(Display(p, user), user, false, AsWritten);
    DisplayInsideHome(user, rest);
    ExpandHomeRelative(HomePrefix(AsWritten, user, false), rest);
    assert back == "Users/" + user + "/" + rest;
    assert p[1..] == "Users/" + user + "/" + rest;
    assert '~' !in p;
    assert ExpandTilde(p, user, false, AsWritten) == p;
    assert |back| < |p|;
  }

  /** The separator placed between the target directory and the repository name in commands. */
  function Separator(windows: bool): string {
    if windows then "\\" else "/"
  }

  /** The path `cloneIfNotExists` checks: always joined with `/`, whatever the platform. */
  function RepoCheckPath(target: string, name: string, user: string, windows: bool, style: HomeStyle): string {
    ExpandTilde(target, user, windows, style) + "/" + name
  }

  /** For a `~/`-relative target the repository is checked at the home prefix,
      the rest of the target, `/` and the name. */
  lemma RepoCheckPathHomeRelative(rest: string, name: string, user: string, windows: bool, style: HomeStyle)
    ensures RepoCheckPath("~/" + rest, name, user, windows, style) == HomePrefix(style, user, windows) + rest + "/" + name
  {
    ExpandHomeRelative(HomePrefix(style, user, windows), rest);
  }

  /** `git clone <url> <target><sep><name>`: the raw, unexpanded target. */
  function CloneCommand(url: string, target: string, name: string, windows: bool): (c: Command)
    ensures c.GitClone? && c.url == url && c.dest == target + Separator(windows) + name
  {
    GitClone(url, target + Separator(windows) + name)
  }

  /** `git -C <target><sep><name> pull`: the raw, unexpanded target. */
  function PullCommand(target: string, name: string, windows: bool): (c: Command)
    ensures c.GitPull? && c.dir == target + Separator(windows) + name
  {
    GitPull(target + Separator(windows) + name)
  }

  /** The clone and pull of one repository work in the same directory. */
  lemma CloneAndPullShareDirectory(url: string, target: string, name: string, windows: bool)
    ensures CloneCommand(url, target, name, windows).dest == PullCommand(target, name, windows).dir
  {
  }

  /** On POSIX, for a target without `~`, the clone writes exactly the path the
      next existence check looks at. */
  lemma CloneCreatesCheckedPath(url: string, target: string, name: string, user: string, style: HomeStyle)
    requires '~' !in target
    ensures CloneCommand(url, target, name, false).dest == RepoCheckPath(target, name, user, false, style)
  {
  }

  /** On Windows the clone joins with `\` while the check joins with `/`, so
      for a target without `~` the two paths always differ. */
  lemma CloneMissesCheckedPathOnWindows(url: string, target: string, name: string, user: string, style: HomeStyle)
    requires '~' !in target
    ensures CloneCommand(url, target, name, true).dest != RepoCheckPath(target, name, user, true, style)
  {
    var dest := CloneCommand(url, target, name, true).dest;
    var check := RepoCheckPath(target, name, user, true, style);
    assert dest[|target|] == '\\';
    assert check[|target|] == '/';
  }
}
