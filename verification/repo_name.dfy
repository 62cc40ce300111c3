/** The local directory name of a repository, derived from its URL exactly as
    both variants of the script do: the text between the last `/` and the last
    `.`, computed with `substring`, so a URL without the usual shape still yields
    a well-defined (if odd) name. */
module RepoName {
  import opened JsString

  /** `url.substring(url.lastIndexOf('/') + 1, url.lastIndexOf('.'))`. */
  function GetRepoName(url: string): (name: string)
    ensures |name| <= |url|
    ensures LastIndexOf(url, '/') < LastIndexOf(url, '.') ==> '/' !in name
  {
    Substring(url, LastIndexOf(url, '/') + 1, LastIndexOf(url, '.'))
  }

  /** The usual shape `<anything>/<name>.<ext>`: the name is exactly the text
      strictly between the last `/` and the last `.`; the name itself may
      contain dots. */
  lemma NameBetweenSlashAndDot(prefix: string, name: string, ext: string)
    requires '/' !in name && '/' !in ext && '.' !in ext
    ensures GetRepoName(prefix + "/" + name + "." + ext) == name
  {
    var url := prefix + "/" + name + "." + ext;
    var slash := |prefix|;
    var dot := |prefix| + 1 + |name|;
    assert url[slash] == '/' && url[dot] == '.';
    forall j | slash < j < |url|
      ensures url[j] != '/'
    {
      if j < dot {
        assert url[j] == name[j - slash - 1];
      } else if j > dot {
        assert url[j] == ext[j - dot - 1];
      }
    }
    forall j | dot < j < |url|
      ensures url[j] != '.'
    {
      assert url[j] == ext[j - dot - 1];
    }
    LastIndexOfIs(url, '/', slash);
    LastIndexOfIs(url, '.', dot);
    assert url[slash + 1..dot] == name;
  }

  /** Without any `/`, the name is everything before the last `.`. */
  lemma NameWithoutSlash(name: string, ext: string)
    requires '/' !in name && '/' !in ext && '.' !in ext
    ensures GetRepoName(name + "." + ext) == name
  {
    var url := name + "." + ext;
    var dot := |name|;
    assert url[dot] == '.';
    forall j | 0 <= j < |url|
      ensures url[j] != '/'
    {
      if j < dot {
        assert url[j] == name[j];
      } else if j > dot {
        assert url[j] == ext[j - dot - 1];
      }
    }
    forall j | dot < j < |url|
      ensures url[j] != '.'
    {
      assert url[j] == ext[j - dot - 1];
    }
    LastIndexOfIs(url, '/', -1);
    LastIndexOfIs(url, '.', dot);
    assert url[..dot] == name;
  }

  /** With neither `/` nor `.`, both indices are clamped to 0 and the name is empty. */
  lemma NameWithoutSlashOrDot(url: string)
    requires '/' !in url && '.' !in url
    ensures GetRepoName(url) == ""
  {
  }

  /** With a `/` but no `.`, `substring` swaps its bounds: the name is the
      whole prefix up to and including the last `/`. */
  lemma NameWithoutDot(prefix: string, rest: string)
    requires '.' !in prefix && '.' !in rest && '/' !in rest
    ensures GetRepoName(prefix + "/" + rest) == prefix + "/"
  {
    var url := prefix + "/" + rest;
    var slash := |prefix|;
    assert url[slash] == '/';
    forall j | slash < j < |url|
      ensures url[j] != '/'
    {
      assert url[j] == rest[j - slash - 1];
    }
    forall j | 0 <= j < |url|
      ensures url[j] != '.'
    {
      if j < slash {
        assert url[j] == prefix[j];
      } else if j > slash {
        assert url[j] == rest[j - slash - 1];
      }
    }
    LastIndexOfIs(url, '/', slash);
    LastIndexOfIs(url, '.', -1);
    assert url[..slash + 1] == prefix + "/";
  }

  /** When the last `.` precedes the last `/` (a host name such as `github.com`
      in a URL without an extension), the bounds are swapped and the name runs
      from that `.` through that `/`, both included. */
  lemma NameDotBeforeSlash(prefix: string, middle: string, rest: string)
    requires '.' !in middle && '.' !in rest && '/' !in rest
    ensures GetRepoName(prefix + "." + middle + "/" + rest) == "." + middle + "/"
  {
    var url := prefix + "." + middle + "/" + rest;
    var dot := |prefix|;
    var slash := |prefix| + 1 + |middle|;
    assert url[dot] == '.' && url[slash] == '/';
    forall j | slash < j < |url|
      ensures url[j] != '/' && url[j] != '.'
    {
      assert url[j] == rest[j - slash - 1];
    }
    forall j | dot < j < |url|
      ensures url[j] != '.'
    {
      if j < slash {
        assert url[j] == middle[j - dot - 1];
      }
    }
    LastIndexOfIs(url, '/', slash);
    LastIndexOfIs(url, '.', dot);
    assert url[dot..slash + 1] == "." + middle + "/";
  }
}
