/** How the two variants relate. With the corrected home prefix, the
    TypeScript variant checks a repository at the same path as the JavaScript
    variant on POSIX systems; with the prefix as written it never does when the
    target uses `~`. */
module Variants {
  import opened TsPaths
  import IndexJs

  lemma RepoCheckPathsAgree(target: string, name: string, user: string)
    ensures TsPaths.RepoCheckPath(target, name, user, false, Corrected) == IndexJs.RepoCheckPath(user, target, name)
  {
  }

  lemma RepoCheckPathsDifferAsWritten(target: string, name: string, user: string)
    requires '~' in target
    ensures TsPaths.RepoCheckPath(target, name, user, false, AsWritten) != IndexJs.RepoCheckPath(user, target, name)
  {
    var js := IndexJs.RepoCheckPath(user, target, name);
    var ts := TsPaths.RepoCheckPath(target, name, user, false, AsWritten);
    assert js[0] == '/';
    assert ts[0] == 'U';
  }
}
