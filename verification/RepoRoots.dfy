/** Resolving a path to its repository (src/providers/repo_roots.rs) through a cache filled by
    every directory a walk passes. */
module RepoRoots {
  import opened Options

  /** An absolute path by its components; the root has none. */
  type Path = seq<string>

  const CACHE_LIMIT := 50_000

  function Parent(dir: Path): Path
    requires dir != []
  {
    dir[..|dir| - 1]
  }

  predicate HasPrefix(text: string, prefix: string) { prefix <= text }

  class GitRoots {
    const home: Option<Path>
    /** Whether a directory holds `.git`; the set of repositories is fixed. */
    const holdsGit: Path -> bool
    /** The components of a path's text. */
    const components: string -> Path
    var known: map<Path, Option<Path>>

    constructor (home: Option<Path>, holdsGit: Path -> bool, components: string -> Path)
      ensures Valid() && this.home == home && this.holdsGit == holdsGit && this.components == components
          && known == map[]
    {
      this.home, this.holdsGit, this.components, this.known := home, holdsGit, components, map[];
    }

    /** Home and the root end a walk and never count as a repository. */
    predicate IsBoundary(dir: Path) { dir == [] || home == Some(dir) }

    /** The uncached walk up from a directory. */
    function Walk(dir: Path): Option<Path>
      decreases |dir|
    {
      if IsBoundary(dir) then None
      else if holdsGit(dir) then Some(dir)
      else Walk(Parent(dir))
    }

    /** Every cached answer is the walk's. */
    ghost predicate Valid()
      reads this
    {
      forall dir :: dir in known ==> known[dir] == Walk(dir)
    }

    function UnderHome(rest: string): Option<Path> {
      match home
      case None => None
      case Some(h) => Some(if HasPrefix(rest, "/") then components(rest) else h + components(rest))
    }

    function Expand(path: string): Option<Path> {
      if HasPrefix(path, "~/") then UnderHome(path[2..])
      else if HasPrefix(path, "$HOME/") then UnderHome(path[6..])
      else if HasPrefix(path, "/") then Some(components(path))
      else None
    }

    function Resolve(path: string): Option<Path> {
      match Expand(path)
      case None => None
      case Some(p) => Walk(p)
    }

    /** Where a path leads: below home behind `~/` and `$HOME/`, unless what follows is absolute; as it
        is when absolute; and nowhere else. Without a home the first two lead nowhere. */
    lemma {:induction false} ExpandExactly(rest: string)
      ensures home.None? ==> Expand("~/" + rest) == Expand("$HOME/" + rest) == None
      ensures home.Some? ==>
                var path := if rest != "" && rest[0] == '/' then components(rest) else home.value + components(rest);
                Expand("~/" + rest) == Expand("$HOME/" + rest) == Some(path)
      ensures rest != "" && rest[0] == '/' ==> Expand(rest) == Some(components(rest))
      ensures !("~/" <= rest) && !("$HOME/" <= rest) && (rest == "" || rest[0] != '/') ==> Expand(rest) == None
    {
      var tilde, named := "~/" + rest, "$HOME/" + rest;
      assert tilde[0] == '~' && named[0] == '$';
      assert tilde[..2] == "~/" && tilde[2..] == rest && named[..6] == "$HOME/" && named[6..] == rest;
      assert HasPrefix(rest, "/") <==> rest != "" && rest[0] == '/';
    }

    /** The answer is the uncached one whatever was asked before, also across a clearing of the
        cache; the cache outgrows its limit by one path's depth at most. */
    method RepoOf(path: string) returns (found: Option<Path>)
      requires Valid()
      modifies this
      ensures Valid()
      ensures found == Resolve(path)
      ensures Expand(path).None? ==> known == old(known)
      ensures Expand(path).Some? ==> |known| <= 50_000 + |Expand(path).value| + 1
    {
      var expanded := Expand(path);
      if expanded.None? {
        return None;
      }
      var dir := expanded.value;
      var visited: seq<Path> := [];
      found := None;
      ghost var answer := Walk(dir);
      while true
        invariant Valid() && known == old(known) && found == None
        invariant answer == Walk(dir)
        invariant |visited| + |dir| <= |expanded.value|
        invariant forall v :: v in visited ==> Walk(v) == answer
        decreases |dir|
      {
        if dir in known {
          found := known[dir];
          break;
        }
        visited := visited + [dir];
        if IsBoundary(dir) {
          break;
        }
        if holdsGit(dir) {
          found := Some(dir);
          break;
        }
        dir := Parent(dir);
      }
      assert found == answer && forall v :: v in visited ==> Walk(v) == answer;
      if |known| > CACHE_LIMIT {
        known := map[];
      }
      for i := 0 to |visited|
        invariant Valid() && |known| <= CACHE_LIMIT + i
      {
        assert visited[i] in visited;
        KeysGrow(known, visited[i], found);
        known := known[visited[i] := found];
      }
    }

    /** The walk finds the nearest ancestor that holds `.git`, as long as no boundary is met on
        the way to it or at it. */
    lemma {:induction false} WalkIsNearest(dir: Path, k: nat)
      requires k <= |dir|
      ensures Walk(dir) == Some(dir[..k]) <==>
              && holdsGit(dir[..k])
              && (forall j :: k <= j <= |dir| ==> dir[..j] != [] && home != Some(dir[..j]))
              && (forall j :: k < j <= |dir| ==> !holdsGit(dir[..j]))
      decreases |dir|
    {
      assert dir[..|dir|] == dir;
      if !IsBoundary(dir) && !holdsGit(dir) {
        var up := Parent(dir);
        assert forall j :: 0 <= j <= |up| ==> up[..j] == dir[..j];
        if k < |dir| {
          WalkIsNearest(up, k);
        } else {
          WalkGoesUp(up);
        }
      }
    }

    lemma {:induction false} WalkGoesUp(dir: Path)
      ensures Walk(dir).Some? ==> Walk(dir).value <= dir
      decreases |dir|
    {
      if !IsBoundary(dir) && !holdsGit(dir) {
        WalkGoesUp(Parent(dir));
      }
    }
  }

  lemma {:induction false} KeysGrow<K, V>(m: map<K, V>, k: K, v: V)
    ensures |m[k := v]| <= |m| + 1
  {
    assert m[k := v].Keys == m.Keys + {k};
  }
}
