/** Unsharded directory states that refer to their children by hash, as the
    meta blob store holds them. A path is the list of its slash-separated
    segments and is never empty ("" is the list of one empty segment). */
module DirStates {
  import opened Entries

  type Path = p: seq<string> | p != [] witness [""]

  /** A directory's own maps. A child's name is a path too: `create_dir` below
      a missing parent makes one entry whose name contains slashes. */
  datatype State = State(files: map<Path, FileRef>, dirs: map<Path, DirHash>)

  /** BLAKE3 of an encoded state, modelled as injective: the hash determines
      the state. `Zero` is the placeholder of a child that never saved. */
  datatype DirHash = Zero | Of(content: State)

  /** The name a path is routed by: its first segment. */
  function First(path: Path): (name: Path)
    ensures |name| == 1
  {
    path[..1]
  }

  const EMPTY_STATE := State(map[], map[])

  /** What is left of a path after its first segment. */
  function Rest(path: Path): Path {
    if |path| == 1 then [""] else path[1..]
  }

  /** `FileOp` lookup from this directory down: a child directory named by the
      first segment takes the rest of the path. */
  function Lookup(s: State, path: Path): Option<FileRef> {
    if First(path) in s.dirs then LookupHash(s.dirs[First(path)], Rest(path))
    else Get(s.files, path)
  }

  function LookupHash(h: DirHash, path: Path): Option<FileRef> {
    match h
    case Zero => None
    case Of(c) => Lookup(c, path)
  }

  predicate Below(prefix: Path, key: Path) {
    |prefix| < |key| && key[..|prefix|] == prefix
  }

  /** `extract_child_dir_state`: the files under `prefix/`, renamed. */
  function Extract(files: map<Path, FileRef>, prefix: Path): map<Path, FileRef> {
    assert forall k: Path :: k in files && Below(prefix, k) ==> prefix + k[|prefix|..] == k;
    map k | k in files && Below(prefix, k) :: k[|prefix|..] := files[k]
  }

  lemma ExtractGet(files: map<Path, FileRef>, prefix: Path, k: Path)
    ensures Get(Extract(files, prefix), k) == Get(files, prefix + k)
  {
    assert (prefix + k)[|prefix|..] == k;
    forall l | l in files && Below(prefix, l) && l[|prefix|..] == k
      ensures l == prefix + k
    {}
  }

  lemma WithoutGet(files: map<Path, FileRef>, prefix: Path, k: Path)
    ensures Get(Without(files, prefix), k) ==
            if |prefix| < |k| && k[..|prefix|] == prefix then None else Get(files, k)
  {}

  /** A path is its first segment and the rest, and one that runs out goes on as
      one empty segment. */
  lemma PathParts(path: Path)
    ensures First(path) == [path[0]]
    ensures |path| > 1 ==> Rest(path) == path[1..]
    ensures |path| == 1 ==> Rest(path) == [""]
  {}

  function Without(files: map<Path, FileRef>, prefix: Path): map<Path, FileRef> {
    map k | k in files && !Below(prefix, k) :: files[k]
  }
}
