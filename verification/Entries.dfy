/** Directory snapshots as plain data: file and directory references, their
    timestamps, and the flat view of one directory (`DirV1` without its header). */
module Entries {

  datatype Option<+T> = None | Some(value: T)

  function Get<K, V>(m: map<K, V>, k: K): Option<V> {
    if k in m then Some(m[k]) else None
  }

  /** `m` with the binding of `k` set, or removed when `v` is None. */
  function Put<K, V>(m: map<K, V>, k: K, v: Option<V>): map<K, V> {
    match v
    case Some(x) => m[k := x]
    case None => m - {k}
  }

  lemma PutGet<K, V>(m: map<K, V>, k: K, v: Option<V>)
    ensures forall x :: Get(Put(m, k, v), x) == if x == k then v else Get(m, x)
  {}

  lemma SameGetsSameMap<K(!new), V>(a: map<K, V>, b: map<K, V>)
    requires forall k :: Get(a, k) == Get(b, k)
    ensures a == b
  {
    forall k
      ensures k in a <==> k in b
      ensures k in a ==> a[k] == b[k]
    {
      assert Get(a, k) == Get(b, k);
    }
  }

  type Byte = x: nat | x < 256
  type Bytes = seq<Byte>

  function Pow256(k: nat): (p: nat)
    ensures p > 0
  {
    if k == 0 then 1 else 256 * Pow256(k - 1)
  }

  lemma EightBytes()
    ensures Pow256(8) == U64_MAX + 1
  {
    assert Pow256(4) == 0x1_0000_0000;
    assert Pow256(8) == 256 * (256 * (256 * (256 * Pow256(4))));
  }

  type U32 = x: nat | x < 0x1_0000_0000
  const U64_MAX: nat := 0xffff_ffff_ffff_ffff

  /** A 32-byte BLAKE3 hash, read as a big-endian number: comparing the byte
      arrays lexicographically is comparing the numbers. */
  type Hash = x: nat | x < 0x1_0000_0000_0000_0000_0000_0000_0000_0000_0000_0000_0000_0000_0000_0000_0000_0000

  datatype FileRefType = FileBlake3 | FileRegistryKey | Tombstone

  datatype FileRef = FileRef(
    refType: Option<FileRefType>,
    hash: Hash,
    size: nat,
    seconds: Option<U32>,
    nanos: Option<U32>,
    mediaType: Option<string>,
    prev: Option<FileRef>,
    versionCount: Option<U32>,
    firstVersion: Option<FileRef>)

  datatype DirRefType = DirBlake3 | DirRegistryKey

  datatype DirRef = DirRef(
    refType: Option<DirRefType>,
    hash: Hash,
    seconds: Option<U32>,
    nanos: Option<U32>,
    key: Option<nat>)

  /** A client closure run on the value slot of one path. */
  type Task = Option<FileRef> -> Option<FileRef>

  predicate IsTombstone(f: FileRef) {
    f.refType == Some(Tombstone)
  }

  function OrZero(x: Option<U32>): U32 {
    match x
    case Some(v) => v
    case None => 0
  }

  /** `dir_ts` and `file_ts`: seconds and nanoseconds packed into one u64.
      The two factors are at most 2^32 - 1, so the u64 sum never overflows. */
  function Stamp(seconds: Option<U32>, nanos: Option<U32>): (ts: nat)
    ensures ts <= U64_MAX
  {
    OrZero(seconds) * 1_000_000_000 + OrZero(nanos)
  }

  /** On well-formed nanoseconds the packed stamp orders like (seconds, nanos). */
  lemma StampIsLexicographic(s: Option<U32>, n: Option<U32>, s': Option<U32>, n': Option<U32>)
    requires OrZero(n) < 1_000_000_000 && OrZero(n') < 1_000_000_000
    ensures Stamp(s, n) < Stamp(s', n') <==>
            OrZero(s) < OrZero(s') || (OrZero(s) == OrZero(s') && OrZero(n) < OrZero(n'))
    ensures Stamp(s, n) == Stamp(s', n') <==> OrZero(s) == OrZero(s') && OrZero(n) == OrZero(n')
  {
    if OrZero(s) < OrZero(s') {
      assert OrZero(s) + 1 <= OrZero(s');
    }
  }

  /** Nanoseconds of a billion or more carry into the seconds: a full second
      ties with the second before it plus 10^9 nanoseconds. */
  lemma StampNotLexicographicBeyondABillion()
    ensures Stamp(Some(1), Some(0)) == Stamp(Some(0), Some(1_000_000_000))
  {}

  datatype Entry = FileEntry(file: FileRef) | DirEntry(dir: DirRef)

  function EntryStamp(e: Entry): nat {
    match e
    case FileEntry(f) => Stamp(f.seconds, f.nanos)
    case DirEntry(d) => Stamp(d.seconds, d.nanos)
  }

  /** The two maps of a directory snapshot. */
  datatype Dir = Dir(files: map<string, FileRef>, dirs: map<string, DirRef>) {
    ghost predicate Disjoint() {
      files.Keys !! dirs.Keys
    }

    function FileAt(name: string): Option<Entry> {
      if name in files then Some(FileEntry(files[name])) else None
    }

    function DirAt(name: string): Option<Entry> {
      if name in dirs then Some(DirEntry(dirs[name])) else None
    }

    /** The entry a name denotes; unambiguous when the two maps are disjoint. */
    function At(name: string): Option<Entry> {
      if name in dirs then DirAt(name) else FileAt(name)
    }

    function Names(): set<string> {
      files.Keys + dirs.Keys
    }
  }

  const EMPTY_DIR := Dir(map[], map[])

  lemma SameEntriesSameDir(a: Dir, b: Dir)
    requires a.Disjoint() && b.Disjoint()
    requires forall n :: a.At(n) == b.At(n)
    ensures a == b
  {
    forall n
      ensures Get(a.files, n) == Get(b.files, n)
      ensures Get(a.dirs, n) == Get(b.dirs, n)
    {
      assert a.At(n) == b.At(n);
    }
    SameGetsSameMap(a.files, b.files);
    SameGetsSameMap(a.dirs, b.dirs);
  }
}
