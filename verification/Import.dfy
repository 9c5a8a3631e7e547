/** Importing blobs into a content-addressed store: by bytes or by stream, on
    stores with and without rename, with any store operation failing. */
module Import {
  import opened Entries

  datatype StorePath = BlobAt(hash: Hash) | OutboardAt(hash: Hash) | Temp(id: nat)

  datatype BlobId = BlobId(hash: Hash, size: nat)

  type Files = map<StorePath, Bytes>

  /** BLAKE3, and the Bao outboard data derived from a blob, if it has any. */
  datatype Crypto = Crypto(blake3: Bytes -> Hash, outboard: Bytes -> Option<Bytes>)

  const OUTBOARD_MIN_SIZE: nat := 0x1_0000

  /** The content at each blob path hashes to the hash in the path. */
  ghost predicate Addressed(c: Crypto, files: Files) {
    forall h :: BlobAt(h) in files ==> c.blake3(files[BlobAt(h)]) == h
  }

  ghost predicate SameTemps(before: Files, after: Files) {
    forall i: nat :: Get(after, Temp(i)) == Get(before, Temp(i))
  }

  ghost predicate SameOutboards(before: Files, after: Files) {
    forall h :: Get(after, OutboardAt(h)) == Get(before, OutboardAt(h))
  }

  /** Every blob that was there is still there, untouched. */
  ghost predicate BlobsKept(before: Files, after: Files) {
    forall h :: BlobAt(h) in before ==> Get(after, BlobAt(h)) == Get(before, BlobAt(h))
  }

  /** What a successful import of `bytes` leaves and returns. The blob holds the
      bytes, unless an older one with the same hash was there before, in which
      case that collision is left alone. */
  ghost predicate Imported(c: Crypto, before: Files, after: Files, bytes: Bytes, id: BlobId) {
    && id == BlobId(c.blake3(bytes), |bytes|)
    && BlobAt(id.hash) in after
    && (after[BlobAt(id.hash)] == bytes ||
        (BlobAt(id.hash) in before && before[BlobAt(id.hash)] == after[BlobAt(id.hash)] &&
         before[BlobAt(id.hash)] != bytes))
    && SameTemps(before, after) && BlobsKept(before, after)
    && (forall h :: h != id.hash && BlobAt(h) in after ==> BlobAt(h) in before)
  }

  /** The outboard data of `bytes` is stored, if there is any. */
  ghost predicate HasOutboard(c: Crypto, after: Files, bytes: Bytes) {
    c.outboard(bytes).Some? ==> Get(after, OutboardAt(c.blake3(bytes))) == c.outboard(bytes)
  }

  /** What a stream turns out to be: complete, or broken off after a part. */
  datatype Stream = Complete(bytes: Bytes) | Broken(part: Bytes)

  class BlobStore {
    const c: Crypto
    const supportsRename: bool
    const hasOutboard: bool
    var files: Files
    /** Which of the coming store operations fail; none once it has run out. */
    var faults: seq<bool>
    /** How many have failed. */
    ghost var failures: nat
    var nextTemp: nat

    ghost predicate Valid()
      reads this
    {
      Addressed(c, files) && forall i: nat :: Temp(i) in files ==> i < nextTemp
    }

    constructor (c: Crypto, supportsRename: bool, hasOutboard: bool, faults: seq<bool>)
      ensures Valid() && files == map[]
    {
      this.c, this.supportsRename, this.hasOutboard := c, supportsRename, hasOutboard;
      files, this.faults, failures, nextTemp := map[], faults, 0, 0;
    }

    /** No operation to come fails. */
    predicate Sound()
      reads this
    {
      forall i :: 0 <= i < |faults| ==> !faults[i]
    }

    method Fails() returns (f: bool)
      modifies this`faults, this`failures
      ensures f <==> old(faults) != [] && old(faults)[0]
      ensures faults == if old(faults) == [] then [] else old(faults)[1..]
      ensures failures == old(failures) + if f then 1 else 0
    {
      f := false;
      if faults != [] {
        f, faults := faults[0], faults[1..];
      }
      failures := failures + if f then 1 else 0;
    }

    /** A temporary file; a broken stream leaves what had arrived. */
    method PutTemp(stream: Stream) returns (t: Option<nat>)
      requires Valid()
      modifies this
      ensures Valid() && BlobsKept(old(files), files)
      ensures t.Some? ==> stream.Complete? && Temp(t.value) !in old(files)
      ensures t.Some? ==> files == old(files)[Temp(t.value) := stream.bytes]
      ensures forall h :: BlobAt(h) in files ==> BlobAt(h) in old(files)
      ensures old(Sound()) ==> Sound() && failures == old(failures)
      ensures t.Some? <==> stream.Complete? && failures == old(failures)
      ensures old(failures) <= failures
      ensures SameOutboards(old(files), files)
    {
      var f := Fails();
      if f {
        return None;
      }
      files := files[Temp(nextTemp) := if stream.Complete? then stream.bytes else stream.part];
      t := if stream.Complete? then Some(nextTemp) else None;
      nextTemp := nextTemp + 1;
    }

    method PutOutboard(bytes: Bytes, wanted: bool) returns (ok: bool)
      requires Valid()
      modifies this`files, this`faults, this`failures
      ensures Valid() && BlobsKept(old(files), files) && SameTemps(old(files), files)
      ensures forall h :: BlobAt(h) in files ==> BlobAt(h) in old(files)
      ensures ok && wanted && hasOutboard ==> HasOutboard(c, files, bytes)
      ensures !wanted ==> files == old(files)
      ensures old(Sound()) ==> Sound() && ok
      ensures old(failures) <= failures && (ok <==> failures == old(failures))
    {
      var data := c.outboard(bytes);
      if !wanted || !hasOutboard || data.None? {
        return true;
      }
      var f := Fails();
      ok := !f;
      if ok {
        files := files[OutboardAt(c.blake3(bytes)) := data.value];
      }
    }

    /** `finalize_import`: the temporary file becomes the blob, or goes. */
    method Finalize(t: nat, bytes: Bytes, outboard: bool, ghost before: Files) returns (r: Option<BlobId>)
      requires Valid() && Get(files, Temp(t)) == Some(bytes) && Temp(t) !in before
      requires SameTemps(before, files - {Temp(t)}) && BlobsKept(before, files)
      requires forall h :: BlobAt(h) in files ==> BlobAt(h) in before
      modifies this`files, this`faults, this`failures
      ensures Valid() && BlobsKept(before, files)
      ensures r.Some? ==> Imported(c, before, files, bytes, r.value)
      ensures r.Some? && outboard && hasOutboard ==> HasOutboard(c, files, bytes)
      ensures !outboard ==> SameOutboards(old(files), files)
      ensures old(Sound()) ==> r.Some? && Sound()
      ensures old(failures) <= failures && (r.Some? <==> failures == old(failures))
    {
      var hash := c.blake3(bytes);
      var stored := PutOutboard(bytes, outboard);
      if !stored {
        return None;
      }
      var moved := MoveToBlob(t, hash);
      r := if moved then Some(BlobId(hash, |bytes|)) else None;
    }

    /** The temporary file goes if the blob exists, and otherwise becomes it, by a
        rename or by a copy. A failure leaves it, and may leave the copy. */
    method MoveToBlob(t: nat, hash: Hash) returns (ok: bool)
      requires Temp(t) in files
      modifies this`files, this`faults, this`failures
      ensures ok && BlobAt(hash) in old(files) ==> files == old(files) - {Temp(t)}
      ensures ok && BlobAt(hash) !in old(files) ==>
                files == (old(files) - {Temp(t)})[BlobAt(hash) := old(files)[Temp(t)]]
      ensures !ok ==> files == old(files) ||
                      (!supportsRename && BlobAt(hash) !in old(files) &&
                       files == old(files)[BlobAt(hash) := old(files)[Temp(t)]])
      ensures old(Sound()) ==> ok && Sound()
      ensures old(failures) <= failures && (ok <==> failures == old(failures))
    {
      var f := Fails();
      if f {
        return false;
      }
      if BlobAt(hash) in files {
        f := Fails();
        if f {
          return false;
        }
        files := files - {Temp(t)};
      } else if supportsRename {
        f := Fails();
        if f {
          return false;
        }
        files := (files - {Temp(t)})[BlobAt(hash) := files[Temp(t)]];
      } else {
        f := Fails();
        if f {
          return false;
        }
        files := files[BlobAt(hash) := files[Temp(t)]];
        f := Fails();
        if f {
          return false;
        }
        files := files - {Temp(t)};
      }
      ok := true;
    }

    /** `import_bytes`. */
    method ImportBytes(bytes: Bytes) returns (r: Option<BlobId>)
      requires Valid()
      modifies this
      ensures Valid() && BlobsKept(old(files), files)
      ensures r.Some? ==> Imported(c, old(files), files, bytes, r.value)
      ensures r.Some? && |bytes| >= 65536 && hasOutboard ==> HasOutboard(c, files, bytes)
      ensures |bytes| < 65536 ==> SameOutboards(old(files), files)
      ensures !supportsRename ==> SameTemps(old(files), files)
      ensures old(Sound()) ==> r.Some? && Sound()
      ensures old(failures) <= failures && (r.Some? <==> failures == old(failures))
    {
      var hash, size := c.blake3(bytes), |bytes|;
      var stored := PutOutboard(bytes, size >= OUTBOARD_MIN_SIZE);
      if !stored {
        return None;
      }
      var f := Fails();
      if f {
        return None;
      }
      if BlobAt(hash) in files {
        return Some(BlobId(hash, size));
      }
      if supportsRename {
        var t := PutTemp(Complete(bytes));
        if t.None? {
          return None;
        }
        r := Finalize(t.value, bytes, size >= OUTBOARD_MIN_SIZE, old(files));
      } else {
        f := Fails();
        if f {
          return None;
        }
        files := files[BlobAt(hash) := bytes];
        r := Some(BlobId(hash, size));
      }
    }

    /** `import_stream`: the hash is that of the bytes the tee copied to the
        hasher, which are the bytes that reached the temporary file. */
    method ImportStream(stream: Stream) returns (r: Option<BlobId>)
      requires Valid()
      modifies this
      ensures Valid() && BlobsKept(old(files), files)
      ensures r.Some? ==> stream.Complete? && Imported(c, old(files), files, stream.bytes, r.value)
      ensures r.Some? && hasOutboard ==> HasOutboard(c, files, stream.bytes)
      ensures old(Sound()) ==> Sound() && (r.Some? <==> stream.Complete?)
      ensures r.Some? <==> stream.Complete? && failures == old(failures)
    {
      var t := PutTemp(stream);
      if t.None? {
        return None;
      }
      var f := Fails();
      if f {
        return None;
      }
      r := Finalize(t.value, stream.bytes, true, old(files));
    }

    /** `delete`: the blob and its outboard data; that these could not be deleted
        is no failure. */
    method Delete(hash: Hash) returns (ok: bool)
      requires Valid()
      modifies this`files, this`faults, this`failures
      ensures Valid()
      ensures ok ==> BlobAt(hash) !in files
      ensures forall h :: h != hash || !ok ==> Get(files, BlobAt(h)) == Get(old(files), BlobAt(h))
      ensures old(Sound()) ==> ok && Sound() && (hasOutboard ==> OutboardAt(hash) !in files)
      ensures ok <==> old(faults) == [] || !old(faults)[0]
      ensures forall p :: p != BlobAt(hash) && p != OutboardAt(hash) ==> Get(files, p) == Get(old(files), p)
      ensures !hasOutboard || failures > old(failures) ==>
                Get(files, OutboardAt(hash)) == Get(old(files), OutboardAt(hash))
    {
      var f := Fails();
      if f {
        return false;
      }
      files := files - {BlobAt(hash)};
      if hasOutboard {
        f := Fails();
        if !f {
          files := files - {OutboardAt(hash)};
        }
      }
      ok := true;
    }
  }
}
