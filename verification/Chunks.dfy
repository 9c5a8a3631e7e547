/** Chunked encryption of a blob: the upload loop, the size it announces, and
    the download loop that cuts the ciphertext back into chunks. */
module Chunks {
  import opened Entries

  /** Length of the authentication tag, section 2.8 of RFC 8439. */
  const OVERHEAD: nat := 16

  /** One chunk encrypted under its index, and decrypted again if authentic. */
  datatype Aead = Aead(seal: (nat, Bytes) -> Bytes, open: (nat, Bytes) -> Option<Bytes>)

  ghost predicate Lawful(a: Aead) {
    forall i, c :: |a.seal(i, c)| == |c| + OVERHEAD && a.open(i, a.seal(i, c)) == Some(c)
  }

  function Min(a: nat, b: nat): nat {
    if a < b then a else b
  }

  /** The concatenated ciphertext of `content`, its first chunk having index `i`. */
  function Sealed(a: Aead, content: Bytes, block: nat, i: nat): Bytes
    requires block > 0
    decreases |content|
  {
    if content == [] then []
    else
      var end := Min(block, |content|);
      a.seal(i, content[..end]) + Sealed(a, content[end..], block, i + 1)
  }

  /** Cutting `cipher` into blocks of `block` plus the tag and opening each. */
  function Opened(a: Aead, cipher: Bytes, block: nat, i: nat): Option<Bytes>
    requires block > 0
    decreases |cipher|
  {
    if cipher == [] then Some([])
    else
      var end := Min(block + OVERHEAD, |cipher|);
      match a.open(i, cipher[..end])
      case None => None
      case Some(head) => Prepend(head, Opened(a, cipher[end..], block, i + 1))
  }

  function Prepend(head: Bytes, tail: Option<Bytes>): Option<Bytes> {
    match tail
    case None => None
    case Some(t) => Some(head + t)
  }

  lemma PrependLaws(p: Bytes, q: Bytes, o: Option<Bytes>)
    ensures Prepend([], o) == o
    ensures Prepend(p, Prepend(q, o)) == Prepend(p + q, o)
  {
    if o.Some? {
      assert [] + o.value == o.value;
      assert p + (q + o.value) == (p + q) + o.value;
    }
  }

  /** The announced encrypted size. */
  function AnnouncedSize(n: nat, block: nat): nat
    requires block > 0
  {
    var full, last := n / block, n % block;
    if last > 0 then full * (block + OVERHEAD) + (last + OVERHEAD)
    else if full > 0 then full * (block + OVERHEAD)
    else 0
  }

  lemma DivStep(n: nat, block: nat)
    requires block > 0 && n >= block
    ensures (n - block) / block == n / block - 1 && (n - block) % block == n % block
  {
    var q, r := n / block, n % block;
    assert n - block == (q - 1) * block + r;
    DivUnique(n - block, block, q - 1, r);
  }

  lemma DivUnique(n: int, block: nat, q: int, r: nat)
    requires block > 0 && r < block && n == q * block + r
    ensures n / block == q && n % block == r
  {
    var q', r' := n / block, n % block;
    assert n == q' * block + r';
    if q > q' {
      MulGap(q', q, block);
    } else if q < q' {
      MulGap(q, q', block);
    }
  }

  lemma MulGap(x: int, y: int, block: nat)
    requires x < y
    ensures x * block + block <= y * block
  {
    var k := y - x - 1;
    assert k * block >= 0;
    assert y * block == (x + 1 + k) * block == x * block + block + k * block;
  }

  lemma AnnouncedStep(n: nat, block: nat)
    requires block > 0
    ensures n >= block ==> AnnouncedSize(n, block) == block + OVERHEAD + AnnouncedSize(n - block, block)
    ensures 0 < n < block ==> AnnouncedSize(n, block) == n + OVERHEAD
    ensures AnnouncedSize(0, block) == 0
  {
    if n >= block {
      DivStep(n, block);
      var full := n / block;
      assert full * (block + OVERHEAD) == (full - 1) * (block + OVERHEAD) + (block + OVERHEAD);
    } else if n > 0 {
      DivUnique(n, block, 0, n);
    }
    DivUnique(0, block, 0, 0);
  }

  /** The announced size is the size of the ciphertext. */
  lemma {:induction false} AnnouncedIsActual(a: Aead, content: Bytes, block: nat, i: nat)
    requires Lawful(a) && block > 0
    ensures |Sealed(a, content, block, i)| == AnnouncedSize(|content|, block)
    decreases |content|
  {
    AnnouncedStep(|content|, block);
    if content != [] {
      var end := Min(block, |content|);
      AnnouncedIsActual(a, content[end..], block, i + 1);
      if |content| < block {
        AnnouncedStep(0, block);
      }
    }
  }

  /** In figures: sixteen bytes are added for every block that is begun. */
  lemma AnnouncedFormula(n: nat, block: nat)
    requires block > 0
    ensures AnnouncedSize(n, block) == n + 16 * ((n + block - 1) / block)
  {
    var q, r := n / block, n % block;
    assert n == q * block + r;
    if r > 0 {
      assert (q + 1) * block == q * block + block;
      DivUnique(n + block - 1, block, q + 1, r - 1);
    } else {
      DivUnique(n + block - 1, block, q, block - 1);
    }
    assert q * (block + 16) == q * block + 16 * q;
  }

  /** The chunk with number `k` is sealed under its own index, and lies where the
      chunks before it, each a block and sixteen bytes long, end. */
  lemma ChunkIsSealedAtItsPlace(a: Aead, content: Bytes, block: nat, i: nat, k: nat)
    requires Lawful(a) && block > 0 && k * block < |content|
    ensures ChunkAt(a, content, Sealed(a, content, block, i), block, k * block, k * (block + 16), i + k)
  {
    AddedUp(k, block);
    AddedUp(k, block + 16);
    ChunkIsSealed(a, content, block, i, k, k * block, k * (block + 16), i + k);
  }

  function Added(k: nat, size: nat): nat {
    if k == 0 then 0 else Added(k - 1, size) + size
  }

  lemma {:induction false} AddedUp(k: nat, size: nat)
    ensures Added(k, size) == k * size
  {
    if k > 0 {
      AddedUp(k - 1, size);
    }
  }

  /** The chunk that starts at `from`, sealed under `index`, starts at `at`. */
  predicate ChunkAt(a: Aead, content: Bytes, cipher: Bytes, block: nat, from: nat, at: nat, index: nat) {
    SealedAt(a, content, cipher, from, Min(from + block, |content|), at, index)
  }

  lemma {:induction false} ChunkIsSealed(a: Aead, content: Bytes, block: nat, i: nat, k: nat,
                                         from: nat, at: nat, index: nat)
    requires Lawful(a) && block > 0 && index == i + k
    requires from == Added(k, block) < |content| && at == Added(k, block + 16)
    ensures ChunkAt(a, content, Sealed(a, content, block, i), block, from, at, index)
    decreases k
  {
    if k == 0 {
      FirstChunk(a, content, block, i);
    } else {
      var from', at' := Added(k - 1, block), Added(k - 1, block + 16);
      ChunkIsSealed(a, content[block..], block, i + 1, k - 1, from', at', index);
      NextChunk(a, content, block, i, from', at', index);
    }
  }

  lemma FirstChunk(a: Aead, content: Bytes, block: nat, i: nat)
    requires Lawful(a) && block > 0 && content != []
    ensures ChunkAt(a, content, Sealed(a, content, block, i), block, 0, 0, i)
  {
    var end := Min(block, |content|);
    var head := a.seal(i, content[..end]);
    assert |head| == end + 16;
    assert content[0..end] == content[..end];
    assert (head + Sealed(a, content[end..], block, i + 1))[0..end + 16] == head;
  }

  /** What lies at a place of the rest lies one chunk further in the whole. */
  lemma NextChunk(a: Aead, content: Bytes, block: nat, i: nat, from: nat, at: nat, index: nat)
    requires Lawful(a) && 0 < block <= |content|
    requires ChunkAt(a, content[block..], Sealed(a, content[block..], block, i + 1), block, from, at, index)
    ensures ChunkAt(a, content, Sealed(a, content, block, i), block, from + block, at + (block + 16), index)
  {
    var head, rest := content[..block], content[block..];
    ShiftSealed(a, head, rest, a.seal(i, head), Sealed(a, rest, block, i + 1),
                from, Min(from + block, |rest|), at, index);
    assert head + rest == content;
  }

  /** `content[from..end]`, sealed under `index`, starts at `at` in `cipher`. */
  predicate SealedAt(a: Aead, content: Bytes, cipher: Bytes, from: nat, end: nat, at: nat, index: nat) {
    && from <= end <= |content|
    && at + (end - from) + 16 <= |cipher|
    && cipher[at..at + (end - from) + 16] == a.seal(index, content[from..end])
  }

  lemma ShiftSealed(a: Aead, p: Bytes, content: Bytes, q: Bytes, cipher: Bytes,
                    from: nat, end: nat, at: nat, index: nat)
    requires SealedAt(a, content, cipher, from, end, at, index)
    ensures SealedAt(a, p + content, q + cipher, |p| + from, |p| + end, |q| + at, index)
  {
    var stop := at + (end - from) + 16;
    assert (p + content)[|p| + from..|p| + end] == content[from..end];
    assert (q + cipher)[|q| + at..|q| + stop] == cipher[at..stop];
  }

  /** The download loop cuts at the upload's boundaries, with the same indices,
      and so gives the content back. */
  lemma {:induction false} OpenedInvertsSealed(a: Aead, content: Bytes, block: nat, i: nat)
    requires Lawful(a) && block > 0
    ensures Opened(a, Sealed(a, content, block, i), block, i) == Some(content)
    decreases |content|
  {
    if content != [] {
      var end := Min(block, |content|);
      var head, tail := a.seal(i, content[..end]), Sealed(a, content[end..], block, i + 1);
      var cipher := Sealed(a, content, block, i);
      assert cipher == head + tail;
      assert end < block ==> tail == [];
      var cut := Min(block + OVERHEAD, |cipher|);
      assert |head| == end + OVERHEAD == cut;
      assert cipher[..cut] == head && cipher[cut..] == tail;
      OpenedInvertsSealed(a, content[end..], block, i + 1);
      assert content == content[..end] + content[end..];
    }
  }

  lemma SealedStep(a: Aead, content: Bytes, block: nat, offset: nat, i: nat, sent: Bytes)
    requires block > 0 && offset < |content|
    ensures var end := Min(offset + block, |content|);
            sent + Sealed(a, content[offset..], block, i) ==
            (sent + a.seal(i, content[offset..end])) + Sealed(a, content[end..], block, i + 1)
  {
    var end := Min(offset + block, |content|);
    var rest := content[offset..];
    assert rest[..end - offset] == content[offset..end] && rest[end - offset..] == content[end..];
  }

  /** `upload_encrypted_blob_inner`: the size announced, and the bytes sent. */
  method Upload(a: Aead, content: Bytes, block: nat) returns (announced: nat, sent: Bytes)
    requires Lawful(a) && block > 0
    ensures sent == Sealed(a, content, block, 0)
    ensures announced == |sent|
  {
    announced := AnnouncedSize(|content|, block);
    sent := [];
    var offset, index := 0, 0;
    assert content[0..] == content;
    while offset < |content|
      invariant 0 <= offset <= |content|
      invariant sent + Sealed(a, content[offset..], block, index) == Sealed(a, content, block, 0)
    {
      var end := Min(offset + block, |content|);
      var chunk := content[offset..end];
      SealedStep(a, content, block, offset, index, sent);
      sent := sent + a.seal(index, chunk);
      offset, index := end, index + 1;
    }
    assert sent + [] == sent;
    AnnouncedIsActual(a, content, block, 0);
  }

  /** `download_encrypted_blob_inner`: a zero block size or a chunk that does
      not open is an error. */
  method Download(a: Aead, cipher: Bytes, block: nat) returns (r: Option<Bytes>)
    ensures block == 0 ==> r == None
    ensures block > 0 ==> r == Opened(a, cipher, block, 0)
  {
    if block == 0 {
      return None;
    }
    var plain: Bytes := [];
    var offset, index := 0, 0;
    assert cipher[0..] == cipher;
    PrependLaws([], [], Opened(a, cipher, block, 0));
    while offset < |cipher|
      invariant 0 <= offset <= |cipher|
      invariant Opened(a, cipher, block, 0) == Prepend(plain, Opened(a, cipher[offset..], block, index))
    {
      var end := Min(offset + block + OVERHEAD, |cipher|);
      var chunk := cipher[offset..end];
      assert cipher[offset..][..end - offset] == chunk && cipher[offset..][end - offset..] == cipher[end..];
      var piece := a.open(index, chunk);
      if piece.None? {
        return None;
      }
      PrependLaws(plain, piece.value, Opened(a, cipher[end..], block, index + 1));
      plain := plain + piece.value;
      offset, index := end, index + 1;
    }
    assert plain + [] == plain;
    r := Some(plain);
  }

  /** Uploading and downloading gives the content back. */
  method RoundTrip(a: Aead, content: Bytes, block: nat) returns (r: Option<Bytes>)
    requires Lawful(a) && block > 0
    ensures r == Some(content)
  {
    var announced, sent := Upload(a, content, block);
    r := Download(a, sent, block);
    OpenedInvertsSealed(a, content, block, 0);
  }
}
