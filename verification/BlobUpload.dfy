/** Uploading file contents in size-capped batches. */
module BlobUpload {
  import opened Wrappers
  import opened Lines
  import opened Base64

  type Path = string
  type Sha = string

  const BATCH_MAX := 4 * 1024 * 1024

  datatype Upload = Upload(path: Path, raw: Bytes)
  datatype Item = Item(path: Path, content: seq<Symbol>)
  type Chunk = seq<Item>

  function Total(items: seq<Item>): nat {
    if items == [] then 0 else Total(items[..|items| - 1]) + |items[|items| - 1].content|
  }

  function Flat(chunks: seq<Chunk>): seq<Item> {
    if chunks == [] then [] else Flat(chunks[..|chunks| - 1]) + chunks[|chunks| - 1]
  }

  function Manifest(uploads: seq<Upload>): (items: seq<Item>)
    ensures |items| == |uploads|
    ensures forall k :: 0 <= k < |items| ==> items[k] == Item(uploads[k].path, Encode(uploads[k].raw))
  {
    seq(|uploads|, k requires 0 <= k < |uploads| => Item(uploads[k].path, Encode(uploads[k].raw)))
  }

  lemma {:induction false} TotalConcat(a: seq<Item>, b: seq<Item>)
    ensures Total(a + b) == Total(a) + Total(b)
    decreases |b|
  {
    if b == [] {
      assert a + b == a;
    } else {
      var front := b[..|b| - 1];
      assert (a + b)[..|a + b| - 1] == a + front;
      TotalConcat(a, front);
    }
  }

  /** No empty batch, and none over the cap except a single file. */
  ghost predicate Fits(chunk: Chunk, cap: nat) {
    chunk != [] && (Total(chunk) <= cap || |chunk| == 1)
  }

  ghost predicate AllFit(chunks: seq<Chunk>, cap: nat) {
    forall k :: 0 <= k < |chunks| ==> Fits(chunks[k], cap)
  }

  /** The batches closed so far were worth closing: each next file overflowed
      the one before it. */
  ghost predicate Frugal(closed: nat, cap: nat, packed: nat, size: nat) {
    closed * cap <= 2 * packed + size
  }

  lemma {:induction false} CloseOne(closed: nat, cap: nat, packed: nat, size: nat, next: nat)
    requires Frugal(closed, cap, packed, size) && size + next > cap
    ensures Frugal(closed + 1, cap, packed + size, next)
  {
    assert (closed + 1) * cap == closed * cap + cap;
  }

  /** `done` is packed into closed batches and one still open. */
  ghost predicate Packed(chunks: seq<Chunk>, current: Chunk, done: seq<Item>, cap: nat) {
    && Flat(chunks) + current == done
    && AllFit(chunks, cap)
    && (if done == [] then chunks == [] else Fits(current, cap))
    && Frugal(|chunks|, cap, Total(Flat(chunks)), Total(current))
  }

  lemma {:induction false} OpenNext(chunks: seq<Chunk>, current: Chunk, done: seq<Item>, item: Item, cap: nat)
    requires Packed(chunks, current, done, cap) && current != [] && Total(current) + |item.content| > cap
    ensures Packed(chunks + [current], [item], done + [item], cap)
  {
    TotalConcat(Flat(chunks), current);
    assert [] + [item] == [item];
    CloseOne(|chunks|, cap, Total(Flat(chunks)), Total(current), |item.content|);
  }

  lemma {:induction false} CloseLast(chunks: seq<Chunk>, current: Chunk, done: seq<Item>, cap: nat)
    requires Packed(chunks, current, done, cap) && done != []
    ensures Flat(chunks + [current]) == done && AllFit(chunks + [current], cap)
    ensures Frugal(|chunks|, cap, Total(done), 0)
  {
    TotalConcat(Flat(chunks), current);
  }

  /** The batches closed and the one still open, after a list of items. */
  ghost function Packing(items: seq<Item>, cap: nat): (seq<Chunk>, Chunk) {
    if items == [] then ([], [])
    else
      var (closed, current) := Packing(items[..|items| - 1], cap);
      var item := items[|items| - 1];
      if current != [] && Total(current) + |item.content| > cap then (closed + [current], [item])
      else (closed, current + [item])
  }

  /** The batches a list of items is sent in. */
  ghost function Batches(items: seq<Item>, cap: nat): seq<Chunk> {
    var (closed, current) := Packing(items, cap);
    if current == [] then closed else closed + [current]
  }

  /** The greedy packer: the manifest in order, no empty batch, none over the cap
      but single files, and few batches. */
  method ManifestChunks(uploads: seq<Upload>, cap: nat) returns (chunks: seq<Chunk>)
    ensures chunks == Batches(Manifest(uploads), cap)
    ensures Flat(chunks) == Manifest(uploads)
    ensures AllFit(chunks, cap)
    ensures chunks == [] <==> uploads == []
    ensures chunks != [] ==> Frugal(|chunks| - 1, cap, Total(Manifest(uploads)), 0)
  {
    chunks := [];
    var current: Chunk, size := [], 0;
    ghost var manifest := Manifest(uploads);
    for n := 0 to |uploads|
      invariant (chunks, current) == Packing(manifest[..n], cap)
      invariant size == Total(current)
    {
      var item := Item(uploads[n].path, Encode(uploads[n].raw));
      assert manifest[..n + 1] == manifest[..n] + [item];
      if current != [] && size + |item.content| > cap {
        chunks := chunks + [current];
        current, size := [], 0;
        assert current + [item] == [item];
      }
      current := current + [item];
      size := size + |item.content|;
    }
    assert manifest[..|uploads|] == manifest;
    if current != [] {
      chunks := chunks + [current];
    }
    BatchesArePacked(manifest, cap);
  }

  lemma {:induction false} PackingIsPacked(items: seq<Item>, cap: nat)
    ensures Packed(Packing(items, cap).0, Packing(items, cap).1, items, cap)
    decreases |items|
  {
    if items != [] {
      var front, item := items[..|items| - 1], items[|items| - 1];
      PackingIsPacked(front, cap);
      assert items == front + [item];
      var (closed, current) := Packing(front, cap);
      if current != [] && Total(current) + |item.content| > cap {
        OpenNext(closed, current, front, item, cap);
      }
    }
  }

  lemma {:induction false} BatchesArePacked(items: seq<Item>, cap: nat)
    ensures var chunks := Batches(items, cap);
      && Flat(chunks) == items && AllFit(chunks, cap) && (chunks == [] <==> items == [])
      && (chunks != [] ==> Frugal(|chunks| - 1, cap, Total(items), 0))
  {
    PackingIsPacked(items, cap);
    if items != [] {
      CloseLast(Packing(items, cap).0, Packing(items, cap).1, items, cap);
    }
  }

  /** The count bound as the quotient it is. */
  lemma {:induction false} BatchCount(n: nat, total: nat, cap: nat)
    requires cap > 0 && n > 0 && Frugal(n - 1, cap, total, 0)
    ensures n <= 2 * total / cap + 1
  {
    QuotientFits(n - 1, 2 * total, cap);
  }

  lemma {:induction false} QuotientFits(m: nat, x: nat, cap: nat)
    requires cap > 0 && m * cap <= x
    ensures m <= x / cap
  {
    var q := x / cap;
    assert x == q * cap + x % cap;
    assert (q + 1) * cap == q * cap + cap;
  }

  // ---- creating the blobs ----

  /** The store holds, under `sha`, the bytes some item gives for `p`. */
  predicate Holds(p: Path, sha: Sha, items: seq<Item>, objects: Sha -> Bytes) {
    exists k :: 0 <= k < |items| && items[k].path == p && objects(sha) == Decode(items[k].content)
  }

  ghost predicate Faithful(shas: map<Path, Sha>, items: seq<Item>, objects: Sha -> Bytes) {
    forall p :: p in shas ==> Holds(p, shas[p], items, objects)
  }

  /** The forge's answer to a batch: it may leave some of it out, but hands out
      only shas of what it was sent. */
  type Forge = Chunk -> map<Path, Sha>

  ghost predicate Honest(forge: Forge, objects: Sha -> Bytes) {
    forall chunk :: Faithful(forge(chunk), chunk, objects)
  }

  /** A batch the path was sent in came back without it. */
  ghost predicate LeftOut(forge: Forge, chunk: Chunk, p: Path) {
    p !in forge(chunk) && exists k :: 0 <= k < |chunk| && chunk[k].path == p
  }

  ghost predicate Distinct(uploads: seq<Upload>) {
    forall i, j :: 0 <= i < j < |uploads| ==> uploads[i].path != uploads[j].path
  }

  lemma {:induction false} FaithfulGrows(shas: map<Path, Sha>, a: seq<Item>, b: seq<Item>, objects: Sha -> Bytes)
    requires Faithful(shas, a, objects)
    ensures Faithful(shas, a + b, objects) && Faithful(shas, b + a, objects)
  {
    forall p | p in shas
      ensures Holds(p, shas[p], a + b, objects) && Holds(p, shas[p], b + a, objects)
    {
      var k :| 0 <= k < |a| && a[k].path == p && objects(shas[p]) == Decode(a[k].content);
      assert (a + b)[k] == a[k] && (b + a)[|b| + k] == a[k];
    }
  }

  /** Every uploaded path with the sha of exactly its bytes, or an error. */
  ghost predicate Stored(shas: map<Path, Sha>, uploads: seq<Upload>, objects: Sha -> Bytes) {
    && (forall p :: p in shas ==> exists k :: 0 <= k < |uploads| && uploads[k].path == p)
    && (forall k :: 0 <= k < |uploads| ==> uploads[k].path in shas && objects(shas[uploads[k].path]) == uploads[k].raw)
  }

  lemma {:induction false} StoredIfFaithful(shas: map<Path, Sha>, uploads: seq<Upload>, objects: Sha -> Bytes)
    requires Distinct(uploads) && Faithful(shas, Manifest(uploads), objects)
    requires forall k :: 0 <= k < |uploads| ==> uploads[k].path in shas
    ensures Stored(shas, uploads, objects)
  {
    var items := Manifest(uploads);
    forall k | 0 <= k < |uploads|
      ensures objects(shas[uploads[k].path]) == uploads[k].raw
    {
      assert Holds(uploads[k].path, shas[uploads[k].path], items, objects);
      var j :| 0 <= j < |items| && items[j].path == uploads[k].path && objects(shas[uploads[k].path]) == Decode(items[j].content);
      assert uploads[j].path == uploads[k].path;
      assert j == k;
      DecodeInvertsEncode(uploads[k].raw);
    }
    forall p | p in shas
      ensures exists k :: 0 <= k < |uploads| && uploads[k].path == p
    {
      assert Holds(p, shas[p], items, objects);
      var k :| 0 <= k < |items| && items[k].path == p && objects(shas[p]) == Decode(items[k].content);
      assert uploads[k].path == p;
    }
  }

  /** The files of the batches sent so far that the forge has answered for. */
  ghost predicate AnsweredFor(forge: Forge, chunks: seq<Chunk>, shas: map<Path, Sha>) {
    forall i :: 0 <= i < |chunks| ==> forall p :: p in forge(chunks[i]) ==> p in shas
  }

  lemma {:induction false} FlatHolds(chunks: seq<Chunk>, item: Item) returns (i: nat)
    requires item in Flat(chunks)
    ensures i < |chunks| && item in chunks[i]
    decreases |chunks|
  {
    if item in chunks[|chunks| - 1] {
      i := |chunks| - 1;
    } else {
      i := FlatHolds(chunks[..|chunks| - 1], item);
    }
  }

  /** A path without a sha was left out by the forge. */
  lemma {:induction false} MissingIsLeftOut(forge: Forge, chunks: seq<Chunk>, shas: map<Path, Sha>, uploads: seq<Upload>, k: nat)
    requires AnsweredFor(forge, chunks, shas) && Flat(chunks) == Manifest(uploads)
    requires k < |uploads| && uploads[k].path !in shas
    ensures exists chunk :: chunk in chunks && LeftOut(forge, chunk, uploads[k].path)
  {
    var item := Manifest(uploads)[k];
    var i := FlatHolds(chunks, item);
    var j :| 0 <= j < |chunks[i]| && chunks[i][j] == item;
    assert chunks[i][j].path == uploads[k].path;
    assert LeftOut(forge, chunks[i], uploads[k].path);
  }

  /** Nothing else was handed out than what the batches were answered with. */
  ghost predicate HandedOut(forge: Forge, chunks: seq<Chunk>, shas: map<Path, Sha>) {
    forall p :: p in shas ==> exists i :: 0 <= i < |chunks| && p in forge(chunks[i])
  }

  lemma {:induction false} FlatAt(chunks: seq<Chunk>, i: nat, k: nat)
    requires i < |chunks| && k < |chunks[i]|
    ensures |Flat(chunks[..i])| + k < |Flat(chunks[..i + 1])| <= |Flat(chunks)|
    ensures Flat(chunks)[|Flat(chunks[..i])| + k] == chunks[i][k]
    decreases |chunks|
  {
    var front := chunks[..|chunks| - 1];
    assert chunks == front + [chunks[|chunks| - 1]];
    if i == |chunks| - 1 {
      assert chunks[..i + 1] == chunks;
    } else {
      FlatAt(front, i, k);
      assert front[..i] == chunks[..i] && front[..i + 1] == chunks[..i + 1];
    }
  }

  lemma {:induction false} FlatGrows(chunks: seq<Chunk>, i: nat, j: nat)
    requires i <= j <= |chunks|
    ensures |Flat(chunks[..i])| <= |Flat(chunks[..j])|
    decreases j - i
  {
    if i < j {
      FlatGrows(chunks, i, j - 1);
      assert chunks[..j] == chunks[..j - 1] + [chunks[j - 1]];
    }
  }

  /** A path goes into one batch only. */
  lemma {:induction false} OneBatch(uploads: seq<Upload>, chunks: seq<Chunk>, i: nat, k: nat, j: nat, m: nat)
    requires Distinct(uploads) && Flat(chunks) == Manifest(uploads)
    requires i < |chunks| && k < |chunks[i]| && j < |chunks| && m < |chunks[j]| && chunks[i][k].path == chunks[j][m].path
    ensures i == j
  {
    FlatAt(chunks, i, k);
    FlatAt(chunks, j, m);
    var x, y := |Flat(chunks[..i])| + k, |Flat(chunks[..j])| + m;
    assert uploads[x].path == chunks[i][k].path && uploads[y].path == chunks[j][m].path;
    assert x == y;
    if i < j {
      FlatGrows(chunks, i + 1, j);
    } else if j < i {
      FlatGrows(chunks, j + 1, i);
    }
  }

  /** With every path in hand, no batch came back short. */
  lemma {:induction false} NothingLeftOut(forge: Forge, objects: Sha -> Bytes, chunks: seq<Chunk>, shas: map<Path, Sha>, uploads: seq<Upload>, i: nat, p: Path)
    requires Distinct(uploads) && Flat(chunks) == Manifest(uploads) && Honest(forge, objects)
    requires HandedOut(forge, chunks, shas) && i < |chunks|
    requires forall k :: 0 <= k < |uploads| ==> uploads[k].path in shas
    ensures !LeftOut(forge, chunks[i], p)
  {
    if k :| 0 <= k < |chunks[i]| && chunks[i][k].path == p {
      FlatAt(chunks, i, k);
      assert uploads[|Flat(chunks[..i])| + k].path == p;
      var j :| 0 <= j < |chunks| && p in forge(chunks[j]);
      assert Faithful(forge(chunks[j]), chunks[j], objects);
      assert Holds(p, forge(chunks[j])[p], chunks[j], objects);
      var m :| 0 <= m < |chunks[j]| && chunks[j][m].path == p;
      OneBatch(uploads, chunks, i, k, j, m);
    }
  }

  /** Every file's blob, or the first file the forge left out; it fails exactly
      when some batch that was sent came back short. */
  method CreateBlobs(uploads: seq<Upload>, forge: Forge, ghost objects: Sha -> Bytes) returns (r: Result<map<Path, Sha>, Path>)
    requires Distinct(uploads) && Honest(forge, objects)
    ensures r.Success? ==> Stored(r.value, uploads, objects)
    ensures r.Success? ==> forall chunk, p :: chunk in Batches(Manifest(uploads), BATCH_MAX) ==> !LeftOut(forge, chunk, p)
    ensures r.Failure? ==> exists chunk :: chunk in Batches(Manifest(uploads), BATCH_MAX) && LeftOut(forge, chunk, r.error)
  {
    var shas: map<Path, Sha> := map[];
    var chunks := ManifestChunks(uploads, BATCH_MAX);
    for n := 0 to |chunks|
      invariant Faithful(shas, Flat(chunks[..n]), objects)
      invariant AnsweredFor(forge, chunks[..n], shas) && HandedOut(forge, chunks[..n], shas)
    {
      OneMoreBatch(chunks, n, shas, forge, objects);
      shas := shas + forge(chunks[n]);
    }
    assert chunks[..|chunks|] == chunks;
    if k :| 0 <= k < |uploads| && uploads[k].path !in shas {
      MissingIsLeftOut(forge, chunks, shas, uploads, k);
      return Failure(uploads[k].path);
    }
    StoredIfFaithful(shas, uploads, objects);
    forall chunk, p | chunk in chunks
      ensures !LeftOut(forge, chunk, p)
    {
      var i :| 0 <= i < |chunks| && chunks[i] == chunk;
      NothingLeftOut(forge, objects, chunks, shas, uploads, i, p);
    }
    return Success(shas);
  }

  lemma {:induction false} OneMoreBatch(chunks: seq<Chunk>, n: nat, shas: map<Path, Sha>, forge: Forge, objects: Sha -> Bytes)
    requires n < |chunks| && Honest(forge, objects)
    requires Faithful(shas, Flat(chunks[..n]), objects) && AnsweredFor(forge, chunks[..n], shas) && HandedOut(forge, chunks[..n], shas)
    ensures Faithful(shas + forge(chunks[n]), Flat(chunks[..n + 1]), objects)
    ensures AnsweredFor(forge, chunks[..n + 1], shas + forge(chunks[n]))
    ensures HandedOut(forge, chunks[..n + 1], shas + forge(chunks[n]))
  {
    var created := forge(chunks[n]);
    assert Faithful(created, chunks[n], objects);
    assert chunks[..n + 1] == chunks[..n] + [chunks[n]];
    FaithfulGrows(shas, Flat(chunks[..n]), chunks[n], objects);
    FaithfulGrows(created, chunks[n], Flat(chunks[..n]), objects);
    HandedOutMore(forge, chunks[..n], chunks[n], shas);
  }

  lemma {:induction false} HandedOutMore(forge: Forge, chunks: seq<Chunk>, chunk: Chunk, shas: map<Path, Sha>)
    requires HandedOut(forge, chunks, shas)
    ensures HandedOut(forge, chunks + [chunk], shas + forge(chunk))
  {
    var all := chunks + [chunk];
    forall p | p in shas + forge(chunk)
      ensures exists i :: 0 <= i < |all| && p in forge(all[i])
    {
      if p in forge(chunk) {
        assert all[|chunks|] == chunk;
      } else {
        var i :| 0 <= i < |chunks| && p in forge(chunks[i]);
        assert all[i] == chunks[i];
      }
    }
  }
}
