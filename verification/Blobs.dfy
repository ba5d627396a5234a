/** Blob staging: contiguous chunks, files made durable before the rows that name
    them, verification of the whole product, collection and the staging quota. */
module Blobs {
  import opened Common

  type Byte = b: int | 0 <= b < 256
  type Bytes = seq<Byte>

  /** SHA-256 as a collision-free function; Other stands for digests of no known bytes. */
  datatype Digest = Sha(of: Bytes) | Other(tag: nat)

  /** File names in the blob directory, one constructor per prefix. */
  datatype Name =
    | ChunkFile(domain: Id, digest: Digest, offset: nat, sum: Digest)
    | ProductFile(digest: Digest)
    | TempFile(tag: nat)
    | ForeignFile(name: string)

  type Files = map<Name, Bytes>

  datatype Chunk = Chunk(offset: nat, sum: Digest, size: nat)

  /** A blob_products row with its blob_chunks rows by ascending offset. */
  datatype Product = Product(length: nat, offset: nat, verified: bool, expires: nat, chunks: seq<Chunk>)

  type Key = (Id, Digest)

  datatype Snapshot = Snapshot(domain: Id, digests: set<Digest>, expires: nat)

  datatype Store = Store(products: map<Key, Product>, references: set<Key>, snapshots: map<Id, Snapshot>, files: Files)

  const MAX_LENGTH: nat := 0x100_0000_0000
  const MAX_CHUNK: nat := 65536
  const MAX_STAGED: nat := 128
  const TTL: nat := 86_400_000_000_000

  datatype Failure = BadProof | BadStore | LengthMismatch | DigestMismatch | BadRange | Absent | BadOffset | OverQuota

  datatype Reply = Progress(offset: nat, available: bool) | Failed(failure: Failure) | Crashed

  // ---------------------------------------------------------------- files

  /** linkDurable: publish a new name, or verify the bytes already under it. */
  function Linked(files: Files, name: Name, bytes: Bytes): Option<Files> {
    if name !in files then Some(files[name := bytes])
    else if |files[name]| == |bytes| && Sha(files[name]) == Sha(bytes) then Some(files)
    else None
  }

  function ReadChunk(files: Files, name: Name, size: nat): Option<Bytes>
    requires name.ChunkFile?
  {
    if name in files && |files[name]| == size && Sha(files[name]) == name.sum then Some(files[name]) else None
  }

  function NameOf(key: Key, c: Chunk): Name {
    ChunkFile(key.0, key.1, c.offset, c.sum)
  }

  /** The chunks lie end to end from 0 to end, none empty or oversized. */
  predicate Tiles(chunks: seq<Chunk>, end: nat) {
    if chunks == [] then end == 0
    else
      var last := chunks[|chunks| - 1];
      0 < last.size <= MAX_CHUNK && last.size <= end && last.offset == end - last.size
      && Tiles(chunks[..|chunks| - 1], last.offset)
  }

  /** The bytes of the chunks' files in order; None when one is missing or wrong. */
  function Assembled(files: Files, key: Key, chunks: seq<Chunk>): Option<Bytes> {
    if chunks == [] then Some([])
    else
      var last := chunks[|chunks| - 1];
      match Assembled(files, key, chunks[..|chunks| - 1])
      case None => None
      case Some(before) =>
        match ReadChunk(files, NameOf(key, last), last.size)
        case None => None
        case Some(bytes) => Some(before + bytes)
  }

  /** hashChunks: one pass in offset order with a running position. */
  method HashChunks(files: Files, key: Key, chunks: seq<Chunk>, length: nat) returns (r: Option<Bytes>)
    ensures r == if Tiles(chunks, length) then Assembled(files, key, chunks) else None
  {
    var at: nat := 0;
    var bytes: Bytes := [];
    for i := 0 to |chunks|
      invariant Tiles(chunks[..i], at) && at <= length
      invariant Assembled(files, key, chunks[..i]) == Some(bytes)
    {
      var c := chunks[i];
      assert chunks[..i + 1][..i] == chunks[..i];
      if c.offset != at || c.size == 0 || c.size > MAX_CHUNK || c.size > length - at {
        NoTiling(chunks, i, at, length);
        return None;
      }
      var read := ReadChunk(files, NameOf(key, c), c.size);
      if read.None? {
        AssemblyStops(files, key, chunks, i + 1);
        return None;
      }
      bytes := bytes + read.value;
      at := at + c.size;
    }
    assert chunks[..|chunks|] == chunks;
    if at != length {
      TilesEnd(chunks, at, length);
      return None;
    }
    r := Some(bytes);
  }

  lemma TilesEnd(chunks: seq<Chunk>, a: nat, b: nat)
    requires Tiles(chunks, a) && a != b
    ensures !Tiles(chunks, b)
  {
  }

  lemma {:induction false} TilesPrefix(chunks: seq<Chunk>, n: nat, end: nat)
    requires n <= |chunks| && Tiles(chunks, end)
    ensures if n == |chunks| then Tiles(chunks[..n], end)
            else chunks[n].offset <= end && Tiles(chunks[..n], chunks[n].offset)
    ensures n < |chunks| ==> 0 < chunks[n].size <= MAX_CHUNK && chunks[n].offset + chunks[n].size <= end
  {
    if n == |chunks| {
      assert chunks[..n] == chunks;
    } else if n < |chunks| - 1 {
      TilesPrefix(chunks[..|chunks| - 1], n, chunks[|chunks| - 1].offset);
      assert chunks[..|chunks| - 1][..n] == chunks[..n];
    }
  }

  lemma NoTiling(chunks: seq<Chunk>, i: nat, at: nat, length: nat)
    requires i < |chunks| && Tiles(chunks[..i], at) && at <= length
    requires chunks[i].offset != at || chunks[i].size == 0 || chunks[i].size > MAX_CHUNK || chunks[i].size > length - at
    ensures !Tiles(chunks, length)
  {
    if Tiles(chunks, length) {
      TilesPrefix(chunks, i, length);
      if chunks[i].offset != at {
        TilesEnd(chunks[..i], at, chunks[i].offset);
      }
      assert false;
    }
  }

  lemma {:induction false} AssemblyStops(files: Files, key: Key, chunks: seq<Chunk>, n: nat)
    requires n <= |chunks| && Assembled(files, key, chunks[..n]).None?
    ensures Assembled(files, key, chunks).None?
    decreases |chunks| - n
  {
    if n == |chunks| {
      assert chunks[..n] == chunks;
    } else {
      assert chunks[..n + 1][..n] == chunks[..n];
      AssemblyStops(files, key, chunks, n + 1);
    }
  }

  // ---------------------------------------------------------------- the operations

  /** The staged products of a domain that no command refers to. */
  function Unreferenced(s: Store, domain: Id): set<Key> {
    set k | k in s.products && k.0 == domain && k !in s.references
  }

  ghost function Reserved(products: map<Key, Product>, keys: set<Key>): nat
    requires keys <= products.Keys
  {
    if keys == {} then 0
    else
      var k :| k in keys;
      products[k].length + Reserved(products, keys - {k})
  }

  function RowAt(chunks: seq<Chunk>, offset: nat): Option<Chunk> {
    if chunks == [] then None
    else if chunks[|chunks| - 1].offset == offset then Some(chunks[|chunks| - 1])
    else RowAt(chunks[..|chunks| - 1], offset)
  }

  ghost function StartBlob(s: Store, key: Key, length: nat, now: nat): (Store, Reply) {
    if length > MAX_LENGTH || now == 0 then (s, Failed(BadProof))
    else if key in s.products then
      if s.products[key].length != length then (s, Failed(LengthMismatch))
      else (s, Progress(s.products[key].offset, s.products[key].verified))
    else if |Unreferenced(s, key.0)| >= MAX_STAGED
            || Reserved(s.products, Unreferenced(s, key.0)) > MAX_LENGTH - length then
      (s, Failed(OverQuota))
    else (s.(products := s.products[key := Product(length, 0, false, now + TTL, [])]), Progress(0, false))
  }

  /** crash: the process dies after the chunk's file is durable, before the commit. */
  function StageChunk(s: Store, key: Key, offset: nat, chunk: Bytes, crash: bool): (Store, Reply) {
    if chunk == [] || |chunk| > MAX_CHUNK then (s, Failed(BadProof))
    else if key !in s.products then (s, Failed(Absent))
    else
      var p := s.products[key];
      if p.verified || offset > p.length || |chunk| > p.length - offset then (s, Failed(BadRange))
      else if offset < p.offset then
        match RowAt(p.chunks, offset)
        case None => (s, Failed(BadOffset))
        case Some(row) =>
          match ReadChunk(s.files, NameOf(key, row), row.size)
          case None => (s, Failed(BadStore))
          case Some(retained) => if retained == chunk then (s, Progress(p.offset, false)) else (s, Failed(BadOffset))
      else if offset != p.offset then (s, Failed(BadOffset))
      else Extended(s, key, p, chunk, crash)
  }

  /** The chunk at the head: its file first, then its row and the new head. */
  function Extended(s: Store, key: Key, p: Product, chunk: Bytes, crash: bool): (Store, Reply) {
    var row := Chunk(p.offset, Sha(chunk), |chunk|);
    match Linked(s.files, NameOf(key, row), chunk)
    case None => (s, Failed(BadStore))
    case Some(files) =>
      if crash then (s.(files := files), Crashed)
      else
        (s.(files := files,
            products := s.products[key := p.(offset := p.offset + |chunk|, chunks := p.chunks + [row])]),
         Progress(p.offset + |chunk|, false))
  }

  /** Length first, then the digest; a failed end deletes the row and its chunk rows. */
  function FinishBlob(s: Store, key: Key, crash: bool): (Store, Reply) {
    if key !in s.products then (s, Failed(Absent))
    else
      var p := s.products[key];
      if p.verified then (s, Progress(p.length, true))
      else if p.offset != p.length then (s.(products := s.products - {key}), Failed(LengthMismatch))
      else
        match if Tiles(p.chunks, p.length) then Assembled(s.files, key, p.chunks) else None
        case None => (s, Failed(BadStore))
        case Some(bytes) =>
          if Sha(bytes) != key.1 then (s.(products := s.products - {key}), Failed(DigestMismatch))
          else
            match Linked(s.files, ProductFile(key.1), bytes)
            case None => (s, Failed(BadStore))
            case Some(files) =>
              if crash then (s.(files := files), Crashed)
              else (s.(files := files, products := s.products[key := p.(verified := true, chunks := [])]),
                    Progress(p.length, true))
  }

  /** promoteBlobsTx, for one reference: only a verified product can be referred to. */
  function Promote(s: Store, key: Key, length: nat): (Store, Reply) {
    if key !in s.products || !s.products[key].verified || s.products[key].length != length then (s, Failed(Absent))
    else (s.(references := s.references + {key}), Progress(length, true))
  }

  function Pin(s: Store, id: Id, domain: Id, expires: nat): (Store, Reply) {
    if id in s.snapshots then (s, Failed(BadStore))
    else
      var snapshot := Snapshot(domain, set k | k in s.references && k.0 == domain :: k.1, expires);
      (s.(snapshots := s.snapshots[id := snapshot]), Progress(0, true))
  }

  predicate Pinned(snapshots: map<Id, Snapshot>, key: Key) {
    exists id :: id in snapshots && snapshots[id].domain == key.0 && key.1 in snapshots[id].digests
  }

  /** The rows CollectExpired deletes. */
  function Swept(s: Store, now: nat): Store {
    var snapshots := map id | id in s.snapshots && s.snapshots[id].expires > now :: s.snapshots[id];
    s.(snapshots := snapshots,
       products := map k | k in s.products
                           && (s.products[k].expires > now || k in s.references || Pinned(snapshots, k))
                     :: s.products[k])
  }

  /** A committed row of some domain names the file. */
  predicate Kept(products: map<Key, Product>, name: Name) {
    match name
    case ChunkFile(domain, digest, offset, sum) =>
      (domain, digest) in products
      && exists i ::
           0 <= i < |products[(domain, digest)].chunks|
           && NameOf((domain, digest), products[(domain, digest)].chunks[i]) == name
    case ProductFile(digest) => exists k :: k in products && k.1 == digest && products[k].verified
    case TempFile(_) => false
    case ForeignFile(_) => true
  }

  /** reached: the directory entries the removal loop got to before it ended or died. */
  function Collect(s: Store, now: nat, reached: set<Name>): (Store, Reply) {
    if now == 0 then (s, Failed(BadProof))
    else
      var t := Swept(s, now);
      (t.(files := map n | n in t.files && (n !in reached || Kept(t.products, n)) :: t.files[n]), Progress(0, true))
  }

  datatype Op =
    | OpStart(key: Key, length: nat, now: nat)
    | OpStage(key: Key, offset: nat, chunk: Bytes, crash: bool)
    | OpFinish(key: Key, crash: bool)
    | OpPromote(key: Key, length: nat)
    | OpPin(id: Id, domain: Id, expires: nat)
    | OpCollect(now: nat, reached: set<Name>)
    | OpTemp(tag: nat, bytes: Bytes)

  /** One operation. OpTemp is a temporary file left by a process that died writing it. */
  ghost function Apply(s: Store, op: Op): (Store, Reply) {
    match op
    case OpStart(key, length, now) => StartBlob(s, key, length, now)
    case OpStage(key, offset, chunk, crash) => StageChunk(s, key, offset, chunk, crash)
    case OpFinish(key, crash) => FinishBlob(s, key, crash)
    case OpPromote(key, length) => Promote(s, key, length)
    case OpPin(id, domain, expires) => Pin(s, id, domain, expires)
    case OpCollect(now, reached) => Collect(s, now, reached)
    case OpTemp(tag, bytes) => (s.(files := s.files[TempFile(tag) := bytes]), Crashed)
  }

  // ---------------------------------------------------------------- the invariant

  /** A file holds the bytes its name promises. */
  ghost predicate NamesTrue(files: Files) {
    && (forall n | n in files && n.ChunkFile? :: Sha(files[n]) == n.sum)
    && (forall n | n in files && n.ProductFile? :: Sha(files[n]) == n.digest)
  }

  predicate RowBacked(files: Files, key: Key, c: Chunk) {
    NameOf(key, c) in files && |files[NameOf(key, c)]| == c.size && Sha(files[NameOf(key, c)]) == c.sum
  }

  /** Every row names a present file with the right bytes; chunks tile [0, offset). */
  ghost predicate ProductBacked(files: Files, key: Key, p: Product) {
    && p.offset <= p.length <= MAX_LENGTH
    && if p.verified then
         p.offset == p.length && p.chunks == [] && ProductFile(key.1) in files
         && |files[ProductFile(key.1)]| == p.length && Sha(files[ProductFile(key.1)]) == key.1
       else Tiles(p.chunks, p.offset) && forall i | 0 <= i < |p.chunks| :: RowBacked(files, key, p.chunks[i])
  }

  ghost predicate Backed(products: map<Key, Product>, files: Files) {
    forall k | k in products :: ProductBacked(files, k, products[k])
  }

  ghost predicate ReferencesVerified(s: Store) {
    forall k | k in s.references :: k in s.products && s.products[k].verified
  }

  ghost predicate WithinQuota(s: Store, domain: Id) {
    |Unreferenced(s, domain)| <= MAX_STAGED && Reserved(s.products, Unreferenced(s, domain)) <= MAX_LENGTH
  }

  ghost predicate Inv(s: Store) {
    NamesTrue(s.files) && Backed(s.products, s.files) && ReferencesVerified(s)
    && forall domain :: WithinQuota(s, domain)
  }

  // ---------------------------------------------------------------- rows stay backed

  lemma LinkKeepsBacked(products: map<Key, Product>, files: Files, name: Name, bytes: Bytes)
    requires NamesTrue(files) && Backed(products, files) && Linked(files, name, bytes).Some?
    requires (name.ChunkFile? ==> name.sum == Sha(bytes)) && (name.ProductFile? ==> name.digest == Sha(bytes))
    ensures var after := Linked(files, name, bytes).value;
            NamesTrue(after) && Backed(products, after) && name in after && after[name] == bytes
  {
    var after := Linked(files, name, bytes).value;
    forall k | k in products
      ensures ProductBacked(after, k, products[k])
    {
      assert ProductBacked(files, k, products[k]);
      forall i | 0 <= i < |products[k].chunks|
        ensures RowBacked(files, k, products[k].chunks[i]) ==> RowBacked(after, k, products[k].chunks[i])
      {
      }
    }
  }

  lemma TilesAppend(chunks: seq<Chunk>, end: nat, c: Chunk)
    requires Tiles(chunks, end) && c.offset == end && 0 < c.size <= MAX_CHUNK
    ensures Tiles(chunks + [c], end + c.size)
  {
    assert (chunks + [c])[..|chunks|] == chunks;
  }

  /** When every row is backed the chunks assemble, to as many bytes as they tile. */
  lemma {:induction false} BackedAssembles(files: Files, key: Key, chunks: seq<Chunk>, end: nat)
    requires Tiles(chunks, end) && forall i | 0 <= i < |chunks| :: RowBacked(files, key, chunks[i])
    ensures Assembled(files, key, chunks).Some? && |Assembled(files, key, chunks).value| == end
  {
    if chunks != [] {
      BackedAssembles(files, key, chunks[..|chunks| - 1], chunks[|chunks| - 1].offset);
    }
  }

  ghost predicate Sound(s: Store) {
    NamesTrue(s.files) && Backed(s.products, s.files) && ReferencesVerified(s)
  }

  lemma AppendKeepsBacked(files: Files, key: Key, p: Product, row: Chunk)
    requires ProductBacked(files, key, p) && !p.verified && RowBacked(files, key, row)
    requires row.offset == p.offset && 0 < row.size <= MAX_CHUNK && p.offset + row.size <= p.length
    ensures ProductBacked(files, key, p.(offset := p.offset + row.size, chunks := p.chunks + [row]))
  {
    TilesAppend(p.chunks, p.offset, row);
  }

  lemma ExtendKeepsSound(s: Store, key: Key, chunk: Bytes, crash: bool)
    requires Sound(s) && key in s.products && !s.products[key].verified
    requires 0 < |chunk| <= MAX_CHUNK && |chunk| <= s.products[key].length - s.products[key].offset
    ensures Sound(Extended(s, key, s.products[key], chunk, crash).0)
  {
    var p := s.products[key];
    var row := Chunk(p.offset, Sha(chunk), |chunk|);
    if Linked(s.files, NameOf(key, row), chunk).Some? {
      var files := Linked(s.files, NameOf(key, row), chunk).value;
      LinkKeepsBacked(s.products, s.files, NameOf(key, row), chunk);
      if !crash {
        RowKeepsBacked(s.products, files, key, row);
        UpdateKeepsReferences(s, key, p.(offset := p.offset + row.size, chunks := p.chunks + [row]), files);
      }
    }
  }

  lemma RowKeepsBacked(products: map<Key, Product>, files: Files, key: Key, row: Chunk)
    requires Backed(products, files) && key in products && !products[key].verified && RowBacked(files, key, row)
    requires row.offset == products[key].offset && 0 < row.size <= MAX_CHUNK
             && products[key].offset + row.size <= products[key].length
    ensures var p := products[key];
            Backed(products[key := p.(offset := p.offset + row.size, chunks := p.chunks + [row])], files)
  {
    var p := products[key];
    assert ProductBacked(files, key, p);
    AppendKeepsBacked(files, key, p, row);
    UpdateKeepsBacked(products, files, key, p.(offset := p.offset + row.size, chunks := p.chunks + [row]));
  }

  lemma UpdateKeepsReferences(s: Store, key: Key, p: Product, files: Files)
    requires ReferencesVerified(s) && key in s.products && !s.products[key].verified
    ensures ReferencesVerified(s.(files := files, products := s.products[key := p]))
  {
  }

  lemma UpdateKeepsBacked(products: map<Key, Product>, files: Files, key: Key, p: Product)
    requires Backed(products, files) && ProductBacked(files, key, p)
    ensures Backed(products[key := p], files)
  {
  }

  lemma StageKeepsSound(s: Store, key: Key, offset: nat, chunk: Bytes, crash: bool)
    requires Sound(s)
    ensures Sound(StageChunk(s, key, offset, chunk, crash).0)
  {
    if StageChunk(s, key, offset, chunk, crash).0 != s {
      ExtendKeepsSound(s, key, chunk, crash);
    }
  }

  lemma FinishKeepsSound(s: Store, key: Key, crash: bool)
    requires Sound(s)
    ensures Sound(FinishBlob(s, key, crash).0)
  {
    if key in s.products && !s.products[key].verified && s.products[key].offset == s.products[key].length {
      var p := s.products[key];
      assert ProductBacked(s.files, key, p);
      BackedAssembles(s.files, key, p.chunks, p.offset);
      var bytes := Assembled(s.files, key, p.chunks).value;
      if Sha(bytes) == key.1 && Linked(s.files, ProductFile(key.1), bytes).Some? {
        LinkKeepsBacked(s.products, s.files, ProductFile(key.1), bytes);
      }
    }
  }

  lemma CollectKeepsSound(s: Store, now: nat, reached: set<Name>)
    requires Sound(s)
    ensures Sound(Collect(s, now, reached).0)
  {
    if now == 0 {
      return;
    }
    var t := Collect(s, now, reached).0;
    forall k | k in t.products
      ensures ProductBacked(t.files, k, t.products[k])
    {
      var p := t.products[k];
      assert ProductBacked(s.files, k, p);
      forall i | 0 <= i < |p.chunks|
        ensures RowBacked(s.files, k, p.chunks[i]) ==> RowBacked(t.files, k, p.chunks[i])
      {
        assert Swept(s, now).products[k] == p;
        assert Kept(Swept(s, now).products, NameOf(k, p.chunks[i]));
      }
      assert p.verified ==> Kept(t.products, ProductFile(k.1));
    }
  }

  lemma TempKeepsBacked(products: map<Key, Product>, files: Files, tag: nat, bytes: Bytes)
    requires NamesTrue(files) && Backed(products, files)
    ensures NamesTrue(files[TempFile(tag) := bytes]) && Backed(products, files[TempFile(tag) := bytes])
  {
    var after := files[TempFile(tag) := bytes];
    forall k | k in products
      ensures ProductBacked(after, k, products[k])
    {
      assert ProductBacked(files, k, products[k]);
      assert forall i | 0 <= i < |products[k].chunks| ::
               RowBacked(files, k, products[k].chunks[i]) ==> RowBacked(after, k, products[k].chunks[i]);
    }
  }

  /** Whatever happens, crashes included, no committed row loses its bytes. */
  lemma ApplyKeepsSound(s: Store, op: Op)
    requires Sound(s)
    ensures Sound(Apply(s, op).0)
  {
    match op
    case OpStart(key, length, now) =>
    case OpStage(key, offset, chunk, crash) => StageKeepsSound(s, key, offset, chunk, crash);
    case OpFinish(key, crash) => FinishKeepsSound(s, key, crash);
    case OpPromote(key, length) =>
    case OpPin(id, domain, expires) =>
    case OpCollect(now, reached) => CollectKeepsSound(s, now, reached);
    case OpTemp(tag, bytes) => TempKeepsBacked(s.products, s.files, tag, bytes);
  }

  // ---------------------------------------------------------------- the quota

  lemma {:induction false} ReservedRemove(products: map<Key, Product>, keys: set<Key>, k: Key)
    requires keys <= products.Keys && k in keys
    ensures Reserved(products, keys) == products[k].length + Reserved(products, keys - {k})
    decreases |keys|
  {
    var first :| first in keys
      && Reserved(products, keys) == products[first].length + Reserved(products, keys - {first});
    if first != k {
      ReservedRemove(products, keys - {first}, k);
      ReservedRemove(products, keys - {k}, first);
      assert keys - {first} - {k} == keys - {k} - {first};
    }
  }

  /** Fewer keys with the same lengths reserve no more. */
  lemma {:induction false} ReservedShrinks(before: map<Key, Product>, after: map<Key, Product>, all: set<Key>,
                                           some: set<Key>)
    requires some <= all <= before.Keys && some <= after.Keys
             && forall k | k in some :: after[k].length == before[k].length
    ensures Reserved(after, some) <= Reserved(before, all)
    decreases |some|
  {
    if some != {} {
      var k :| k in some;
      ReservedRemove(before, all, k);
      ReservedRemove(after, some, k);
      ReservedShrinks(before, after, all - {k}, some - {k});
    }
  }

  /** An operation that adds no unreferenced product keeps every domain within quota. */
  lemma QuotaShrinks(s: Store, t: Store, domain: Id)
    requires WithinQuota(s, domain) && Unreferenced(t, domain) <= Unreferenced(s, domain)
    requires forall k | k in Unreferenced(t, domain) :: t.products[k].length == s.products[k].length
    ensures WithinQuota(t, domain)
  {
    ReservedShrinks(s.products, t.products, Unreferenced(s, domain), Unreferenced(t, domain));
    SubsetSize(Unreferenced(t, domain), Unreferenced(s, domain));
  }

  lemma {:induction false} SubsetSize(a: set<Key>, b: set<Key>)
    requires a <= b
    ensures |a| <= |b|
    decreases |a|
  {
    if a != {} {
      var k :| k in a;
      SubsetSize(a - {k}, b - {k});
    }
  }

  lemma StartKeepsQuota(s: Store, key: Key, length: nat, now: nat, domain: Id)
    requires WithinQuota(s, domain)
    ensures WithinQuota(StartBlob(s, key, length, now).0, domain)
  {
    var t := StartBlob(s, key, length, now).0;
    if t == s {
      return;
    }
    var keys := Unreferenced(s, domain);
    ReservedShrinks(s.products, t.products, keys, keys);
    if domain == key.0 && key !in s.references {
      assert Unreferenced(t, domain) == keys + {key};
      ReservedRemove(t.products, keys + {key}, key);
      assert keys + {key} - {key} == keys;
    } else {
      assert Unreferenced(t, domain) == keys;
    }
  }

  lemma ApplyKeepsQuota(s: Store, op: Op, domain: Id)
    requires WithinQuota(s, domain)
    ensures WithinQuota(Apply(s, op).0, domain)
  {
    if op.OpStart? {
      StartKeepsQuota(s, op.key, op.length, op.now, domain);
    } else {
      AddsNone(s, op, domain);
      QuotaShrinks(s, Apply(s, op).0, domain);
    }
  }

  lemma AddsNone(s: Store, op: Op, domain: Id)
    requires !op.OpStart?
    ensures var t := Apply(s, op).0;
            && Unreferenced(t, domain) <= Unreferenced(s, domain)
            && forall k | k in Unreferenced(t, domain) :: t.products[k].length == s.products[k].length
  {
  }

  // ---------------------------------------------------------------- runs

  ghost predicate Next(s: Store, t: Store) {
    exists op :: t == Apply(s, op).0
  }

  ghost predicate IsRun(states: seq<Store>) {
    && |states| > 0 && states[0] == Store(map[], {}, map[], map[])
    && forall i | 0 <= i < |states| - 1 :: StepAt(states, i)
  }

  ghost predicate StepAt(states: seq<Store>, i: nat)
    requires i < |states| - 1
  {
    Next(states[i], states[i + 1])
  }

  lemma ApplyKeepsInv(s: Store, op: Op)
    requires Inv(s)
    ensures Inv(Apply(s, op).0)
  {
    ApplyKeepsSound(s, op);
    forall domain
      ensures WithinQuota(Apply(s, op).0, domain)
    {
      ApplyKeepsQuota(s, op, domain);
    }
  }

  /** In every state of every run, whatever crashed on the way: each chunk row and each
      verified product names a present file with the right bytes, chunks tile exactly
      the staged prefix, and every domain is within its quota. */
  lemma {:induction false} EveryStateIsBacked(states: seq<Store>, n: nat)
    requires IsRun(states) && n < |states|
    ensures Inv(states[n])
  {
    if n == 0 {
      assert forall domain :: Unreferenced(states[0], domain) == {};
    } else {
      EveryStateIsBacked(states, n - 1);
      assert StepAt(states, n - 1);
      var op :| states[n] == Apply(states[n - 1], op).0;
      ApplyKeepsInv(states[n - 1], op);
    }
  }

  // ---------------------------------------------------------------- what the staged bytes are

  /** The bytes received so far for an unverified product. */
  function Staged(s: Store, key: Key): Bytes
    requires key in s.products
  {
    var bytes := Assembled(s.files, key, s.products[key].chunks);
    if bytes.Some? then bytes.value else []
  }

  lemma {:induction false} AssembledFrame(before: Files, after: Files, key: Key, chunks: seq<Chunk>)
    requires forall i | 0 <= i < |chunks| :: RowBacked(before, key, chunks[i]) && RowBacked(after, key, chunks[i])
    ensures Assembled(after, key, chunks) == Assembled(before, key, chunks)
  {
    if chunks != [] {
      AssembledFrame(before, after, key, chunks[..|chunks| - 1]);
    }
  }

  /** A chunk accepted at the head extends the staged bytes by exactly itself. */
  lemma StageAppendsBytes(s: Store, key: Key, chunk: Bytes)
    requires Sound(s) && key in s.products && 0 < |chunk| <= MAX_CHUNK && !s.products[key].verified
    requires |chunk| <= s.products[key].length - s.products[key].offset
    ensures var r := StageChunk(s, key, s.products[key].offset, chunk, false);
            && r.1 == Progress(s.products[key].offset + |chunk|, false)
            && key in r.0.products && Staged(r.0, key) == Staged(s, key) + chunk
  {
    var p := s.products[key];
    var row := Chunk(p.offset, Sha(chunk), |chunk|);
    assert ProductBacked(s.files, key, p);
    assert Linked(s.files, NameOf(key, row), chunk).Some?;
    LinkKeepsBacked(s.products, s.files, NameOf(key, row), chunk);
    var files := Linked(s.files, NameOf(key, row), chunk).value;
    assert ProductBacked(files, key, p) && RowBacked(files, key, row);
    AssembledFrame(s.files, files, key, p.chunks);
    BackedAssembles(s.files, key, p.chunks, p.offset);
    assert (p.chunks + [row])[..|p.chunks|] == p.chunks;
  }

  /** Each row's file is its slice of the staged bytes. */
  lemma {:induction false} SliceOfStaged(files: Files, key: Key, chunks: seq<Chunk>, end: nat, i: nat)
    requires Tiles(chunks, end) && (forall k | 0 <= k < |chunks| :: RowBacked(files, key, chunks[k])) && i < |chunks|
    ensures Assembled(files, key, chunks).Some?
            && chunks[i].offset + chunks[i].size <= |Assembled(files, key, chunks).value|
    ensures NameOf(key, chunks[i]) in files
    ensures Assembled(files, key, chunks).value[chunks[i].offset..chunks[i].offset + chunks[i].size]
            == files[NameOf(key, chunks[i])]
  {
    var last := chunks[|chunks| - 1];
    BackedAssembles(files, key, chunks, end);
    BackedAssembles(files, key, chunks[..|chunks| - 1], last.offset);
    var before := Assembled(files, key, chunks[..|chunks| - 1]).value;
    var all := Assembled(files, key, chunks).value;
    assert all == before + files[NameOf(key, last)];
    if i < |chunks| - 1 {
      SliceOfStaged(files, key, chunks[..|chunks| - 1], last.offset, i);
      assert all[chunks[i].offset..chunks[i].offset + chunks[i].size]
        == before[chunks[i].offset..chunks[i].offset + chunks[i].size];
    }
  }

  lemma {:induction false} RowFound(chunks: seq<Chunk>, offset: nat)
    ensures RowAt(chunks, offset).Some?
            ==> exists i :: 0 <= i < |chunks| && chunks[i] == RowAt(chunks, offset).value && chunks[i].offset == offset
  {
    if chunks != [] && chunks[|chunks| - 1].offset != offset {
      RowFound(chunks[..|chunks| - 1], offset);
      if RowAt(chunks, offset).Some? {
        var i :| 0 <= i < |chunks| - 1 && chunks[..|chunks| - 1][i] == RowAt(chunks, offset).value
          && chunks[..|chunks| - 1][i].offset == offset;
        assert chunks[i] == RowAt(chunks, offset).value;
      }
    }
  }

  /** A retry below the head changes nothing and succeeds exactly when a row starts at
      its offset and its bytes are the ones already staged there. */
  lemma RetryIsExact(s: Store, key: Key, offset: nat, chunk: Bytes, crash: bool)
    requires Sound(s) && key in s.products && 0 < |chunk| <= MAX_CHUNK && !s.products[key].verified
    requires offset < s.products[key].offset && |chunk| <= s.products[key].length - offset
    ensures var r := StageChunk(s, key, offset, chunk, crash);
            var row := RowAt(s.products[key].chunks, offset);
            && r.0 == s
            && (r.1 == Progress(s.products[key].offset, false) <==>
                  row.Some? && offset + row.value.size <= |Staged(s, key)|
                  && chunk == Staged(s, key)[offset..offset + row.value.size])
            && (r.1 != Progress(s.products[key].offset, false) ==> r.1 == Failed(BadOffset))
  {
    var p := s.products[key];
    assert ProductBacked(s.files, key, p);
    RowFound(p.chunks, offset);
    if RowAt(p.chunks, offset).Some? {
      var i :| 0 <= i < |p.chunks| && p.chunks[i] == RowAt(p.chunks, offset).value && p.chunks[i].offset == offset;
      SliceOfStaged(s.files, key, p.chunks, p.offset, i);
      assert RowBacked(s.files, key, p.chunks[i]);
    }
  }

  /** Finishing a fully staged product verifies it exactly when the staged bytes have
      the declared digest; the product file then holds those bytes. Otherwise the row
      goes, and no file with it. */
  lemma FinishIsExact(s: Store, key: Key)
    requires Sound(s) && key in s.products && !s.products[key].verified
             && s.products[key].offset == s.products[key].length
    ensures var r := FinishBlob(s, key, false);
            && |Staged(s, key)| == s.products[key].length
            && (Sha(Staged(s, key)) == key.1 ==>
                  && r.1 == Progress(s.products[key].length, true) && key in r.0.products && r.0.products[key].verified
                  && ProductFile(key.1) in r.0.files && r.0.files[ProductFile(key.1)] == Staged(s, key))
            && (Sha(Staged(s, key)) != key.1 ==>
                  r.1 == Failed(DigestMismatch) && r.0 == s.(products := s.products - {key}))
  {
    var p := s.products[key];
    assert ProductBacked(s.files, key, p);
    BackedAssembles(s.files, key, p.chunks, p.offset);
  }

  /** In a sound store every named file is there. */
  lemma NamedIsPresent(s: Store, name: Name)
    requires Sound(s) && Kept(s.products, name) && !name.ForeignFile?
    ensures name in s.files
  {
    match name
    case ChunkFile(domain, digest, offset, sum) =>
      var key := (domain, digest);
      assert ProductBacked(s.files, key, s.products[key]);
      var i :| 0 <= i < |s.products[key].chunks| && NameOf(key, s.products[key].chunks[i]) == name;
      assert RowBacked(s.files, key, s.products[key].chunks[i]);
    case ProductFile(digest) =>
      var k :| k in s.products && k.1 == digest && s.products[k].verified;
      assert ProductBacked(s.files, k, s.products[k]);
  }

  /** After a full collection in any state of any run the directory holds, besides foreign
      files, exactly the files some row names, bytes intact; exactly the expired,
      unreferenced and unpinned products are gone; and the state is sound. */
  lemma CollectIsPrecise(states: seq<Store>, n: nat, now: nat)
    requires IsRun(states) && n < |states| && now > 0
    ensures var s := states[n];
            var t := Collect(s, now, s.files.Keys).0;
            && Inv(t)
            && (forall x: Name | !x.ForeignFile? :: x in t.files <==> Kept(t.products, x))
            && (forall x | x in s.files && x.ForeignFile? :: x in t.files)
            && (forall x | x in t.files :: x in s.files && t.files[x] == s.files[x])
            && (forall k | k in s.products ::
                  k !in t.products <==> s.products[k].expires <= now && k !in s.references && !Pinned(t.snapshots, k))
            && (forall k | k in t.products :: k in s.products && t.products[k] == s.products[k])
  {
    var s := states[n];
    var t := Collect(s, now, s.files.Keys).0;
    EveryStateIsBacked(states, n);
    ApplyKeepsInv(s, OpCollect(now, s.files.Keys));
    assert Apply(s, OpCollect(now, s.files.Keys)).0 == t;
    forall x: Name | !x.ForeignFile? && Kept(t.products, x)
      ensures x in t.files
    {
      NamedIsPresent(t, x);
    }
  }

  // ---------------------------------------------------------------- exactly what is accepted

  /** The store with one more product row. */
  function WithProduct(s: Store, key: Key, length: nat, now: nat): Store {
    s.(products := s.products[key := Product(length, 0, false, now + TTL, [])])
  }

  /** A new product is started exactly when its domain stays within its quota with it. */
  lemma StartExactly(s: Store, key: Key, length: nat, now: nat)
    requires Inv(s) && key !in s.products
    ensures StartBlob(s, key, length, now).1.Progress? <==>
              length <= MAX_LENGTH && now > 0 && WithinQuota(WithProduct(s, key, length, now), key.0)
    ensures StartBlob(s, key, length, now).0
            == if StartBlob(s, key, length, now).1.Progress? then WithProduct(s, key, length, now) else s
  {
    var t, keys := WithProduct(s, key, length, now), Unreferenced(s, key.0);
    assert key !in s.references;
    assert Unreferenced(t, key.0) == keys + {key};
    ReservedRemove(t.products, keys + {key}, key);
    assert keys + {key} - {key} == keys;
    ReservedShrinks(s.products, t.products, keys, keys);
    ReservedShrinks(t.products, s.products, keys, keys);
    assert WithinQuota(s, key.0);
  }

  /** A chunk is taken at the head exactly when it fits the rest of an unverified product;
      in a sound store no file is in its way. */
  lemma StageExactly(s: Store, key: Key, offset: nat, chunk: Bytes)
    requires Sound(s) && key in s.products && offset == s.products[key].offset
    ensures StageChunk(s, key, offset, chunk, false).1.Progress? <==>
              0 < |chunk| <= MAX_CHUNK && !s.products[key].verified && offset + |chunk| <= s.products[key].length
    ensures StageChunk(s, key, offset, chunk, false).1.Progress? ==>
              StageChunk(s, key, offset, chunk, false).1 == Progress(offset + |chunk|, false)
  {
    assert ProductBacked(s.files, key, s.products[key]);
  }

  /** A product can be referred to exactly when it is verified at that length, and then
      its bytes are there and have its digest. */
  lemma PromoteExactly(s: Store, key: Key, length: nat)
    requires Sound(s)
    ensures Promote(s, key, length).1.Progress? <==>
              key in s.products && s.products[key].verified && s.products[key].length == length
    ensures Promote(s, key, length).1.Progress? ==>
              && Promote(s, key, length).0.references == s.references + {key}
              && ProductFile(key.1) in s.files && |s.files[ProductFile(key.1)]| == length
              && Sha(s.files[ProductFile(key.1)]) == key.1
  {
    if key in s.products {
      assert ProductBacked(s.files, key, s.products[key]);
    }
  }

  /** A snapshot pins exactly the products its domain refers to at that moment, all of them
      verified. */
  lemma PinExactly(s: Store, id: Id, domain: Id, expires: nat, key: Key)
    requires Sound(s) && id !in s.snapshots
    ensures var t := Pin(s, id, domain, expires).0;
            && (Pinned(t.snapshots, key) <==> Pinned(s.snapshots, key) || (key.0 == domain && key in s.references))
            && (key.0 == domain && key in s.references ==> key in t.products && t.products[key].verified)
            && t == s.(snapshots := t.snapshots) && t.snapshots.Keys == s.snapshots.Keys + {id}
            && t.snapshots[id].expires == expires
  {
    var t := Pin(s, id, domain, expires).0;
    assert forall d :: d in t.snapshots[id].digests <==> (domain, d) in s.references;
    if Pinned(s.snapshots, key) {
      var x :| x in s.snapshots && s.snapshots[x].domain == key.0 && key.1 in s.snapshots[x].digests;
      assert x in t.snapshots && t.snapshots[x] == s.snapshots[x];
    }
    if key.0 == domain && key in s.references {
      assert key == (domain, key.1);
      assert id in t.snapshots && key.1 in t.snapshots[id].digests;
    }
  }

  // ---------------------------------------------------------------- the reopen check

  function ProductVerifies(files: Files, digest: Digest, length: nat): bool {
    ProductFile(digest) in files && |files[ProductFile(digest)]| == length && Sha(files[ProductFile(digest)]) == digest
  }

  ghost predicate ProductChecks(files: Files, key: Key, p: Product) {
    && p.offset <= p.length
    && if p.verified then p.offset == p.length && ProductVerifies(files, key.1, p.length) && p.chunks == []
       else Tiles(p.chunks, p.offset) && Assembled(files, key, p.chunks).Some?
  }

  method CheckBlobFiles(products: map<Key, Product>, files: Files) returns (ok: bool)
    ensures ok <==> forall k | k in products :: ProductChecks(files, k, products[k])
  {
    var left := products.Keys;
    while left != {}
      invariant left <= products.Keys
      invariant forall k | k in products && k !in left :: ProductChecks(files, k, products[k])
      decreases |left|
    {
      var k :| k in left;
      var p := products[k];
      left := left - {k};
      if p.offset > p.length {
        assert !ProductChecks(files, k, p);
        return false;
      }
      if p.verified {
        if p.offset != p.length || !ProductVerifies(files, k.1, p.length) || p.chunks != [] {
          assert !ProductChecks(files, k, p);
          return false;
        }
      } else {
        var bytes := HashChunks(files, k, p.chunks, p.offset);
        if bytes.None? {
          assert !ProductChecks(files, k, p);
          return false;
        }
      }
    }
    ok := true;
  }

  /** The reopen check accepts every reachable state. */
  lemma ReopenAccepts(s: Store, k: Key)
    requires Sound(s) && k in s.products
    ensures ProductChecks(s.files, k, s.products[k])
  {
    assert ProductBacked(s.files, k, s.products[k]);
    if !s.products[k].verified {
      BackedAssembles(s.files, k, s.products[k].chunks, s.products[k].offset);
    }
  }

  // ---------------------------------------------------------------- the store in place

  class BlobStore {
    var products: map<Key, Product>
    var references: set<Key>
    var snapshots: map<Id, Snapshot>
    var files: Files

    ghost function View(): Store
      reads this
    {
      Store(products, references, snapshots, files)
    }

    constructor ()
      ensures View() == Store(map[], {}, map[], map[])
    {
      products, references, snapshots, files := map[], {}, map[], map[];
    }

    method ReservedBytes(keys: set<Key>) returns (n: nat)
      requires keys <= products.Keys
      ensures n == Reserved(products, keys)
    {
      n := 0;
      var left := keys;
      while left != {}
        invariant left <= keys && n + Reserved(products, left) == Reserved(products, keys)
        decreases |left|
      {
        var k :| k in left;
        ReservedRemove(products, left, k);
        n := n + products[k].length;
        left := left - {k};
      }
    }

    method Start(key: Key, length: nat, now: nat) returns (reply: Reply)
      modifies this`products
      ensures (View(), reply) == StartBlob(old(View()), key, length, now)
    {
      if length > MAX_LENGTH || now == 0 {
        return Failed(BadProof);
      }
      if key in products {
        return if products[key].length != length then Failed(LengthMismatch)
          else Progress(products[key].offset, products[key].verified);
      }
      var keys := Unreferenced(Store(products, references, snapshots, files), key.0);
      var reserved := ReservedBytes(keys);
      if |keys| >= MAX_STAGED || reserved > MAX_LENGTH - length {
        return Failed(OverQuota);
      }
      products := products[key := Product(length, 0, false, now + TTL, [])];
      reply := Progress(0, false);
    }

    /** Publish a file; nothing is ever replaced. */
    method LinkDurable(name: Name, bytes: Bytes) returns (ok: bool)
      modifies this`files
      ensures ok <==> Linked(old(files), name, bytes).Some?
      ensures files == if ok then Linked(old(files), name, bytes).value else old(files)
    {
      if name in files {
        return |files[name]| == |bytes| && Sha(files[name]) == Sha(bytes);
      }
      files := files[name := bytes];
      ok := true;
    }

    method Stage(key: Key, offset: nat, chunk: Bytes, crash: bool) returns (reply: Reply)
      modifies this`products, this`files
      ensures (View(), reply) == StageChunk(old(View()), key, offset, chunk, crash)
    {
      if chunk == [] || |chunk| > MAX_CHUNK {
        return Failed(BadProof);
      }
      if key !in products {
        return Failed(Absent);
      }
      var p := products[key];
      if p.verified || offset > p.length || |chunk| > p.length - offset {
        return Failed(BadRange);
      }
      if offset < p.offset {
        var row := RowAt(p.chunks, offset);
        if row.None? {
          return Failed(BadOffset);
        }
        var retained := ReadChunk(files, NameOf(key, row.value), row.value.size);
        if retained.None? {
          return Failed(BadStore);
        }
        return if retained.value == chunk then Progress(p.offset, false) else Failed(BadOffset);
      }
      if offset != p.offset {
        return Failed(BadOffset);
      }
      var row := Chunk(offset, Sha(chunk), |chunk|);
      var linked := LinkDurable(NameOf(key, row), chunk);
      if !linked {
        return Failed(BadStore);
      }
      if crash {
        return Crashed;
      }
      products := products[key := p.(offset := offset + |chunk|, chunks := p.chunks + [row])];
      reply := Progress(offset + |chunk|, false);
    }

    method Finish(key: Key, crash: bool) returns (reply: Reply)
      modifies this`products, this`files
      ensures (View(), reply) == FinishBlob(old(View()), key, crash)
    {
      if key !in products {
        return Failed(Absent);
      }
      var p := products[key];
      if p.verified {
        return Progress(p.length, true);
      }
      if p.offset != p.length {
        products := products - {key};
        return Failed(LengthMismatch);
      }
      var bytes := HashChunks(files, key, p.chunks, p.length);
      if bytes.None? {
        return Failed(BadStore);
      }
      if Sha(bytes.value) != key.1 {
        products := products - {key};
        return Failed(DigestMismatch);
      }
      var linked := LinkDurable(ProductFile(key.1), bytes.value);
      if !linked {
        return Failed(BadStore);
      }
      if crash {
        return Crashed;
      }
      products := products[key := p.(verified := true, chunks := [])];
      reply := Progress(p.length, true);
    }

    /** Rows first, then every directory entry no row names. */
    method CollectExpired(now: nat) returns (reply: Reply)
      modifies this`products, this`snapshots, this`files
      ensures (View(), reply) == Collect(old(View()), now, old(files.Keys))
    {
      if now == 0 {
        return Failed(BadProof);
      }
      var swept := Swept(Store(products, references, snapshots, files), now);
      products, snapshots := swept.products, swept.snapshots;
      var left := files.Keys;
      while left != {}
        invariant left <= files.Keys <= old(files.Keys)
        invariant forall n | n in files :: files[n] == old(files)[n] && (n in left || Kept(products, n))
        invariant forall n | n in old(files) :: n in files || !Kept(products, n)
        invariant products == swept.products && snapshots == swept.snapshots
        decreases |left|
      {
        var n :| n in left;
        left := left - {n};
        if !Kept(products, n) {
          files := files - {n};
        }
      }
      ghost var collected := Collect(old(View()), now, old(files.Keys)).0;
      assert files == collected.files;
      reply := Progress(0, true);
    }
  }
}
