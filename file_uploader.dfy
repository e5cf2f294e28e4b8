/**
 * The upload panel's uploadFile: a file under 5 MiB goes up in one
 * request; a larger one is cut into 5 MiB chunks, sent as the parts of a
 * multipart upload numbered from 1, and completed with the list of
 * parts. Each step rewrites the progress entries of that file.
 *
 * The requests go to the route handlers of R2Routes on one store; a
 * failed request throws, as the API client does, with the reply's
 * message or 'Request failed'.
 */
module FileUploader {
  import opened Wrappers
  import opened JsString
  import opened Bucket
  import opened R2Routes

  const ChunkSize: nat := 5 * 1024 * 1024

  // ---------------------------------------------------------------------
  // Chunks

  /** `Math.ceil(size / CHUNK_SIZE)`. */
  function ChunkCount(size: nat): nat {
    (size + ChunkSize - 1) / ChunkSize
  }

  function ChunkStart(i: nat): nat {
    i * ChunkSize
  }

  /** `Math.min(start + CHUNK_SIZE, file.size)`. */
  function ChunkEnd(i: nat, size: nat): nat {
    if ChunkStart(i) + ChunkSize <= size then ChunkStart(i) + ChunkSize else size
  }

  /** `file.slice(start, end)` for chunk `i`. */
  function Chunk(bytes: Bytes, i: nat): Bytes
    requires i < ChunkCount(|bytes|)
  {
    ChunkCountBounds(|bytes|);
    bytes[ChunkStart(i)..ChunkEnd(i, |bytes|)]
  }

  /** The chunks `0..n` in order, concatenated. */
  function Chunks(bytes: Bytes, n: nat): Bytes
    requires n <= ChunkCount(|bytes|)
  {
    if n == 0 then [] else Chunks(bytes, n - 1) + Chunk(bytes, n - 1)
  }

  /** The count is the least number of whole chunks that covers the file. */
  lemma ChunkCountBounds(size: nat)
    ensures ChunkCount(size) * ChunkSize >= size
    ensures size > 0 ==> (ChunkCount(size) - 1) * ChunkSize < size
    ensures size == 0 <==> ChunkCount(size) == 0
  {
    var n := ChunkCount(size);
    var c := ChunkSize;
    assert (size + c - 1) == n * c + (size + c - 1) % c;
    assert (n + 1) * c > size + c - 1;
  }

  /** Every chunk lies within the file; all but the last are full, the last is not empty. */
  lemma ChunkShape(size: nat, i: nat)
    requires i < ChunkCount(size)
    ensures ChunkStart(i) < ChunkEnd(i, size) <= size
    ensures i + 1 < ChunkCount(size) ==> ChunkEnd(i, size) == ChunkStart(i + 1) && ChunkEnd(i, size) - ChunkStart(i) == ChunkSize
    ensures i + 1 == ChunkCount(size) ==> ChunkEnd(i, size) == size
  {
    ChunkCountBounds(size);
    var n := ChunkCount(size);
    assert i * ChunkSize <= (n - 1) * ChunkSize;
    if i + 1 < n {
      assert (i + 1) * ChunkSize <= (n - 1) * ChunkSize;
    } else {
      assert (i + 1) * ChunkSize == n * ChunkSize;
    }
  }

  /** Chunks `0..n` are exactly the file's first bytes up to the end of chunk `n - 1`. */
  lemma {:induction false} ChunksArePrefix(bytes: Bytes, n: nat)
    requires 0 < n <= ChunkCount(|bytes|)
    ensures Chunks(bytes, n) == bytes[..ChunkEnd(n - 1, |bytes|)]
    decreases n
  {
    ChunkShape(|bytes|, n - 1);
    if n > 1 {
      ChunksArePrefix(bytes, n - 1);
      ChunkShape(|bytes|, n - 2);
      var mid := ChunkEnd(n - 2, |bytes|);
      assert mid == ChunkStart(n - 1);
      assert bytes[..mid] + bytes[mid..ChunkEnd(n - 1, |bytes|)] == bytes[..ChunkEnd(n - 1, |bytes|)];
    }
  }

  /** All the chunks together are the whole file. */
  lemma ChunksCoverFile(bytes: Bytes)
    ensures Chunks(bytes, ChunkCount(|bytes|)) == bytes
  {
    var n := ChunkCount(|bytes|);
    ChunkCountBounds(|bytes|);
    if n > 0 {
      ChunksArePrefix(bytes, n);
      ChunkShape(|bytes|, n - 1);
    }
  }

  /** The chunk count of a multipart file is at least one. */
  lemma MultipartHasChunks(size: nat)
    requires size >= ChunkSize
    ensures ChunkCount(size) >= 1
  {
    ChunkCountBounds(size);
  }

  // ---------------------------------------------------------------------
  // Progress

  /** `Math.round((done / total) * 90) + 5`, in exact arithmetic. */
  function Progress(done: nat, total: nat): nat
    requires total > 0
  {
    (180 * done + total) / (2 * total) + 5
  }

  lemma ProgressBounds(done: nat, total: nat)
    requires 0 < total && done <= total
    ensures 5 <= Progress(done, total) <= 95
    ensures done == total ==> Progress(done, total) == 95
  {
    var d := 2 * total;
    assert 180 * done + total <= 180 * total + total;
    assert 180 * total + total == 90 * d + total;
    DivOfRemainder(90, total, d);
    DivMonotone(180 * done + total, 180 * total + total, d);
    DivOfRemainder(0, total, d);
    DivMonotone(total, 180 * done + total, d);
  }

  lemma DivOfRemainder(q: nat, r: nat, d: nat)
    requires r < d
    ensures (q * d + r) / d == q
  {
    var x := q * d + r;
    var k, m := x / d, x % d;
    assert x == k * d + m;
    if k > q {
      MulMonotone(k, q + 1, d);
    } else if k < q {
      MulMonotone(q, k + 1, d);
    }
  }

  lemma DivMonotone(a: nat, b: nat, d: nat)
    requires a <= b && d > 0
    ensures a / d <= b / d
  {
    var qa, qb := a / d, b / d;
    assert qa * d <= a;
    assert b < (qb + 1) * d;
    MulMonotone(qa, qb + 1, d);
  }

  lemma MulMonotone(x: int, y: int, d: nat)
    ensures x >= y ==> x * d >= y * d
  {
  }

  /** Progress never goes back as parts complete. */
  lemma ProgressMonotone(done: nat, later: nat, total: nat)
    requires 0 < total && done <= later
    ensures Progress(done, total) <= Progress(later, total)
  {
    DivMonotone(180 * done + total, 180 * later + total, 2 * total);
  }

  // ---------------------------------------------------------------------
  // Parts on the server

  /** Part `j + 1` of the session holds chunk `j` with the etag listed for it. */
  predicate ChunkParts(session: Session, bytes: Bytes, parts: seq<UploadedPart>) {
    && |parts| <= ChunkCount(|bytes|)
    && forall j :: 0 <= j < |parts| ==>
         parts[j].partNumber == j + 1 && j + 1 in session.parts && session.parts[j + 1].body == Chunk(bytes, j) &&
         session.parts[j + 1].etag == parts[j].etag
  }

  /** The parts sent so far, to the session `uploadId` opened for `key`. */
  ghost predicate PartsSent(sessions: map<string, Session>, uploadId: string, key: string, http: HttpMetadata,
                            bytes: Bytes, parts: seq<UploadedPart>)
  {
    && uploadId in sessions && sessions[uploadId].key == key && sessions[uploadId].httpMetadata == http
    && ChunkParts(sessions[uploadId], bytes, parts)
  }

  /** Storing the next chunk as the next part extends the list. */
  lemma PartsSentStep(sessions: map<string, Session>, uploadId: string, key: string, http: HttpMetadata,
                      bytes: Bytes, parts: seq<UploadedPart>, etag: string)
    requires PartsSent(sessions, uploadId, key, http, bytes, parts)
    requires |parts| < ChunkCount(|bytes|)
    ensures PartsSent(AddPart(sessions, uploadId, |parts| + 1, Chunk(bytes, |parts|), etag), uploadId, key, http,
                      bytes, parts + [UploadedPart(|parts| + 1, etag)])
  {
    var next := parts + [UploadedPart(|parts| + 1, etag)];
    var before := sessions[uploadId];
    var after := AddPart(sessions, uploadId, |parts| + 1, Chunk(bytes, |parts|), etag)[uploadId];
    assert after.key == key && after.httpMetadata == http;
    assert after.parts == before.parts[|parts| + 1 := StoredPart(Chunk(bytes, |parts|), etag)];
    forall j | 0 <= j < |next|
      ensures next[j].partNumber == j + 1 && j + 1 in after.parts && after.parts[j + 1].body == Chunk(bytes, j)
      ensures after.parts[j + 1].etag == next[j].etag
    {
      if j < |parts| {
        assert next[j] == parts[j];
      }
    }
    assert ChunkParts(after, bytes, next);
  }

  /** The listed parts assemble to the chunks they hold. */
  lemma {:induction false} AssembleChunks(session: Session, bytes: Bytes, parts: seq<UploadedPart>)
    requires ChunkParts(session, bytes, parts)
    ensures PartsPresent(session, parts)
    ensures Assemble(session, parts) == Chunks(bytes, |parts|)
    decreases |parts|
  {
    if |parts| > 0 {
      var init := parts[..|parts| - 1];
      forall j | 0 <= j < |init|
        ensures init[j].partNumber == j + 1 && j + 1 in session.parts && session.parts[j + 1].body == Chunk(bytes, j)
        ensures session.parts[j + 1].etag == init[j].etag
      {
        assert init[j] == parts[j];
      }
      assert ChunkParts(session, bytes, init);
      AssembleChunks(session, bytes, init);
    }
  }

  /**
   * Completing with every chunk in the list succeeds, and the new object
   * holds exactly the file's bytes: the parts are present, numbered
   * 1..N in ascending order, and all but the last are full chunks, which
   * meet the store's minimum part size.
   */
  lemma CompleteAllParts(sessions: map<string, Session>, clock: nat, uploadId: string, key: string, http: HttpMetadata,
                         bytes: Bytes, parts: seq<UploadedPart>)
    requires PartsSent(sessions, uploadId, key, http, bytes, parts)
    requires |parts| == ChunkCount(|bytes|) && |bytes| >= ChunkSize
    ensures CompleteOutcome(sessions, clock, key, uploadId, parts) ==
      Ok(Obj(key, bytes, http, map[], "etag-" + NatToString(clock), clock))
  {
    var session := sessions[uploadId];
    MultipartHasChunks(|bytes|);
    AssembleChunks(session, bytes, parts);
    ChunksCoverFile(bytes);
    forall j | 0 <= j < |parts| - 1
      ensures |session.parts[parts[j].partNumber].body| >= MinPartSize
    {
      ChunkShape(|bytes|, j);
    }
  }

  // ---------------------------------------------------------------------
  // Progress entries

  /** A browser `File`; entries are matched by identity (`u.file === file`). */
  class File {
    const name: string
    const mime: string
    const bytes: Bytes

    constructor (name: string, mime: string, bytes: Bytes)
      ensures this.name == name && this.mime == mime && this.bytes == bytes
    {
      this.name := name;
      this.mime := mime;
      this.bytes := bytes;
    }
  }

  datatype Status = Pending | Uploading | Succeeded | Failed

  datatype UploadProgress = UploadProgress(file: File, progress: nat, status: Status, error: Option<string>)

  /** The updates uploadFile applies to the entries of its file. */
  datatype Change = Begin(progress: nat) | Advance(progress: nat) | Finish | Fail(message: string)

  function Apply(u: UploadProgress, c: Change): UploadProgress {
    match c
    case Begin(p) => u.(status := Uploading, progress := p)
    case Advance(p) => u.(progress := p)
    case Finish => u.(status := Succeeded, progress := 100)
    case Fail(m) => u.(status := Failed, error := Some(m))
  }

  /** `prev.map((u) => u.file === file ? change(u) : u)`. */
  function UpdateFile(uploads: seq<UploadProgress>, file: File, c: Change): (r: seq<UploadProgress>)
    ensures |r| == |uploads|
    ensures forall i :: 0 <= i < |uploads| ==> r[i].file == uploads[i].file
    ensures forall i :: 0 <= i < |uploads| && uploads[i].file != file ==> r[i] == uploads[i]
    ensures forall i :: 0 <= i < |uploads| && uploads[i].file == file ==> r[i] == Apply(uploads[i], c)
  {
    seq(|uploads|, i requires 0 <= i < |uploads| => if uploads[i].file == file then Apply(uploads[i], c) else uploads[i])
  }

  /** One entry added for `file` after `before`; entries of other files untouched. */
  ghost predicate Tracks(uploads: seq<UploadProgress>, before: seq<UploadProgress>, file: File) {
    && |uploads| == |before| + 1
    && uploads[|before|].file == file
    && (forall i :: 0 <= i < |before| ==> uploads[i].file == before[i].file)
    && (forall i :: 0 <= i < |before| && before[i].file != file ==> uploads[i] == before[i])
  }

  lemma UpdateKeepsTracks(uploads: seq<UploadProgress>, before: seq<UploadProgress>, file: File, c: Change)
    requires Tracks(uploads, before, file)
    ensures Tracks(UpdateFile(uploads, file, c), before, file)
    ensures UpdateFile(uploads, file, c)[|before|] == Apply(uploads[|before|], c)
  {
  }

  /** The message the API client throws for a failed reply. */
  function RequestError<T>(r: Reply<T>): (message: string)
    requires !r.Success?
    ensures message != ""
  {
    if r.Failure? then OrElse(r.message, "Request failed") else "Request failed"
  }

  /** `error.message || 'Upload failed'`. */
  function CaughtMessage(message: string): string {
    OrElse(message, "Upload failed")
  }

  /**
   * One iteration of the part loop: slices chunk `|parts|` and sends it as
   * part `|parts| + 1`, with the API client's error as the failure.
   */
  method SendChunk(store: Store, key: string, uploadId: string, ghost http: HttpMetadata,
                   userId: string, serverNow: nat, nowIso: string, bytes: Bytes, parts: seq<UploadedPart>)
    returns (etag: string, failure: Option<string>)
    requires store.Valid() && key != "" && uploadId != ""
    requires PartsSent(store.sessions, uploadId, key, http, bytes, parts) && |parts| < ChunkCount(|bytes|)
    modifies store
    ensures store.Valid() && store.objects == old(store.objects)
    ensures failure.None? <==> |parts| < MaxPartNumber
    ensures failure.None? ==> PartsSent(store.sessions, uploadId, key, http, bytes, parts + [UploadedPart(|parts| + 1, etag)])
    ensures failure.Some? ==> failure.value == BadPartNumber
  {
    var i := |parts|;
    ChunkShape(|bytes|, i);
    var start := i * ChunkSize;
    var end := if start + ChunkSize < |bytes| then start + ChunkSize else |bytes|;
    var chunk := bytes[start..end];
    assert chunk == Chunk(bytes, i);
    ParseIntOfNatToString(i + 1);
    ghost var sessions := store.sessions;
    var reply := Upload(store, Some(FormFile("blob", "", chunk)), key, uploadId, NatToString(i + 1), userId, serverNow, nowIso);
    if !reply.Success? {
      return "", Some(RequestError(reply));
    }
    etag := if reply.value.PartStored? then reply.value.etag else "";
    PartsSentStep(sessions, uploadId, key, http, bytes, parts, etag);
    failure := None;
  }

  /** `r2Api.completeMultipartUpload` after every chunk was sent: the object now holds the file's bytes. */
  method CompleteSent(store: Store, key: string, uploadId: string, ghost http: HttpMetadata,
                      bytes: Bytes, parts: seq<UploadedPart>)
    requires store.Valid() && key != "" && uploadId != ""
    requires PartsSent(store.sessions, uploadId, key, http, bytes, parts)
    requires |parts| == ChunkCount(|bytes|) && |bytes| >= ChunkSize
    modifies store
    ensures store.Valid()
    ensures store.objects ==
      old(store.objects)[key := Obj(key, bytes, http, map[], "etag-" + NatToString(old(store.clock)), old(store.clock))]
  {
    CompleteAllParts(store.sessions, store.clock, uploadId, key, http, bytes, parts);
    var done := UploadComplete(store, key, uploadId, Some(parts));
    // With every chunk sent, completion always succeeds.
    assert done.Success?;
  }

  class Uploader {
    var uploads: seq<UploadProgress>

    constructor ()
      ensures uploads == []
    {
      uploads := [];
    }

    /** Applies `c` to the entries of `file`, as each `setUploads` call does. */
    method Mark(file: File, c: Change, ghost before: seq<UploadProgress>)
      requires Tracks(uploads, before, file)
      modifies this
      ensures uploads == UpdateFile(old(uploads), file, c)
      ensures Tracks(uploads, before, file)
      ensures uploads[|before|] == Apply(old(uploads)[|before|], c)
    {
      UpdateKeepsTracks(uploads, before, file, c);
      uploads := UpdateFile(uploads, file, c);
    }

    /**
     * uploadFile. `clientNow` is the browser's `Date.now()` for the
     * multipart key, `serverNow` and `nowIso` the server's clock for a
     * single upload; `succeeded` says whether onSuccess was called.
     */
    method UploadFile(file: File, store: Store, userId: string, clientNow: nat, serverNow: nat, nowIso: string)
      returns (succeeded: bool, ghost partRequests: nat, ghost completeCalled: bool)
      requires store.Valid()
      modifies this, store
      ensures store.Valid()
      ensures Tracks(uploads, old(uploads), file)
      ensures succeeded ==> uploads[|old(uploads)|].status == Succeeded && uploads[|old(uploads)|].progress == 100
      ensures !succeeded ==> uploads[|old(uploads)|].status == Failed && uploads[|old(uploads)|].error.Some?
      ensures |file.bytes| < ChunkSize ==>
        var key := GeneratedKey(serverNow, file.name);
        && succeeded && partRequests == 0 && !completeCalled
        && store.objects == old(store.objects)[key := Written(key, file.bytes, HttpMetadata(Some(OrElse(file.mime, OctetStream))),
                                                              UploadMetadata(file.name, userId, nowIso), old(store.clock))]
      ensures |file.bytes| >= ChunkSize && ChunkCount(|file.bytes|) <= MaxPartNumber ==>
        var key := GeneratedKey(clientNow, file.name);
        && succeeded && partRequests == ChunkCount(|file.bytes|) && completeCalled
        && key in store.objects
        && store.objects[key].body == file.bytes
        && store.objects[key].httpMetadata == HttpMetadata(Some(OrElse(file.mime, OctetStream)))
        && store.objects == old(store.objects)[key := store.objects[key]]
      ensures |file.bytes| >= ChunkSize && ChunkCount(|file.bytes|) > MaxPartNumber ==>
        && !succeeded && partRequests == MaxPartNumber + 1 && !completeCalled
        && uploads[|old(uploads)|].error == Some(BadPartNumber)
        && store.objects == old(store.objects)
    {
      uploads := uploads + [UploadProgress(file, 0, Pending, None)];
      if |file.bytes| < ChunkSize {
        succeeded := UploadSmall(file, store, userId, serverNow, nowIso, old(uploads));
        partRequests, completeCalled := 0, false;
      } else {
        succeeded, partRequests, completeCalled := UploadMultipart(file, store, userId, clientNow, serverNow, nowIso, old(uploads));
      }
    }

    /** The single-request branch, for files under one chunk. */
    method UploadSmall(file: File, store: Store, userId: string, serverNow: nat, nowIso: string, ghost before: seq<UploadProgress>)
      returns (succeeded: bool)
      requires store.Valid() && Tracks(uploads, before, file)
      modifies this, store
      ensures store.Valid() && Tracks(uploads, before, file)
      ensures succeeded && uploads[|before|].status == Succeeded && uploads[|before|].progress == 100
      ensures var key := GeneratedKey(serverNow, file.name);
        store.objects == old(store.objects)[key := Written(key, file.bytes, HttpMetadata(Some(OrElse(file.mime, OctetStream))),
                                                           UploadMetadata(file.name, userId, nowIso), old(store.clock))]
    {
      Mark(file, Begin(0), before);
      var reply := Upload(store, Some(FormFile(file.name, file.mime, file.bytes)), "", "", "", userId, serverNow, nowIso);
      // A request with a file and no part fields is always stored, so the catch branch is never taken.
      assert reply.Success?;
      Mark(file, Finish, before);
      succeeded := true;
    }

    /** The multipart branch: init, one request per chunk, then complete. */
    method UploadMultipart(file: File, store: Store, userId: string, clientNow: nat, serverNow: nat, nowIso: string,
                           ghost before: seq<UploadProgress>)
      returns (succeeded: bool, ghost partRequests: nat, ghost completeCalled: bool)
      requires store.Valid() && Tracks(uploads, before, file) && |file.bytes| >= ChunkSize
      modifies this, store
      ensures store.Valid() && Tracks(uploads, before, file)
      ensures succeeded ==> uploads[|before|].status == Succeeded && uploads[|before|].progress == 100
      ensures !succeeded ==> uploads[|before|].status == Failed && uploads[|before|].error.Some?
      ensures ChunkCount(|file.bytes|) <= MaxPartNumber ==>
        var key := GeneratedKey(clientNow, file.name);
        && succeeded && partRequests == ChunkCount(|file.bytes|) && completeCalled
        && key in store.objects
        && store.objects[key].body == file.bytes
        && store.objects[key].httpMetadata == HttpMetadata(Some(OrElse(file.mime, OctetStream)))
        && store.objects == old(store.objects)[key := store.objects[key]]
      ensures ChunkCount(|file.bytes|) > MaxPartNumber ==>
        && !succeeded && partRequests == MaxPartNumber + 1 && !completeCalled
        && uploads[|before|].error == Some(BadPartNumber)
        && store.objects == old(store.objects)
    {
      partRequests, completeCalled := 0, false;
      var key := GeneratedKey(clientNow, file.name);
      var contentType := OrElse(file.mime, OctetStream);
      var init := UploadInit(store, key, Some(contentType));
      // The generated key is never empty, so init always answers 200.
      assert init.Success?;
      var uploadId := init.value.uploadId;
      Mark(file, Begin(5), before);

      ghost var http := HttpMetadata(Some(contentType));
      var parts, failure;
      parts, failure, partRequests := SendParts(file, store, key, uploadId, http, userId, serverNow, nowIso, before);
      if failure.Some? {
        Mark(file, Fail(CaughtMessage(failure.value)), before);
        return false, partRequests, completeCalled;
      }

      CompleteSent(store, key, uploadId, http, file.bytes, parts);
      completeCalled := true;
      Mark(file, Finish, before);
      succeeded := true;
    }

    /** The loop over the chunks: one part request each, numbered from 1, stopping at the first failure. */
    method SendParts(file: File, store: Store, key: string, uploadId: string, ghost http: HttpMetadata,
                     userId: string, serverNow: nat, nowIso: string, ghost before: seq<UploadProgress>)
      returns (parts: seq<UploadedPart>, failure: Option<string>, ghost partRequests: nat)
      requires store.Valid() && Tracks(uploads, before, file) && uploads[|before|].status == Uploading
      requires key != "" && uploadId != "" && |file.bytes| >= ChunkSize
      requires PartsSent(store.sessions, uploadId, key, http, file.bytes, [])
      modifies this, store
      ensures store.Valid() && store.objects == old(store.objects) && Tracks(uploads, before, file)
      ensures failure.None? <==> ChunkCount(|file.bytes|) <= MaxPartNumber
      ensures failure.None? ==>
        && |parts| == partRequests == ChunkCount(|file.bytes|)
        && PartsSent(store.sessions, uploadId, key, http, file.bytes, parts)
        && uploads[|before|].status == Uploading
        && uploads[|before|].progress == 95
      ensures failure.Some? ==> failure.value == BadPartNumber && partRequests == MaxPartNumber + 1
    {
      var totalChunks := ChunkCount(|file.bytes|);
      MultipartHasChunks(|file.bytes|);
      parts, partRequests := [], 0;
      var i := 0;
      while i < totalChunks
        invariant i == |parts| == partRequests <= totalChunks && i <= MaxPartNumber
        invariant store.Valid() && store.objects == old(store.objects)
        invariant PartsSent(store.sessions, uploadId, key, http, file.bytes, parts)
        invariant Tracks(uploads, before, file)
        invariant uploads[|before|].status == Uploading
        invariant i > 0 ==> uploads[|before|].progress == Progress(i, totalChunks)
      {
        var etag, failed := SendChunk(store, key, uploadId, http, userId, serverNow, nowIso, file.bytes, parts);
        partRequests := partRequests + 1;
        if failed.Some? {
          return parts, failed, partRequests;
        }
        parts := parts + [UploadedPart(i + 1, etag)];
        Mark(file, Advance(Progress(i + 1, totalChunks)), before);
        i := i + 1;
      }
      ProgressBounds(totalChunks, totalChunks);
      failure := None;
    }
  }
}
