/** The project's objects in the bucket and the store's conditional writes and deletes (cmd/olw_worker/cloud_publish.go). */
module ObjectStore {
  import opened ByteStrings

  datatype File = File(path: string, size: nat, sha256: string, generation: nat)

  datatype Manifest = Manifest(
    generationID: string,
    previousGenerationID: string,
    createdAt: string,
    inputFingerprint: string,
    files: seq<File>)

  datatype Receipt = Receipt(
    rawPath: string,
    lastIngestedRawSHA256: string,
    lastIngestedAnnSHA256: string,
    lastIngestFingerprint: string,
    lastSuccessAt: string,
    failedFingerprint: string,
    error: string)

  type Receipts = map<string, Receipt>

  /** Objects in decoded form; a lease or a receipts object that does not decode is `Data`. */
  datatype Content =
    | LeaseBody(execution: string)
    | ManifestBody(manifest: Manifest)
    | ReceiptsBody(sources: Receipts)
    | Data(bytes: Bytes)

  /** The names under a project's prefix; `Other` holds raw files, annotations, logs and diagnostics. */
  datatype Name = Lease | CurrentManifest | SourceStatus | Generation(id: string, path: string) | Other(path: string)

  datatype Object = Object(content: Content, generation: nat)

  /** objectConditions: a generation of 0 or less asks for nothing. */
  datatype Condition = Condition(doesNotExist: bool, generationMatch: int)

  datatype Operation = Write(name: Name, content: Content, condition: Condition) | Delete(name: Name, generation: int)

  datatype Answer = Written(generation: nat) | Deleted | Conflict | NotFound

  /** The store: its objects, and the generation that the next write will get. */
  datatype Bucket = Bucket(objects: map<Name, Object>, next: nat)

  predicate Accepts(b: Bucket, op: Operation) {
    match op
    case Write(name, _, condition) =>
      if condition.doesNotExist then name !in b.objects
      else condition.generationMatch > 0 ==> name in b.objects && b.objects[name].generation == condition.generationMatch
    case Delete(name, generation) =>
      name in b.objects && (generation > 0 ==> b.objects[name].generation == generation)
  }

  function Applied(b: Bucket, op: Operation): Bucket {
    if !Accepts(b, op) then b
    else
      match op
      case Write(name, content, _) => Bucket(b.objects[name := Object(content, b.next)], b.next + 1)
      case Delete(name, _) => b.(objects := b.objects - {name})
  }

  function AnswerTo(b: Bucket, op: Operation): Answer {
    match op
    case Write(_, _, _) => if Accepts(b, op) then Written(b.next) else Conflict
    case Delete(name, _) => if Accepts(b, op) then Deleted else if name in b.objects then Conflict else NotFound
  }

  /** Generations are handed out once and never 0. */
  ghost predicate ValidBucket(b: Bucket) {
    b.next > 0 && forall n :: n in b.objects ==> 0 < b.objects[n].generation < b.next
  }

  /** What holds between a store and any later one: an object that is not newer is the very same object. */
  ghost predicate Kept(b: Bucket, b': Bucket) {
    && b.next <= b'.next
    && forall n :: n in b'.objects && b'.objects[n].generation < b.next ==> n in b.objects && b'.objects[n] == b.objects[n]
  }

  lemma AppliedKeeps(b: Bucket, op: Operation)
    requires ValidBucket(b)
    ensures ValidBucket(Applied(b, op)) && Kept(b, Applied(b, op))
  {
  }

  /** A conditional write or delete that goes through hits exactly the object that its issuer had seen. */
  lemma ConditionalHits(seen: Bucket, b: Bucket, op: Operation, name: Name)
    requires Kept(seen, b) && name in seen.objects && 0 < seen.objects[name].generation < seen.next
    requires || op == Delete(name, seen.objects[name].generation)
             || (op.Write? && op.name == name && op.condition == Condition(false, seen.objects[name].generation))
    ensures Accepts(b, op) <==> name in b.objects && b.objects[name] == seen.objects[name]
  {
  }

  // ---- Receipts ----

  datatype Snapshot = Snapshot(
    sourceID: string,
    rawPath: string,
    rawSHA256: string,
    annotationSHA: string,
    fingerprint: string,
    tombstone: bool)

  const NO_RECEIPT := Receipt("", "", "", "", "", "", "")

  function ReceiptOf(sources: Receipts, id: string): Receipt {
    if id in sources then sources[id] else NO_RECEIPT
  }

  /** The four fields that a failure leaves alone. */
  function LastIngested(r: Receipt): (string, string, string, string) {
    (r.lastIngestedRawSHA256, r.lastIngestedAnnSHA256, r.lastIngestFingerprint, r.lastSuccessAt)
  }

  function Recorded(sources: Receipts, s: Snapshot, success: bool, now: string): Receipts {
    if success then sources[s.sourceID := Receipt(s.rawPath, s.rawSHA256, s.annotationSHA, s.fingerprint, now, "", "")]
    else
      sources[s.sourceID := ReceiptOf(sources, s.sourceID)
                            .(rawPath := s.rawPath, failedFingerprint := s.fingerprint, error := "pipeline failed")]
  }

  predicate Mergeable(s: Snapshot, current: set<Snapshot>) {
    !s.tombstone && s in current
  }

  /** The receipts after a merge; `current` are the snapshots whose inputs are still the ones ingested. */
  function Merged(sources: Receipts, snapshots: seq<Snapshot>, current: set<Snapshot>, success: bool, now: string): Receipts {
    if snapshots == [] then sources
    else
      var last := snapshots[|snapshots| - 1];
      var before := Merged(sources, snapshots[..|snapshots| - 1], current, success, now);
      if Mergeable(last, current) then Recorded(before, last, success, now) else before
  }

  method Merge(sources: Receipts, snapshots: seq<Snapshot>, current: set<Snapshot>, success: bool, now: string)
    returns (artifact: Receipts)
    ensures artifact == Merged(sources, snapshots, current, success, now)
  {
    artifact := sources;
    for n := 0 to |snapshots|
      invariant artifact == Merged(sources, snapshots[..n], current, success, now)
    {
      assert snapshots[..n + 1][..n] == snapshots[..n];
      if snapshots[n].tombstone || snapshots[n] !in current {
        continue;
      }
      artifact := Recorded(artifact, snapshots[n], success, now);
    }
    assert snapshots[..|snapshots|] == snapshots;
  }

  /** The sources that a merge writes. */
  ghost predicate Touches(snapshots: seq<Snapshot>, current: set<Snapshot>, id: string) {
    exists s :: s in snapshots && Mergeable(s, current) && s.sourceID == id
  }

  /** Other sources keep their receipts, and a failure keeps every last-ingested field. */
  lemma {:induction false} MergedKeeps(sources: Receipts, snapshots: seq<Snapshot>, current: set<Snapshot>, success: bool, now: string, id: string)
    ensures var after := Merged(sources, snapshots, current, success, now);
            && (!Touches(snapshots, current, id) ==>
                  (id in after <==> id in sources) && ReceiptOf(after, id) == ReceiptOf(sources, id))
            && (!success ==> LastIngested(ReceiptOf(after, id)) == LastIngested(ReceiptOf(sources, id)))
  {
    if snapshots != [] {
      var init := snapshots[..|snapshots| - 1];
      MergedKeeps(sources, init, current, success, now, id);
      if Touches(init, current, id) {
        var s :| s in init && Mergeable(s, current) && s.sourceID == id;
        assert s in snapshots;
      }
    }
  }

  /** A success receipt records what was ingested, for every source that the merge touches. */
  lemma {:induction false} MergedRecords(sources: Receipts, snapshots: seq<Snapshot>, current: set<Snapshot>, success: bool, now: string, id: string)
    requires Touches(snapshots, current, id)
    ensures var after := Merged(sources, snapshots, current, success, now);
            && id in after
            && exists s :: s in snapshots && Mergeable(s, current) && s.sourceID == id && after[id].rawPath == s.rawPath
                 && (success ==> after[id] == Receipt(s.rawPath, s.rawSHA256, s.annotationSHA, s.fingerprint, now, "", ""))
                 && (!success ==> after[id].failedFingerprint == s.fingerprint && after[id].error == "pipeline failed")
  {
    var init, last := snapshots[..|snapshots| - 1], snapshots[|snapshots| - 1];
    if !(Mergeable(last, current) && last.sourceID == id) {
      var t :| t in snapshots && Mergeable(t, current) && t.sourceID == id;
      assert snapshots == init + [last] && t in init;
      MergedRecords(sources, init, current, success, now, id);
    }
  }

  /** The last snapshot of a source that is no tombstone and still current. */
  ghost predicate LastOf(snapshots: seq<Snapshot>, current: set<Snapshot>, n: nat, id: string) {
    && n < |snapshots| && snapshots[n].sourceID == id && !snapshots[n].tombstone && snapshots[n] in current
    && forall k :: n < k < |snapshots| && snapshots[k].sourceID == id ==> snapshots[k].tombstone || snapshots[k] !in current
  }

  /** What a merge leaves for a source: the record of its last current snapshot, or what was there. */
  lemma {:induction false} MergedExactly(sources: Receipts, snapshots: seq<Snapshot>, current: set<Snapshot>, success: bool, now: string,
                                         id: string, n: nat)
    ensures var after := Merged(sources, snapshots, current, success, now);
            LastOf(snapshots, current, n, id) ==>
              && id in after
              && var s := snapshots[n];
                 after[id] == if success then Receipt(s.rawPath, s.rawSHA256, s.annotationSHA, s.fingerprint, now, "", "")
                              else ReceiptOf(sources, id).(rawPath := s.rawPath, failedFingerprint := s.fingerprint, error := "pipeline failed")
    ensures var after := Merged(sources, snapshots, current, success, now);
            (forall s :: s in snapshots && s.sourceID == id ==> s.tombstone || s !in current) ==>
              (id in after <==> id in sources) && ReceiptOf(after, id) == ReceiptOf(sources, id)
    decreases |snapshots|
  {
    if snapshots != [] {
      var init, last := snapshots[..|snapshots| - 1], snapshots[|snapshots| - 1];
      assert snapshots == init + [last];
      if LastOf(snapshots, current, n, id) && n == |init| {
        EarlierRecords(sources, init, current, success, now, id);
      } else {
        MergedExactly(sources, init, current, success, now, id, n);
      }
    }
  }

  /** A batch of failures changes a receipt in three fields only. */
  lemma {:induction false} EarlierRecords(sources: Receipts, snapshots: seq<Snapshot>, current: set<Snapshot>, success: bool, now: string, id: string)
    ensures var r, was := ReceiptOf(Merged(sources, snapshots, current, success, now), id), ReceiptOf(sources, id);
            !success ==> r == was.(rawPath := r.rawPath, failedFingerprint := r.failedFingerprint, error := r.error)
  {
    if snapshots != [] {
      EarlierRecords(sources, snapshots[..|snapshots| - 1], current, success, now, id);
    }
  }

  /** The object store as its clients see it: each call is one operation on the bucket. */
  class Store {
    var bucket: Bucket

    constructor ()
      ensures bucket == Bucket(map[], 1)
    {
      bucket := Bucket(map[], 1);
    }

    method Write(name: Name, content: Content, condition: Condition) returns (answer: Answer)
      modifies this
      ensures bucket == Applied(old(bucket), Operation.Write(name, content, condition))
      ensures answer == AnswerTo(old(bucket), Operation.Write(name, content, condition))
    {
      if condition.doesNotExist {
        if name in bucket.objects {
          return Conflict;
        }
      } else if condition.generationMatch > 0 {
        if name !in bucket.objects || bucket.objects[name].generation != condition.generationMatch {
          return Conflict;
        }
      }
      answer := Written(bucket.next);
      bucket := Bucket(bucket.objects[name := Object(content, bucket.next)], bucket.next + 1);
    }

    method Delete(name: Name, generation: int) returns (answer: Answer)
      modifies this
      ensures bucket == Applied(old(bucket), Operation.Delete(name, generation))
      ensures answer == AnswerTo(old(bucket), Operation.Delete(name, generation))
    {
      if name !in bucket.objects {
        return NotFound;
      }
      if generation > 0 && bucket.objects[name].generation != generation {
        return Conflict;
      }
      bucket := bucket.(objects := bucket.objects - {name});
      answer := Deleted;
    }
  }
}
