/**
 * Any number of workers publishing to one project's bucket (cmd/olw_worker/cloud_publish.go,
 * cmd/olw_worker/lease_liveness.go). Each worker runs its program one store call at a time; the calls of
 * different workers interleave freely. A call is either served and answered, or its issuer sees an error while the
 * request stays around: the store may serve it at any later time, more than once, or never.
 */
module CloudProtocol {
  import opened Options
  import opened ByteStrings
  import opened ObjectStore

  const RELEASE_ATTEMPTS: nat := 3
  const RECEIPT_ATTEMPTS: nat := 3

  datatype Liveness = Running | Terminal | ProbeNotFound | LookupFailed | Malformed

  predicate AllowLeaseReclaim(state: Liveness) {
    state == Terminal || state == ProbeNotFound
  }

  /** Executions of a job are named "{job}-{suffix}". */
  predicate ExecutionBelongsToJob(execution: string, job: string) {
    execution != "" && job != "" && execution != job && job + "-" <= execution
  }

  /** The digest of the deployment, the job it scopes reclaims to, and whether its liveness probe can be trusted. */
  datatype Config = Config(sha: Bytes -> string, job: string, sound: bool)

  /** A manifest together with the generation of the object that holds it. */
  datatype Commit = Commit(manifest: Manifest, generation: nat)

  /** A generation output. */
  datatype Output = Output(path: string, data: Bytes)

  /** What a run knows about its own manifest commit. */
  datatype Verdict = Undecided | Confirmed(manifest: Manifest) | Failed | Conflicted(manifest: Manifest) | Unknown(manifest: Manifest)

  /** What a worker does next. */
  datatype Phase =
    | Starting
    | Contending
    | Probing(generation: nat, holder: string)
    | Reclaiming(generation: nat, holder: string)
    | Retrying
    | Gathering
    | Preparing(base: Option<Commit>)
    | Uploading(base: Option<Commit>, manifest: Manifest, outputs: seq<Output>, done: nat)
    | Committing(base: Option<Commit>, manifest: Manifest, outputs: seq<Output>)
    | Confirming(manifest: Manifest)
    | Recording(attempt: nat)
    | Merging(attempt: nat, prior: Option<nat>, sources: Receipts)
    | Storing(attempt: nat, prior: Option<nat>, sources: Receipts, current: set<Snapshot>, now: string)
    | Releasing(attempt: nat)
    | Finished

  datatype Worker = Worker(phase: Phase, lease: nat, snapshots: seq<Snapshot>, verdict: Verdict)

  /** The writing calls, with what their issuer goes by. */
  datatype Request =
    | CreateLease(author: string)
    | Reclaim(author: string, generation: nat, holder: string)
    | Release(author: string, generation: nat)
    | Upload(author: string, id: string, output: Output)
    | Publish(author: string, manifest: Manifest, base: Option<Commit>, outputs: seq<Output>)
    | Record(author: string, prior: Option<nat>, before: Receipts, after: Receipts, snapshots: seq<Snapshot>,
             current: set<Snapshot>, success: bool, now: string)

  /** A receipts write that took effect; `before` are the receipts it replaced. */
  datatype Landing = Landing(request: Request, before: Receipts, after: Receipts)

  /** `manifests` and `landings` are histories: no worker looks at them. */
  datatype World = World(
    bucket: Bucket,
    workers: map<string, Worker>,
    alive: set<string>,
    late: set<Request>,
    manifests: seq<Commit>,
    landings: seq<Landing>)

  function Expect(seen: Option<nat>): Condition {
    if seen == None then Condition(true, 0) else Condition(false, seen.value)
  }

  /** The store operation behind a request. */
  function OperationOf(r: Request): Operation {
    match r
    case CreateLease(author) => Write(Lease, LeaseBody(author), Condition(true, 0))
    case Reclaim(_, generation, _) => Delete(Lease, generation)
    case Release(_, generation) => Delete(Lease, generation)
    case Upload(_, id, output) => Write(Generation(id, output.path), Data(output.data), Condition(true, 0))
    case Publish(_, manifest, base, _) =>
      Write(CurrentManifest, ManifestBody(manifest), Expect(if base == None then None else Some(base.value.generation)))
    case Record(_, prior, _, after, _, _, _, _) => Write(SourceStatus, ReceiptsBody(after), Expect(prior))
  }

  function SourcesIn(b: Bucket): Receipts {
    if SourceStatus in b.objects && b.objects[SourceStatus].content.ReceiptsBody?
    then b.objects[SourceStatus].content.sources
    else map[]
  }

  /** The store serves a request. */
  function Served(w: World, r: Request): World {
    var op := OperationOf(r);
    if !Accepts(w.bucket, op) then w
    else
      w.(bucket := Applied(w.bucket, op),
         manifests := if r.Publish? then w.manifests + [Commit(r.manifest, w.bucket.next)] else w.manifests,
         landings := if r.Record? then w.landings + [Landing(r, SourcesIn(w.bucket), r.after)] else w.landings)
  }

  /** Serving a request is one call on the store. */
  method Serve(store: Store, r: Request, ghost w: World) returns (answer: Answer)
    requires store.bucket == w.bucket
    modifies store
    ensures store.bucket == Served(w, r).bucket && answer == AnswerTo(w.bucket, OperationOf(r))
  {
    match OperationOf(r)
    case Write(name, content, condition) => answer := store.Write(name, content, condition);
    case Delete(name, generation) => answer := store.Delete(name, generation);
  }

  // ---- A worker's program ----

  /** The write or delete that a worker is about to issue. */
  function Pending(x: string, worker: Worker): Option<Request> {
    match worker.phase
    case Starting => Some(CreateLease(x))
    case Retrying => Some(CreateLease(x))
    case Reclaiming(generation, holder) => Some(Reclaim(x, generation, holder))
    case Uploading(_, manifest, outputs, done) =>
      if done < |outputs| then Some(Upload(x, manifest.generationID, outputs[done])) else None
    case Committing(base, manifest, outputs) => Some(Publish(x, manifest, base, outputs))
    case Storing(_, prior, sources, current, now) =>
      var success := worker.verdict.Confirmed?;
      Some(Record(x, prior, sources, Merged(sources, worker.snapshots, current, success, now),
                  worker.snapshots, current, success, now))
    case Releasing(_) => Some(Release(x, worker.lease))
    case _ => None
  }

  /** The run failed before it tried to commit: failure receipts follow. */
  function FailedRun(worker: Worker): Worker {
    worker.(phase := Recording(0), verdict := Failed)
  }

  function Retried(worker: Worker, attempt: nat, success: bool): Worker {
    worker.(phase := if success || attempt + 1 >= RELEASE_ATTEMPTS then Finished else Releasing(attempt + 1))
  }

  /** The worker once its call has been answered. */
  function Answered(c: Config, worker: Worker, answer: Answer): Worker {
    match worker.phase
    case Starting =>
      if answer.Written? then worker.(phase := Gathering, lease := answer.generation) else worker.(phase := Contending)
    case Retrying =>
      if answer.Written? then worker.(phase := Gathering, lease := answer.generation) else worker.(phase := Finished)
    case Reclaiming(_, _) => worker.(phase := Retrying)
    case Uploading(base, manifest, outputs, done) =>
      if answer.Written? && done < |outputs| then
        var file := File(outputs[done].path, |outputs[done].data|, c.sha(outputs[done].data), answer.generation);
        worker.(phase := Uploading(base, manifest.(files := manifest.files + [file]), outputs, done + 1))
      else FailedRun(worker)
    case Committing(_, manifest, _) =>
      if answer.Written? then worker.(phase := Recording(0), verdict := Confirmed(manifest))
      else worker.(phase := Confirming(manifest))
    case Storing(attempt, _, _, _, _) =>
      worker.(phase := if answer.Conflict? && attempt + 1 < RECEIPT_ATTEMPTS then Recording(attempt + 1) else Releasing(0))
    case Releasing(attempt) => Retried(worker, attempt, answer.Deleted?)
    case _ => worker
  }

  /** The worker once its call has failed for any other reason. */
  function Broken(worker: Worker): Worker {
    match worker.phase
    case Uploading(_, _, _, _) => FailedRun(worker)
    case Committing(_, manifest, _) => worker.(phase := Confirming(manifest))
    case Storing(_, _, _, _, _) => worker.(phase := Releasing(0))
    case Releasing(attempt) => Retried(worker, attempt, false)
    case _ => worker.(phase := Finished)
  }

  /** The object that a worker is about to read. */
  function Reads(worker: Worker): Option<Name> {
    match worker.phase
    case Contending => Some(Lease)
    case Gathering => Some(CurrentManifest)
    case Confirming(_) => Some(CurrentManifest)
    case Recording(_) => Some(SourceStatus)
    case _ => None
  }

  /** The worker once its read has returned an object, or found none. */
  function Seen(c: Config, worker: Worker, found: Option<Object>): Worker {
    match worker.phase
    case Contending =>
      if found == None then worker.(phase := Retrying)
      else if !found.value.content.LeaseBody? then worker.(phase := Finished)
      else if !ExecutionBelongsToJob(found.value.content.execution, c.job) then worker.(phase := Finished)
      else worker.(phase := Probing(found.value.generation, found.value.content.execution))
    case Gathering =>
      if found == None then worker.(phase := Preparing(None))
      else if !found.value.content.ManifestBody? then FailedRun(worker)
      else worker.(phase := Preparing(Some(Commit(found.value.content.manifest, found.value.generation))))
    case Confirming(manifest) =>
      if found != None && found.value.content == ManifestBody(manifest)
      then worker.(phase := Recording(0), verdict := Confirmed(manifest))
      else worker.(phase := Recording(0), verdict := Conflicted(manifest))
    case Recording(attempt) =>
      if found == None then worker.(phase := Merging(attempt, None, map[]))
      else if !found.value.content.ReceiptsBody? then worker.(phase := Releasing(0))
      else worker.(phase := Merging(attempt, Some(found.value.generation), found.value.content.sources))
    case _ => worker
  }

  /** The worker once its read has failed. */
  function Unseen(worker: Worker): Worker {
    match worker.phase
    case Gathering => FailedRun(worker)
    case Confirming(manifest) => worker.(phase := Releasing(0), verdict := Unknown(manifest))
    case Recording(_) => worker.(phase := Releasing(0))
    case _ => worker.(phase := Finished)
  }

  /** What a worker settles without the store. */
  datatype Choice =
    | Snapshots(snapshots: seq<Snapshot>)
    | GiveUp
    | Generate(id: string, createdAt: string, inputFingerprint: string, outputs: seq<Output>)
    | Seal(files: seq<File>)
    | Check(current: set<Snapshot>, now: string)

  /** Text in lexicographic order (`<=` on strings would ask for a prefix). */
  predicate NotAfter(a: string, b: string) {
    a == "" || (b != "" && (a[0] < b[0] || (a[0] == b[0] && NotAfter(a[1..], b[1..]))))
  }

  predicate Sorted(files: seq<File>) {
    forall i, j :: 0 <= i < j < |files| ==> NotAfter(files[i].path, files[j].path)
  }

  predicate MayChoose(worker: Worker, choice: Choice) {
    match choice
    case Snapshots(_) => worker.phase.Gathering? || worker.phase.Preparing?
    case GiveUp => worker.phase.Gathering? || worker.phase.Preparing? || worker.phase.Uploading?
    case Generate(id, _, _, _) => worker.phase.Preparing? && id != ""
    case Seal(files) =>
      && worker.phase.Uploading? && worker.phase.done == |worker.phase.outputs|
      && Sorted(files) && multiset(files) == multiset(worker.phase.manifest.files)
    case Check(_, _) => worker.phase.Merging?
  }

  function Chosen(worker: Worker, choice: Choice): Worker
    requires MayChoose(worker, choice)
  {
    match choice
    case Snapshots(snapshots) => worker.(snapshots := snapshots)
    case GiveUp => FailedRun(worker)
    case Generate(id, createdAt, inputFingerprint, outputs) =>
      var base := worker.phase.base;
      var previous := if base == None then "" else base.value.manifest.generationID;
      worker.(phase := Uploading(base, Manifest(id, previous, createdAt, inputFingerprint, []), outputs, 0))
    case Seal(files) =>
      worker.(phase := Committing(worker.phase.base, worker.phase.manifest.(files := files), worker.phase.outputs))
    case Check(current, now) =>
      worker.(phase := Storing(worker.phase.attempt, worker.phase.prior, worker.phase.sources, current, now))
  }

  // ---- The steps of the whole system ----

  datatype Step =
    /** A new execution starts. */
    | Start(x: string)
    /** An execution ends, whether finished or not. */
    | End(x: string)
    /** A worker's pending request is served and answered. */
    | Call(x: string)
    /** A worker's pending request fails, and stays around. */
    | Break(x: string)
    /** The store serves a request that its issuer has given up. */
    | Deliver(r: Request)
    | Read(x: string)
    | BreakRead(x: string)
    | Probe(x: string, state: Liveness)
    | Choose(x: string, choice: Choice)
    /** Someone else writes a raw file, an annotation, a log or a diagnostic. */
    | Outside(path: string, bytes: Bytes)

  /** An execution reported as terminal or not found is not running; the other reports promise nothing. */
  predicate Truthful(w: World, holder: string, state: Liveness) {
    state == Terminal || state == ProbeNotFound ==> holder !in w.alive
  }

  predicate Active(w: World, x: string) {
    x in w.alive && x in w.workers
  }

  predicate Enabled(c: Config, w: World, step: Step) {
    match step
    case Start(x) => x !in w.workers
    case End(x) => Active(w, x)
    case Call(x) => Active(w, x) && Pending(x, w.workers[x]) != None
    case Break(x) => Active(w, x) && Pending(x, w.workers[x]) != None
    case Deliver(r) => r in w.late
    case Read(x) => Active(w, x) && Reads(w.workers[x]) != None
    case BreakRead(x) => Active(w, x) && Reads(w.workers[x]) != None
    case Probe(x, state) =>
      && Active(w, x) && w.workers[x].phase.Probing?
      && (c.sound ==> Truthful(w, w.workers[x].phase.holder, state))
    case Choose(x, choice) => Active(w, x) && MayChoose(w.workers[x], choice)
    case Outside(_, _) => true
  }

  function Moved(w: World, x: string, worker: Worker): World {
    w.(workers := w.workers[x := worker])
  }

  function After(c: Config, w: World, step: Step): World
    requires Enabled(c, w, step)
  {
    match step
    case Start(x) => Moved(w, x, Worker(Starting, 0, [], Undecided)).(alive := w.alive + {x})
    case End(x) => w.(alive := w.alive - {x})
    case Call(x) =>
      var r := Pending(x, w.workers[x]).value;
      Moved(Served(w, r), x, Answered(c, w.workers[x], AnswerTo(w.bucket, OperationOf(r))))
    case Break(x) =>
      var r := Pending(x, w.workers[x]).value;
      Moved(w.(late := w.late + {r}), x, Broken(w.workers[x]))
    case Deliver(r) => Served(w, r)
    case Read(x) =>
      var name := Reads(w.workers[x]).value;
      var found := if name in w.bucket.objects then Some(w.bucket.objects[name]) else None;
      Moved(w, x, Seen(c, w.workers[x], found))
    case BreakRead(x) => Moved(w, x, Unseen(w.workers[x]))
    case Probe(x, state) =>
      var p := w.workers[x].phase;
      Moved(w, x, w.workers[x].(phase := if AllowLeaseReclaim(state) then Reclaiming(p.generation, p.holder) else Finished))
    case Choose(x, choice) => Moved(w, x, Chosen(w.workers[x], choice))
    case Outside(path, bytes) =>
      w.(bucket := Applied(w.bucket, Write(Other(path), Data(bytes), Condition(false, 0))))
  }

  /** No manifest has been committed yet; any lease, receipts and generation objects may be lying about. */
  ghost predicate Initial(w: World) {
    && ValidBucket(w.bucket)
    && CurrentManifest !in w.bucket.objects
    && w.workers == map[] && w.alive == {} && w.late == {} && w.manifests == [] && w.landings == []
  }

  /** A run visits worlds[0], worlds[1], ... by the steps between them. */
  ghost predicate Run(c: Config, worlds: seq<World>, steps: seq<Step>) {
    && |worlds| == |steps| + 1
    && Initial(worlds[0])
    && forall i :: 0 <= i < |steps| ==> Enabled(c, worlds[i], steps[i]) && worlds[i + 1] == After(c, worlds[i], steps[i])
  }

  ghost predicate Reachable(c: Config, w: World) {
    exists worlds, steps :: Run(c, worlds, steps) && worlds[|worlds| - 1] == w
  }
}
