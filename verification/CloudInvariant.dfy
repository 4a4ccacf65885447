/** What every step of the bucket protocol keeps, with a sound liveness probe and without. */
module CloudInvariant {
  import opened Options
  import opened ByteStrings
  import opened ObjectStore
  import opened CloudProtocol

  // ---- The claims about one world ----

  /** The current manifest is the last one committed, and each names the one it replaced. */
  ghost predicate Chain(w: World) {
    && (CurrentManifest in w.bucket.objects <==> w.manifests != [])
    && (w.manifests != [] ==>
          var last := w.manifests[|w.manifests| - 1];
          w.bucket.objects[CurrentManifest] == Object(ManifestBody(last.manifest), last.generation))
    && forall i :: 0 <= i < |w.manifests| ==> Links(w.manifests, i)
  }

  ghost predicate Links(manifests: seq<Commit>, i: nat)
    requires i < |manifests|
  {
    && manifests[i].manifest.generationID != ""
    && manifests[i].manifest.previousGenerationID == if i == 0 then "" else manifests[i - 1].manifest.generationID
  }

  /** The object that a manifest's file entry names is there, as recorded. */
  predicate EntryResolves(c: Config, b: Bucket, id: string, f: File) {
    var name := Generation(id, f.path);
    && name in b.objects
    && b.objects[name].generation == f.generation
    && b.objects[name].content.Data?
    && |b.objects[name].content.bytes| == f.size
    && c.sha(b.objects[name].content.bytes) == f.sha256
  }

  ghost predicate Resolves(c: Config, b: Bucket, m: Manifest) {
    forall f :: f in m.files ==> EntryResolves(c, b, m.generationID, f)
  }

  ghost predicate AllResolve(c: Config, w: World) {
    forall commit :: commit in w.manifests ==> Resolves(c, w.bucket, commit.manifest)
  }

  /** A receipts write starts from the very receipts that it replaces. */
  ghost predicate LandingOk(w: World, l: Landing) {
    && l.request.Record?
    && l.before == l.request.before
    && l.after == Merged(l.before, l.request.snapshots, l.request.current, l.request.success, l.request.now)
    && EntitledTo(w, l.request.author, l.request.success)
  }

  ghost predicate Landings(w: World) {
    && (forall l :: l in w.landings ==> LandingOk(w, l))
    && (forall i :: 0 < i < |w.landings| ==> w.landings[i].before == w.landings[i - 1].after)
    && (w.landings != [] ==>
          && SourceStatus in w.bucket.objects
          && w.bucket.objects[SourceStatus].content == ReceiptsBody(w.landings[|w.landings| - 1].after))
  }

  ghost predicate Committed(w: World, m: Manifest) {
    exists commit :: commit in w.manifests && commit.manifest == m
  }

  /** Success receipts need a confirmed commit; failure receipts need a run known to have failed. */
  ghost predicate EntitledTo(w: World, x: string, success: bool) {
    && x in w.workers
    && var v := w.workers[x].verdict;
       if success then v.Confirmed? && Committed(w, v.manifest) else v.Failed? || v.Conflicted?
  }

  /** The worker believes that it holds the lease. */
  predicate Holding(w: World, x: string) {
    Active(w, x) && InLease(w.workers[x].phase)
  }

  predicate InLease(phase: Phase) {
    match phase
    case Gathering => true
    case Preparing(_) => true
    case Uploading(_, _, _, _) => true
    case Committing(_, _, _) => true
    case Confirming(_) => true
    case Recording(_) => true
    case Merging(_, _, _) => true
    case Storing(_, _, _, _, _) => true
    case _ => false
  }

  ghost predicate Unheld(w: World, generation: nat) {
    forall x :: Holding(w, x) ==> w.workers[x].lease != generation
  }

  /** Whoever holds the lease owns the lease object. */
  ghost predicate Exclusive(w: World) {
    forall x :: Holding(w, x) ==>
      Lease in w.bucket.objects && w.bucket.objects[Lease] == Object(LeaseBody(x), w.workers[x].lease)
  }

  /** If the object is still the one of that generation, it has that content. */
  ghost predicate Known(b: Bucket, name: Name, generation: nat, content: Content) {
    && 0 < generation < b.next
    && (name in b.objects && b.objects[name].generation == generation ==> b.objects[name].content == content)
  }

  ghost predicate BaseOk(b: Bucket, base: Option<Commit>) {
    base != None ==> Known(b, CurrentManifest, base.value.generation, ManifestBody(base.value.manifest))
  }

  ghost predicate ProposalOk(c: Config, b: Bucket, m: Manifest, base: Option<Commit>) {
    && BaseOk(b, base)
    && Resolves(c, b, m)
    && m.generationID != ""
    && m.previousGenerationID == if base == None then "" else base.value.manifest.generationID
  }

  predicate Describes(c: Config, f: File, o: Output) {
    f.path == o.path && f.size == |o.data| && f.sha256 == c.sha(o.data)
  }

  /** The file entries are those of the outputs: all of them, and no others. */
  ghost predicate ListsAll(c: Config, files: seq<File>, outputs: seq<Output>) {
    && |files| == |outputs|
    && (forall o :: o in outputs ==> Listed(c, files, o))
    && (forall f :: f in files ==> Asked(c, outputs, f))
  }

  ghost predicate Listed(c: Config, files: seq<File>, o: Output) {
    exists f :: f in files && Describes(c, f, o)
  }

  ghost predicate Asked(c: Config, outputs: seq<Output>, f: File) {
    exists o :: o in outputs && Describes(c, f, o)
  }

  ghost predicate ReceiptsOk(b: Bucket, prior: Option<nat>, sources: Receipts) {
    if prior == None then sources == map[] else Known(b, SourceStatus, prior.value, ReceiptsBody(sources))
  }

  ghost predicate RequestOk(c: Config, w: World, r: Request) {
    match r
    case CreateLease(_) => true
    case Reclaim(_, generation, holder) =>
      && Known(w.bucket, Lease, generation, LeaseBody(holder)) && ExecutionBelongsToJob(holder, c.job)
      && (c.sound ==> Unheld(w, generation))
    case Release(author, generation) =>
      Known(w.bucket, Lease, generation, LeaseBody(author)) && Unheld(w, generation)
    case Upload(_, _, _) => true
    case Publish(_, manifest, base, outputs) =>
      ProposalOk(c, w.bucket, manifest, base) && ListsAll(c, manifest.files, outputs)
    case Record(author, prior, before, after, snapshots, current, success, now) =>
      && ReceiptsOk(w.bucket, prior, before)
      && after == Merged(before, snapshots, current, success, now)
      && EntitledTo(w, author, success)
  }

  ghost predicate LeaseOk(w: World, x: string, worker: Worker) {
    Known(w.bucket, Lease, worker.lease, LeaseBody(x))
  }

  /** No running execution but `holder` holds the lease of that generation. */
  ghost predicate HeldAtMostBy(w: World, generation: nat, holder: string) {
    forall x :: Holding(w, x) && w.workers[x].lease == generation ==> x == holder
  }

  ghost predicate WorkerOk(c: Config, w: World, x: string, worker: Worker) {
    && worker.lease < w.bucket.next
    && (worker.verdict.Confirmed? ==> Committed(w, worker.verdict.manifest))
    && match worker.phase
       case Starting => worker.verdict.Undecided?
       case Contending => worker.verdict.Undecided?
       case Retrying => worker.verdict.Undecided?
       case Probing(generation, holder) =>
         && worker.verdict.Undecided? && ExecutionBelongsToJob(holder, c.job)
         && Known(w.bucket, Lease, generation, LeaseBody(holder)) && HeldAtMostBy(w, generation, holder)
       case Reclaiming(generation, holder) =>
         worker.verdict.Undecided? && RequestOk(c, w, Reclaim(x, generation, holder))
       case Gathering => worker.verdict.Undecided? && LeaseOk(w, x, worker)
       case Preparing(base) => worker.verdict.Undecided? && LeaseOk(w, x, worker) && BaseOk(w.bucket, base)
       case Uploading(base, manifest, outputs, done) =>
         && worker.verdict.Undecided? && LeaseOk(w, x, worker) && ProposalOk(c, w.bucket, manifest, base)
         && done <= |outputs| && ListsAll(c, manifest.files, outputs[..done])
       case Committing(base, manifest, outputs) =>
         && worker.verdict.Undecided? && LeaseOk(w, x, worker)
         && RequestOk(c, w, Publish(x, manifest, base, outputs))
       case Confirming(manifest) => worker.verdict.Undecided? && LeaseOk(w, x, worker)
       case Recording(attempt) => LeaseOk(w, x, worker) && Settled(worker.verdict) && attempt < RECEIPT_ATTEMPTS
       case Merging(attempt, prior, sources) =>
         && LeaseOk(w, x, worker) && Settled(worker.verdict) && attempt < RECEIPT_ATTEMPTS
         && ReceiptsOk(w.bucket, prior, sources)
       case Storing(attempt, prior, sources, _, _) =>
         && LeaseOk(w, x, worker) && Settled(worker.verdict) && attempt < RECEIPT_ATTEMPTS
         && ReceiptsOk(w.bucket, prior, sources)
       case Releasing(attempt) => LeaseOk(w, x, worker) && !worker.verdict.Undecided? && attempt < RELEASE_ATTEMPTS
       case Finished => true
  }

  /** The verdicts that allow a run to write receipts. */
  predicate Settled(v: Verdict) {
    v.Confirmed? || v.Failed? || v.Conflicted?
  }

  /** No two workers ever got the same lease. */
  ghost predicate OneLeaseEach(w: World) {
    forall x, y :: x in w.workers && y in w.workers && x != y && w.workers[x].lease != 0 ==>
      w.workers[x].lease != w.workers[y].lease
  }

  ghost predicate StoreOk(c: Config, w: World) {
    ValidBucket(w.bucket) && Chain(w) && AllResolve(c, w) && Landings(w)
  }

  ghost predicate WorkersOk(c: Config, w: World) {
    && (forall x :: x in w.workers ==> WorkerOk(c, w, x, w.workers[x]))
    && (forall r :: r in w.late ==> RequestOk(c, w, r))
    && OneLeaseEach(w)
  }

  ghost predicate Inv(c: Config, w: World) {
    StoreOk(c, w) && WorkersOk(c, w) && (c.sound ==> Exclusive(w))
  }

  // ---- What later worlds have in common with earlier ones ----

  ghost predicate StoreGrows(w: World, w': World) {
    && Kept(w.bucket, w'.bucket)
    && (forall id, path :: Generation(id, path) in w.bucket.objects ==>
          Generation(id, path) in w'.bucket.objects
          && w'.bucket.objects[Generation(id, path)] == w.bucket.objects[Generation(id, path)])
    && w.manifests <= w'.manifests
  }

  ghost predicate WorkersGrow(w: World, w': World) {
    && (forall x :: x in w.workers ==>
          && x in w'.workers
          && (!w.workers[x].verdict.Undecided? ==> w'.workers[x].verdict == w.workers[x].verdict))
    && (forall x :: Holding(w', x) ==>
          (Holding(w, x) && w'.workers[x].lease == w.workers[x].lease) || w'.workers[x].lease >= w.bucket.next)
  }

  ghost predicate Grows(w: World, w': World) {
    StoreGrows(w, w') && WorkersGrow(w, w')
  }

  lemma CommittedStays(w: World, w': World, m: Manifest)
    requires w.manifests <= w'.manifests && Committed(w, m)
    ensures Committed(w', m)
  {
    var commit :| commit in w.manifests && commit.manifest == m;
    var i :| 0 <= i < |w.manifests| && w.manifests[i] == commit;
    assert w'.manifests[i] == commit;
  }

  lemma EntitledStays(w: World, w': World, x: string, success: bool)
    requires Grows(w, w') && EntitledTo(w, x, success)
    ensures EntitledTo(w', x, success)
  {
    if success {
      CommittedStays(w, w', w.workers[x].verdict.manifest);
    }
  }

  lemma ResolvesStays(c: Config, w: World, w': World, m: Manifest)
    requires StoreGrows(w, w') && Resolves(c, w.bucket, m)
    ensures Resolves(c, w'.bucket, m)
  {
    forall f | f in m.files ensures EntryResolves(c, w'.bucket, m.generationID, f) {
      assert EntryResolves(c, w.bucket, m.generationID, f);
    }
  }

  lemma ProposalStays(c: Config, w: World, w': World, m: Manifest, base: Option<Commit>)
    requires StoreGrows(w, w') && ProposalOk(c, w.bucket, m, base)
    ensures ProposalOk(c, w'.bucket, m, base)
  {
    ResolvesStays(c, w, w', m);
  }

  lemma RequestStays(c: Config, w: World, w': World, r: Request)
    requires Grows(w, w') && RequestOk(c, w, r)
    ensures RequestOk(c, w', r)
  {
    match r
    case Publish(_, manifest, base, _) => ProposalStays(c, w, w', manifest, base);
    case Record(author, _, _, _, _, _, success, _) => EntitledStays(w, w', author, success);
    case _ =>
  }

  lemma WorkerStays(c: Config, w: World, w': World, x: string, worker: Worker)
    requires Grows(w, w') && WorkerOk(c, w, x, worker)
    ensures WorkerOk(c, w', x, worker)
  {
    if worker.verdict.Confirmed? {
      CommittedStays(w, w', worker.verdict.manifest);
    }
    match worker.phase
    case Reclaiming(generation, holder) => RequestStays(c, w, w', Reclaim(x, generation, holder));
    case Uploading(base, manifest, _, _) => ProposalStays(c, w, w', manifest, base);
    case Committing(base, manifest, _) => ProposalStays(c, w, w', manifest, base);
    case _ =>
  }
}
