/** What holds over every run of any number of workers on one bucket. */
module CloudTheorems {
  import opened Options
  import opened ByteStrings
  import opened ObjectStore
  import opened CloudProtocol
  import opened CloudInvariant
  import opened CloudSteps

  lemma {:induction false} RunKeeps(c: Config, worlds: seq<World>, steps: seq<Step>, i: nat)
    requires Run(c, worlds, steps) && i < |worlds|
    ensures Inv(c, worlds[i])
  {
    hide Inv, After, Enabled, Initial;
    if i == 0 {
      InitialInv(c, worlds[0]);
    } else {
      RunKeeps(c, worlds, steps, i - 1);
      StepKeeps(c, worlds[i - 1], steps[i - 1]);
    }
  }

  lemma InitialInv(c: Config, w: World)
    requires Initial(w)
    ensures Inv(c, w)
  {
  }

  lemma {:induction false} RunGrows(c: Config, worlds: seq<World>, steps: seq<Step>, i: nat, j: nat)
    requires Run(c, worlds, steps) && i <= j < |worlds|
    ensures worlds[i].manifests <= worlds[j].manifests && worlds[i].landings <= worlds[j].landings
  {
    if i < j {
      RunGrows(c, worlds, steps, i, j - 1);
    }
  }

  // ---- Manifests ----

  /** With or without a trustworthy probe: the manifests ever committed form one chain that ends in the current one. */
  lemma ManifestsFormOneChain(c: Config, w: World)
    requires Reachable(c, w)
    ensures CurrentManifest in w.bucket.objects <==> w.manifests != []
    ensures w.manifests != [] ==>
              w.bucket.objects[CurrentManifest].content == ManifestBody(w.manifests[|w.manifests| - 1].manifest)
    ensures w.manifests != [] ==> w.manifests[0].manifest.previousGenerationID == ""
    ensures forall i :: 0 < i < |w.manifests| ==>
              && w.manifests[i].manifest.previousGenerationID == w.manifests[i - 1].manifest.generationID
              && w.manifests[i].manifest.previousGenerationID != ""
  {
    var worlds, steps :| Run(c, worlds, steps) && worlds[|worlds| - 1] == w;
    RunKeeps(c, worlds, steps, |worlds| - 1);
    if w.manifests != [] {
      ChainUnfolds(w);
    }
  }

  lemma ChainUnfolds(w: World)
    requires Chain(w) && w.manifests != []
    ensures w.manifests[0].manifest.previousGenerationID == ""
    ensures forall i :: 0 < i < |w.manifests| ==>
              && w.manifests[i].manifest.previousGenerationID == w.manifests[i - 1].manifest.generationID
              && w.manifests[i].manifest.previousGenerationID != ""
  {
    assert Links(w.manifests, 0);
    forall i | 0 < i < |w.manifests|
      ensures w.manifests[i].manifest.previousGenerationID == w.manifests[i - 1].manifest.generationID
      ensures w.manifests[i].manifest.previousGenerationID != ""
    {
      assert Links(w.manifests, i) && Links(w.manifests, i - 1);
    }
  }

  function CurrentID(b: Bucket): string {
    if CurrentManifest in b.objects && b.objects[CurrentManifest].content.ManifestBody?
    then b.objects[CurrentManifest].content.manifest.generationID
    else ""
  }

  /** A step that changes the current manifest puts one in its place that names the one it overwrote. */
  lemma CommitNamesWhatItOverwrites(c: Config, worlds: seq<World>, steps: seq<Step>, i: nat)
    requires Run(c, worlds, steps) && i < |steps|
    ensures var old_, new_ := worlds[i].bucket.objects, worlds[i + 1].bucket.objects;
            (CurrentManifest in old_ ==> CurrentManifest in new_)
            && (CurrentManifest in new_ && (CurrentManifest in old_ ==> new_[CurrentManifest] != old_[CurrentManifest]) ==>
                  && new_[CurrentManifest].content.ManifestBody?
                  && new_[CurrentManifest].content.manifest.previousGenerationID == CurrentID(worlds[i].bucket))
  {
    hide After, Enabled, Resolves, Landings, WorkersOk, Exclusive;
    RunKeeps(c, worlds, steps, i);
    RunKeeps(c, worlds, steps, i + 1);
    RunSteps(c, worlds, steps, i);
    var w, w' := worlds[i], worlds[i + 1];
    MaybeOneCommit(c, w, steps[i]);
    if w'.manifests != w.manifests {
      assert Links(w'.manifests, |w.manifests|);
    }
  }

  lemma MaybeOneCommit(c: Config, w: World, step: Step)
    requires Enabled(c, w, step)
    ensures |w.manifests| <= |After(c, w, step).manifests| <= |w.manifests| + 1
    ensures w.manifests <= After(c, w, step).manifests
  {
  }

  /** Every file entry of a manifest that was ever current resolves as recorded, then and ever after. */
  lemma CommittedFilesResolve(c: Config, worlds: seq<World>, steps: seq<Step>, i: nat, j: nat, f: File)
    requires Run(c, worlds, steps) && i <= j < |worlds|
    requires CurrentManifest in worlds[i].bucket.objects && worlds[i].bucket.objects[CurrentManifest].content.ManifestBody?
    requires f in worlds[i].bucket.objects[CurrentManifest].content.manifest.files
    ensures EntryResolves(c, worlds[j].bucket, worlds[i].bucket.objects[CurrentManifest].content.manifest.generationID, f)
  {
    RunKeeps(c, worlds, steps, i);
    RunKeeps(c, worlds, steps, j);
    RunGrows(c, worlds, steps, i, j);
    var n := |worlds[i].manifests|;
    assert worlds[j].manifests[n - 1] == worlds[i].manifests[n - 1];
    assert worlds[j].manifests[n - 1] in worlds[j].manifests;
  }

  /** A manifest that becomes current lists exactly the outputs of the run that proposed it. */
  lemma CommitListsItsOutputs(c: Config, worlds: seq<World>, steps: seq<Step>, i: nat)
    requires Run(c, worlds, steps) && i < |steps| && worlds[i + 1].manifests != worlds[i].manifests
    ensures var r := ServedBy(worlds[i], steps[i]);
            && r != None && r.value.Publish? && ListsAll(c, r.value.manifest.files, r.value.outputs)
            && CurrentManifest in worlds[i + 1].bucket.objects
            && worlds[i + 1].bucket.objects[CurrentManifest].content == ManifestBody(r.value.manifest)
  {
    hide Inv, Enabled, ListsAll;
    RunKeeps(c, worlds, steps, i);
    RunSteps(c, worlds, steps, i);
    OnlyPublishCommits(c, worlds[i], steps[i]);
    ServedByOk(c, worlds[i], steps[i]);
  }

  lemma OnlyPublishCommits(c: Config, w: World, step: Step)
    requires Enabled(c, w, step) && After(c, w, step).manifests != w.manifests
    ensures var r := ServedBy(w, step);
            && r != None && r.value.Publish? && CurrentManifest in After(c, w, step).bucket.objects
            && After(c, w, step).bucket.objects[CurrentManifest].content == ManifestBody(r.value.manifest)
  {
  }

  // ---- The lease ----

  /** With a sound probe, at most one running worker believes that it holds the lease, and it does. */
  lemma OneHolder(c: Config, w: World, x: string, y: string)
    requires c.sound && Reachable(c, w) && Holding(w, x) && Holding(w, y)
    ensures x == y
    ensures Lease in w.bucket.objects && w.bucket.objects[Lease] == Object(LeaseBody(x), w.workers[x].lease)
  {
    var worlds, steps :| Run(c, worlds, steps) && worlds[|worlds| - 1] == w;
    RunKeeps(c, worlds, steps, |worlds| - 1);
  }

  /** The request, if any, that a step has the store serve. */
  function ServedBy(w: World, step: Step): Option<Request> {
    match step
    case Call(x) => if x in w.workers then Pending(x, w.workers[x]) else None
    case Deliver(r) => Some(r)
    case _ => None
  }

  /**
   * A lease object only ever goes away by its own creator's release, or by a reclaim whose issuer had read that very
   * object and found its holder to be a dead execution of this job; it is never replaced in one step.
   */
  lemma LeaseGoesByItsOwnDelete(c: Config, worlds: seq<World>, steps: seq<Step>, i: nat)
    requires Run(c, worlds, steps) && i < |steps|
    requires Lease in worlds[i].bucket.objects
    ensures var w, w' := worlds[i], worlds[i + 1];
            var lease := w.bucket.objects[Lease];
            || (Lease in w'.bucket.objects && w'.bucket.objects[Lease] == lease)
            || (&& Lease !in w'.bucket.objects && lease.content.LeaseBody?
                && var r := ServedBy(w, steps[i]);
                r != None && match r.value {
                  case Release(author, generation) => lease == Object(LeaseBody(author), generation)
                  case Reclaim(_, generation, holder) =>
                    && lease == Object(LeaseBody(holder), generation) && ExecutionBelongsToJob(holder, c.job)
                    && (c.sound ==> Unheld(w, generation))
                  case _ => false
                })
  {
    var w, step := worlds[i], steps[i];
    RunKeeps(c, worlds, steps, i);
    var r := ServedBy(w, step);
    if r != None {
      ServedByOk(c, w, step);
      LeaseServed(c, w, r.value);
    }
  }

  lemma ServedByOk(c: Config, w: World, step: Step)
    requires Inv(c, w) && Enabled(c, w, step) && ServedBy(w, step) != None
    ensures RequestOk(c, w, ServedBy(w, step).value)
    ensures After(c, w, step).bucket == Served(w, ServedBy(w, step).value).bucket
    ensures After(c, w, step).landings == Served(w, ServedBy(w, step).value).landings
  {
    if step.Call? {
      PendingOk(c, w, step.x);
    }
  }

  lemma LeaseServed(c: Config, w: World, r: Request)
    requires Lease in w.bucket.objects && RequestOk(c, w, r)
    ensures var w' := Served(w, r);
            || (Lease in w'.bucket.objects && w'.bucket.objects[Lease] == w.bucket.objects[Lease])
            || (&& Lease !in w'.bucket.objects
                && match r {
                  case Release(author, generation) => w.bucket.objects[Lease] == Object(LeaseBody(author), generation)
                  case Reclaim(_, generation, holder) =>
                    && w.bucket.objects[Lease] == Object(LeaseBody(holder), generation)
                    && ExecutionBelongsToJob(holder, c.job) && (c.sound ==> Unheld(w, generation))
                  case _ => false
                })
  {
  }

  // ---- Receipts ----

  /** The runs between two worlds that recorded something for a source. */
  ghost predicate RecordedBetween(worlds: seq<World>, i: nat, j: nat, id: string, success: bool)
    requires i <= j < |worlds|
  {
    exists k :: |worlds[i].landings| <= k < |worlds[j].landings| && LandingTouches(worlds[j].landings[k], id, success)
  }

  ghost predicate LandingTouches(l: Landing, id: string, success: bool) {
    l.request.Record? && Touches(l.request.snapshots, l.request.current, id) && (success ==> l.request.success)
  }

  /**
   * However merges interleave, a source's receipt is what the last run that recorded it wrote: nobody else changes it,
   * and failed runs never change its last-ingested fields.
   */
  lemma {:induction false} ReceiptsAreNeverLost(c: Config, worlds: seq<World>, steps: seq<Step>, i: nat, j: nat, id: string)
    requires Run(c, worlds, steps) && i <= j < |worlds|
    ensures !RecordedBetween(worlds, i, j, id, false) ==>
              && (id in SourcesIn(worlds[j].bucket) <==> id in SourcesIn(worlds[i].bucket))
              && ReceiptOf(SourcesIn(worlds[j].bucket), id) == ReceiptOf(SourcesIn(worlds[i].bucket), id)
    ensures !RecordedBetween(worlds, i, j, id, true) ==>
              LastIngested(ReceiptOf(SourcesIn(worlds[j].bucket), id))
              == LastIngested(ReceiptOf(SourcesIn(worlds[i].bucket), id))
  {
    hide Run, Inv, After, Enabled, LastIngested, SourcesIn, ReceiptOf, LandingTouches;
    if i < j {
      var w, w' := worlds[j - 1], worlds[j];
      RunSteps(c, worlds, steps, j - 1);
      ReceiptsAreNeverLost(c, worlds, steps, i, j - 1, id);
      RunKeeps(c, worlds, steps, j - 1);
      RunGrows(c, worlds, steps, i, j - 1);
      RunGrows(c, worlds, steps, j - 1, j);
      StepReceipts(c, w, steps[j - 1], id);
      LongerRecords(worlds, i, j, id, false);
      LongerRecords(worlds, i, j, id, true);
    }
  }

  lemma RunSteps(c: Config, worlds: seq<World>, steps: seq<Step>, i: nat)
    requires Run(c, worlds, steps) && i + 1 < |worlds|
    ensures i < |steps| && Enabled(c, worlds[i], steps[i]) && worlds[i + 1] == After(c, worlds[i], steps[i])
  {
  }

  lemma LongerRecords(worlds: seq<World>, i: nat, j: nat, id: string, success: bool)
    requires i < j < |worlds| && worlds[j - 1].landings <= worlds[j].landings
    ensures RecordedBetween(worlds, i, j - 1, id, success) ==> RecordedBetween(worlds, i, j, id, success)
  {
    if RecordedBetween(worlds, i, j - 1, id, success) {
      var k :| |worlds[i].landings| <= k < |worlds[j - 1].landings| && LandingTouches(worlds[j - 1].landings[k], id, success);
      assert LandingTouches(worlds[j].landings[k], id, success);
    }
  }

  lemma StepReceipts(c: Config, w: World, step: Step, id: string)
    requires Inv(c, w) && Enabled(c, w, step)
    ensures var w' := After(c, w, step);
            var before, after := SourcesIn(w.bucket), SourcesIn(w'.bucket);
            && |w'.landings| >= |w.landings|
            && (|w'.landings| == |w.landings| ==> after == before)
            && (|w'.landings| > |w.landings| ==>
                  var l := w'.landings[|w.landings|];
                  && (!LandingTouches(l, id, false) ==>
                        (id in after <==> id in before) && ReceiptOf(after, id) == ReceiptOf(before, id))
                  && (!LandingTouches(l, id, true) ==>
                        LastIngested(ReceiptOf(after, id)) == LastIngested(ReceiptOf(before, id))))
  {
    var r := ServedBy(w, step);
    if r != None {
      ServedByOk(c, w, step);
      ServedReceipts(c, w, r.value, id);
    }
  }

  lemma ServedReceipts(c: Config, w: World, r: Request, id: string)
    requires RequestOk(c, w, r)
    ensures var w' := Served(w, r);
            var before, after := SourcesIn(w.bucket), SourcesIn(w'.bucket);
            && w.landings <= w'.landings
            && (|w'.landings| == |w.landings| ==> after == before)
            && (|w'.landings| > |w.landings| ==>
                  var l := w'.landings[|w.landings|];
                  && (!LandingTouches(l, id, false) ==>
                        (id in after <==> id in before) && ReceiptOf(after, id) == ReceiptOf(before, id))
                  && (!LandingTouches(l, id, true) ==>
                        LastIngested(ReceiptOf(after, id)) == LastIngested(ReceiptOf(before, id))))
  {
    if r.Record? && Accepts(w.bucket, OperationOf(r)) {
      RecordHits(c, w, r);
      MergedKeeps(r.before, r.snapshots, r.current, r.success, r.now, id);
    }
  }

  /** Receipts written or still on their way, by the author's verdict on its own commit. */
  lemma ReceiptsNeedAVerdict(c: Config, w: World, r: Request)
    requires Reachable(c, w) && r.Record?
    requires r in w.late || exists l :: l in w.landings && l.request == r
    ensures r.author in w.workers
    ensures !w.workers[r.author].verdict.Unknown? && !w.workers[r.author].verdict.Undecided?
    ensures r.success <==> w.workers[r.author].verdict.Confirmed?
    ensures r.success ==> Committed(w, w.workers[r.author].verdict.manifest)
  {
    var worlds, steps :| Run(c, worlds, steps) && worlds[|worlds| - 1] == w;
    RunKeeps(c, worlds, steps, |worlds| - 1);
    if r !in w.late {
      var l :| l in w.landings && l.request == r;
      assert LandingOk(w, l);
    } else {
      assert RequestOk(c, w, r);
    }
  }

  /** A run that saw its commit confirmed is in the chain, and all its files resolve. */
  lemma ConfirmedIsCommitted(c: Config, w: World, x: string)
    requires Reachable(c, w) && x in w.workers && w.workers[x].verdict.Confirmed?
    ensures Committed(w, w.workers[x].verdict.manifest)
    ensures Resolves(c, w.bucket, w.workers[x].verdict.manifest)
  {
    var worlds, steps :| Run(c, worlds, steps) && worlds[|worlds| - 1] == w;
    RunKeeps(c, worlds, steps, |worlds| - 1);
    assert WorkerOk(c, w, x, w.workers[x]);
  }

  /** Receipts are tried three times at most, and so is the release of the lease. */
  lemma AttemptsAreBounded(c: Config, w: World, x: string)
    requires Reachable(c, w) && x in w.workers
    ensures match w.workers[x].phase
            case Recording(attempt) => attempt < 3
            case Merging(attempt, _, _) => attempt < 3
            case Storing(attempt, _, _, _, _) => attempt < 3
            case Releasing(attempt) => attempt < 3
            case _ => true
  {
    hide StoreOk, Exclusive;
    var worlds, steps :| Run(c, worlds, steps) && worlds[|worlds| - 1] == w;
    RunKeeps(c, worlds, steps, |worlds| - 1);
    assert WorkerOk(c, w, x, w.workers[x]);
  }

  // ---- What a conflict does not tell ----

  const LONE := "job-1"
  const LONE_MANIFEST := Manifest("g_1", "", "", "", [])

  /** The lone worker's run: its commit fails without an answer, and the read-back comes before the commit lands. */
  function LoneSteps(): seq<Step> {
    [Start(LONE), Call(LONE), Read(LONE), Choose(LONE, Generate("g_1", "", "", [])), Choose(LONE, Seal([])),
     Break(LONE), Read(LONE), Deliver(Publish(LONE, LONE_MANIFEST, None, []))]
  }

  function LoneWorld(n: nat): World
    requires n <= 8
  {
    var lease := Object(LeaseBody(LONE), 1);
    var bucket := if n < 2 then Bucket(map[], 1) else Bucket(map[Lease := lease], 2);
    var draft := Uploading(None, LONE_MANIFEST, [], 0);
    var worker :=
      if n == 1 then Worker(Starting, 0, [], Undecided)
      else if n == 2 then Worker(Gathering, 1, [], Undecided)
      else if n == 3 then Worker(Preparing(None), 1, [], Undecided)
      else if n == 4 then Worker(draft, 1, [], Undecided)
      else if n == 5 then Worker(Committing(None, LONE_MANIFEST, []), 1, [], Undecided)
      else if n == 6 then Worker(Confirming(LONE_MANIFEST), 1, [], Undecided)
      else Worker(Recording(0), 1, [], Conflicted(LONE_MANIFEST));
    var late := if n < 6 then {} else {Publish(LONE, LONE_MANIFEST, None, [])};
    if n == 0 then World(bucket, map[], {}, {}, [], [])
    else if n < 8 then World(bucket, map[LONE := worker], {LONE}, late, [], [])
    else
      World(Bucket(map[Lease := lease, CurrentManifest := Object(ManifestBody(LONE_MANIFEST), 2)], 3),
            map[LONE := worker], {LONE}, late, [Commit(LONE_MANIFEST, 2)], [])
  }

  lemma LoneAcquires(c: Config, n: nat)
    requires n < 4
    ensures Enabled(c, LoneWorld(n), LoneSteps()[n])
    ensures LoneWorld(n + 1) == After(c, LoneWorld(n), LoneSteps()[n])
  {
  }

  lemma LoneCommits(c: Config, n: nat)
    requires 4 <= n < 8
    ensures Enabled(c, LoneWorld(n), LoneSteps()[n])
    ensures LoneWorld(n + 1) == After(c, LoneWorld(n), LoneSteps()[n])
  {
  }

  lemma LoneStep(c: Config, n: nat)
    requires n < 8
    ensures Enabled(c, LoneWorld(n), LoneSteps()[n])
    ensures LoneWorld(n + 1) == After(c, LoneWorld(n), LoneSteps()[n])
  {
    hide LoneWorld, LoneSteps, After, Enabled;
    if n < 4 {
      LoneAcquires(c, n);
    } else {
      LoneCommits(c, n);
    }
  }

  /**
   * Even a lone worker with a sound probe can be told of a conflict, and go on to write failure receipts, although its
   * manifest becomes the current one: a conflict verdict is no proof that nothing was committed.
   */
  lemma ConflictCanBeCommitted(c: Config)
    ensures exists w :: Reachable(c, w) && LONE in w.workers && w.workers[LONE].verdict == Conflicted(LONE_MANIFEST)
              && CurrentManifest in w.bucket.objects && w.bucket.objects[CurrentManifest].content == ManifestBody(LONE_MANIFEST)
  {
    var worlds := seq(9, n requires 0 <= n < 9 => LoneWorld(n));
    forall i | 0 <= i < 8 ensures Enabled(c, worlds[i], LoneSteps()[i]) && worlds[i + 1] == After(c, worlds[i], LoneSteps()[i]) {
      LoneStep(c, i);
    }
    hide After, Enabled;
    assert Run(c, worlds, LoneSteps());
    assert Reachable(c, LoneWorld(8));
  }
}
