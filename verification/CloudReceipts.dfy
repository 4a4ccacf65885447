/** What has become of the receipts when a worker lets go of the lease, in every run. */
module CloudReceipts {
  import opened Options
  import opened ByteStrings
  import opened ObjectStore
  import opened CloudProtocol
  import opened CloudInvariant
  import opened CloudSteps
  import opened CloudTheorems
  import opened CloudConflicts

  // ---- What a step does about the receipts ----

  /** `x` reads the receipts object, successfully or not. */
  predicate LooksUp(w: World, step: Step, x: string) {
    x in w.workers && Reads(w.workers[x]) == Some(SourceStatus) && (step == Read(x) || step == BreakRead(x))
  }

  predicate Writing(w: World, x: string) {
    x in w.workers && Pending(x, w.workers[x]).Some? && Pending(x, w.workers[x]).value.Record?
  }

  /** The receipts that `x` writes take effect: they tell of all its snapshots, as a success or as a failure. */
  predicate Lands(w: World, step: Step, w': World, x: string, snapshots: seq<Snapshot>, success: bool) {
    && step == Call(x) && |w'.landings| == |w.landings| + 1 && w'.landings[..|w.landings|] == w.landings
    && var l := w'.landings[|w.landings|];
       && l.request.Record? && l.request.author == x && l.request.snapshots == snapshots && l.request.success == success
       && SourceStatus in w'.bucket.objects && w'.bucket.objects[SourceStatus].content == ReceiptsBody(l.after)
       && l.after == Merged(l.request.before, snapshots, l.request.current, success, l.request.now)
  }

  /** The receipts object cannot be decoded, or a call for it fails without an answer. */
  predicate Fails(w: World, step: Step, x: string) {
    || (LooksUp(w, step, x) && step == Read(x) && SourceStatus in w.bucket.objects && !w.bucket.objects[SourceStatus].content.ReceiptsBody?)
    || (LooksUp(w, step, x) && step == BreakRead(x))
    || (Writing(w, x) && step == Break(x))
  }

  /** Someone else has written receipts since `x` has read them. */
  predicate Loses(w: World, step: Step, x: string) {
    Writing(w, x) && step == Call(x) && !Accepts(w.bucket, OperationOf(Pending(x, w.workers[x]).value))
  }

  // ---- One step ----

  /** The worker holds the lease and has not come to its receipts. */
  predicate AtWork(phase: Phase) {
    phase.Gathering? || phase.Preparing? || phase.Uploading? || phase.Committing? || phase.Confirming?
  }

  predicate LetGo(phase: Phase) {
    phase.Releasing? || phase.Finished?
  }

  predicate AtReceipts(phase: Phase) {
    phase.Recording? || phase.Merging? || phase.Storing?
  }

  /** What may follow on what, for a worker that has the lease, and at what price. */
  ghost predicate Follows(w: World, step: Step, w': World, x: string)
    requires x in w.workers && x in w'.workers
  {
    var p, p', worker' := w.workers[x].phase, w'.workers[x].phase, w'.workers[x];
    && (AtWork(p) ==> AtWork(p') || p' == Recording(0) || (LetGo(p') && worker'.verdict.Unknown?))
    && (!AtWork(p) ==> worker'.verdict == w.workers[x].verdict && worker'.snapshots == w.workers[x].snapshots)
    && (p.Recording? ==>
          || p' == p
          || (LooksUp(w, step, x) && ((p'.Merging? && p'.attempt == p.attempt) || (LetGo(p') && Fails(w, step, x)))))
    && (p.Merging? ==> (p'.Merging? || p'.Storing?) && p'.attempt == p.attempt)
    && (p.Storing? ==>
          || p' == p
          || (p' == Recording(p.attempt + 1) && p.attempt + 1 < RECEIPT_ATTEMPTS && Loses(w, step, x))
          || (LetGo(p') && p.attempt + 1 >= RECEIPT_ATTEMPTS && Loses(w, step, x))
          || (LetGo(p') && Fails(w, step, x))
          || (LetGo(p') && Lands(w, step, w', x, w.workers[x].snapshots, w.workers[x].verdict.Confirmed?)))
    && (LetGo(p) ==> LetGo(p'))
  }

  lemma StepFollows(c: Config, w: World, step: Step, x: string)
    requires Enabled(c, w, step) && x in w.workers
    requires var p := w.workers[x].phase; AtWork(p) || AtReceipts(p) || LetGo(p)
    ensures x in After(c, w, step).workers && Follows(w, step, After(c, w, step), x)
  {
    hide Merged;
    if !Own(step, x) {
      OthersLeave(c, w, step, x);
    } else if w.workers[x].phase.Storing? && step == Call(x) {
      StoringCalled(c, w, x);
    }
  }

  lemma StoringCalled(c: Config, w: World, x: string)
    requires Enabled(c, w, Call(x)) && w.workers[x].phase.Storing?
    ensures x in After(c, w, Call(x)).workers && Follows(w, Call(x), After(c, w, Call(x)), x)
  {
    hide Merged;
  }

  // ---- A whole run ----

  ghost predicate Span(worlds: seq<World>, steps: seq<Step>, i: nat, j: nat) {
    i <= j < |worlds| && |worlds| == |steps| + 1
  }

  /** Between worlds `i` and `j`, `x` has looked the receipts up. */
  ghost predicate LookedUp(worlds: seq<World>, steps: seq<Step>, i: nat, j: nat, x: string)
    requires Span(worlds, steps, i, j)
  {
    exists k :: i <= k < j && LooksUp(worlds[k], steps[k], x)
  }

  /** `n` times `x` has lost a race for the receipts. */
  ghost predicate LostTimes(worlds: seq<World>, steps: seq<Step>, i: nat, j: nat, x: string, n: nat)
    requires Span(worlds, steps, i, j)
  {
    exists ks: seq<nat> ::
      && |ks| == n && (forall a, b :: 0 <= a < b < n ==> ks[a] < ks[b])
      && forall a :: 0 <= a < n ==> i <= ks[a] < j && Loses(worlds[ks[a]], steps[ks[a]], x)
  }

  /** The receipts have been written, or there is a reason why they could not be. */
  ghost predicate Accounted(worlds: seq<World>, steps: seq<Step>, i: nat, j: nat, x: string, snapshots: seq<Snapshot>, success: bool)
    requires Span(worlds, steps, i, j)
  {
    || (exists k :: i <= k < j && Lands(worlds[k], steps[k], worlds[k + 1], x, snapshots, success))
    || (exists k :: i <= k < j && Fails(worlds[k], steps[k], x))
    || LostTimes(worlds, steps, i, j, x, RECEIPT_ATTEMPTS)
  }

  ghost predicate Told(worlds: seq<World>, steps: seq<Step>, i: nat, j: nat, x: string)
    requires Span(worlds, steps, i, j)
  {
    && x in worlds[j].workers
    && var worker := worlds[j].workers[x];
       var p := worker.phase;
       && (AtWork(p) || AtReceipts(p) || LetGo(p))
       && (p.Recording? ==> LostTimes(worlds, steps, i, j, x, p.attempt) && (p.attempt > 0 ==> LookedUp(worlds, steps, i, j, x)))
       && (p.Merging? ==> LostTimes(worlds, steps, i, j, x, p.attempt) && LookedUp(worlds, steps, i, j, x))
       && (p.Storing? ==> LostTimes(worlds, steps, i, j, x, p.attempt) && LookedUp(worlds, steps, i, j, x))
       && (LetGo(p) ==>
             || worker.verdict.Unknown?
             || (LookedUp(worlds, steps, i, j, x)
                 && Accounted(worlds, steps, i, j, x, worker.snapshots, worker.verdict.Confirmed?)))
  }

  lemma LookedUpLater(worlds: seq<World>, steps: seq<Step>, i: nat, j: nat, x: string)
    requires Span(worlds, steps, i, j) && j < |steps|
    ensures LookedUp(worlds, steps, i, j, x) || LooksUp(worlds[j], steps[j], x) ==> LookedUp(worlds, steps, i, j + 1, x)
  {
    hide LooksUp;
  }

  lemma LostLater(worlds: seq<World>, steps: seq<Step>, i: nat, j: nat, x: string, n: nat)
    requires Span(worlds, steps, i, j) && j < |steps| && LostTimes(worlds, steps, i, j, x, n)
    ensures LostTimes(worlds, steps, i, j + 1, x, n)
    ensures Loses(worlds[j], steps[j], x) ==> LostTimes(worlds, steps, i, j + 1, x, n + 1)
  {
    hide Loses;
    var ks: seq<nat> :| |ks| == n && (forall a, b :: 0 <= a < b < n ==> ks[a] < ks[b])
                        && forall a :: 0 <= a < n ==> i <= ks[a] < j && Loses(worlds[ks[a]], steps[ks[a]], x);
    if Loses(worlds[j], steps[j], x) {
      var more := ks + [j];
      assert |more| == n + 1 && forall a, b :: 0 <= a < b < n + 1 ==> more[a] < more[b];
      assert forall a :: 0 <= a < n + 1 ==> i <= more[a] < j + 1 && Loses(worlds[more[a]], steps[more[a]], x);
    }
  }

  lemma AccountedLater(worlds: seq<World>, steps: seq<Step>, i: nat, j: nat, x: string, snapshots: seq<Snapshot>, success: bool)
    requires Span(worlds, steps, i, j) && j < |steps|
    requires || Accounted(worlds, steps, i, j, x, snapshots, success) || Fails(worlds[j], steps[j], x)
             || Lands(worlds[j], steps[j], worlds[j + 1], x, snapshots, success)
    ensures Accounted(worlds, steps, i, j + 1, x, snapshots, success)
  {
    hide Fails, Lands, LostTimes;
    if LostTimes(worlds, steps, i, j, x, RECEIPT_ATTEMPTS) {
      LostLater(worlds, steps, i, j, x, RECEIPT_ATTEMPTS);
    }
  }

  lemma ToldOn(worlds: seq<World>, steps: seq<Step>, i: nat, j: nat, x: string)
    requires Span(worlds, steps, i, j) && j < |steps| && Told(worlds, steps, i, j, x)
    requires x in worlds[j + 1].workers && Follows(worlds[j], steps[j], worlds[j + 1], x)
    requires worlds[j].workers[x].phase.Storing? ==> worlds[j].workers[x].phase.attempt < RECEIPT_ATTEMPTS
    ensures Told(worlds, steps, i, j + 1, x)
  {
    hide Fails, Lands, LostTimes, Loses, LooksUp, LookedUp, Accounted;
    var worker, worker' := worlds[j].workers[x], worlds[j + 1].workers[x];
    var p, p' := worker.phase, worker'.phase;
    LookedUpLater(worlds, steps, i, j, x);
    if AtWork(p) {
      if p' == Recording(0) {
        NoneLost(worlds, steps, i, j + 1, x);
      }
    } else if LetGo(p) {
      if !worker.verdict.Unknown? {
        AccountedLater(worlds, steps, i, j, x, worker'.snapshots, worker'.verdict.Confirmed?);
      }
    } else {
      LostLater(worlds, steps, i, j, x, p.attempt);
      if LetGo(p') {
        if Fails(worlds[j], steps[j], x) || Lands(worlds[j], steps[j], worlds[j + 1], x, worker.snapshots, worker.verdict.Confirmed?) {
          AccountedLater(worlds, steps, i, j, x, worker'.snapshots, worker'.verdict.Confirmed?);
        } else {
          LostOut(worlds, steps, i, j + 1, x, worker'.snapshots, worker'.verdict.Confirmed?);
        }
      }
    }
  }

  lemma NoneLost(worlds: seq<World>, steps: seq<Step>, i: nat, j: nat, x: string)
    requires Span(worlds, steps, i, j)
    ensures LostTimes(worlds, steps, i, j, x, 0)
  {
    var ks: seq<nat> := [];
    assert |ks| == 0;
  }

  lemma LostOut(worlds: seq<World>, steps: seq<Step>, i: nat, j: nat, x: string, snapshots: seq<Snapshot>, success: bool)
    requires Span(worlds, steps, i, j) && LostTimes(worlds, steps, i, j, x, RECEIPT_ATTEMPTS)
    ensures Accounted(worlds, steps, i, j, x, snapshots, success)
  {
  }

  lemma {:induction false} RunTells(c: Config, worlds: seq<World>, steps: seq<Step>, i: nat, j: nat, x: string)
    requires Run(c, worlds, steps) && Span(worlds, steps, i, j) && x in worlds[i].workers && AtWork(worlds[i].workers[x].phase)
    ensures Told(worlds, steps, i, j, x)
    decreases j - i
  {
    hide Told, Follows, After, Enabled, Initial;
    if i == j {
      AtWorkIsTold(worlds, steps, i, x);
    } else {
      RunTells(c, worlds, steps, i, j - 1, x);
      RunSteps(c, worlds, steps, j - 1);
      ToldIsThere(worlds, steps, i, j - 1, x);
      StepFollows(c, worlds[j - 1], steps[j - 1], x);
      RunKeeps(c, worlds, steps, j - 1);
      AttemptBounded(c, worlds[j - 1], x);
      ToldOn(worlds, steps, i, j - 1, x);
    }
  }

  lemma AttemptBounded(c: Config, w: World, x: string)
    requires Inv(c, w) && x in w.workers
    ensures w.workers[x].phase.Storing? ==> w.workers[x].phase.attempt < RECEIPT_ATTEMPTS
  {
    hide StoreOk, Exclusive, LeaseOk, ReceiptsOk, ProposalOk, Committed;
    assert WorkerOk(c, w, x, w.workers[x]);
  }

  lemma AtWorkIsTold(worlds: seq<World>, steps: seq<Step>, i: nat, x: string)
    requires Span(worlds, steps, i, i) && x in worlds[i].workers && AtWork(worlds[i].workers[x].phase)
    ensures Told(worlds, steps, i, i, x)
  {
  }

  lemma ToldIsThere(worlds: seq<World>, steps: seq<Step>, i: nat, j: nat, x: string)
    requires Span(worlds, steps, i, j) && Told(worlds, steps, i, j, x)
    ensures x in worlds[j].workers
    ensures var p := worlds[j].workers[x].phase; AtWork(p) || AtReceipts(p) || LetGo(p)
  {
  }

  /** A receipts write took effect, for all the snapshots of a run, on top of what was there. */
  predicate Recorded(w: World, step: Step, w': World, x: string, snapshots: seq<Snapshot>, success: bool) {
    && Lands(w, step, w', x, snapshots, success)
    && var l := w'.landings[|w.landings|];
       l.before == SourcesIn(w.bucket) && l.after == Merged(l.before, snapshots, l.request.current, success, l.request.now)
  }

  lemma LandsOnTop(c: Config, worlds: seq<World>, steps: seq<Step>, k: nat, x: string, snapshots: seq<Snapshot>, success: bool)
    requires Run(c, worlds, steps) && k < |steps| && Lands(worlds[k], steps[k], worlds[k + 1], x, snapshots, success)
    ensures Recorded(worlds[k], steps[k], worlds[k + 1], x, snapshots, success)
  {
    hide After, Merged, WorkersOk, Exclusive, Chain, AllResolve;
    RunSteps(c, worlds, steps, k);
    RunKeeps(c, worlds, steps, k + 1);
    var l := worlds[k + 1].landings[|worlds[k].landings|];
    assert l in worlds[k + 1].landings && LandingOk(worlds[k + 1], l);
    CallLands(c, worlds[k], x);
  }

  lemma CallLands(c: Config, w: World, x: string)
    requires Enabled(c, w, Call(x))
    ensures var w' := After(c, w, Call(x));
            |w'.landings| == |w.landings| + 1 ==> w'.landings[|w.landings|].before == SourcesIn(w.bucket)
  {
    hide Merged, Answered;
  }

  /** `x` is about to give the lease back, or has done all that it will. */
  predicate LetsGo(w: World, x: string) {
    && x in w.workers
    && (w.workers[x].phase.Finished? || (Pending(x, w.workers[x]).Some? && Pending(x, w.workers[x]).value.Release?))
  }

  /** Why a run may let go of the lease, or what it has recorded before. */
  ghost predicate Explained(worlds: seq<World>, steps: seq<Step>, i: nat, j: nat, x: string, snapshots: seq<Snapshot>, success: bool)
    requires Span(worlds, steps, i, j)
  {
    || (exists k :: i <= k < j && Recorded(worlds[k], steps[k], worlds[k + 1], x, snapshots, success))
    || (exists k :: i <= k < j && Fails(worlds[k], steps[k], x))
    || (exists k, l, m :: i <= k < l < m < j && Loses(worlds[k], steps[k], x) && Loses(worlds[l], steps[l], x) && Loses(worlds[m], steps[m], x))
  }

  lemma AccountedIsExplained(c: Config, worlds: seq<World>, steps: seq<Step>, i: nat, j: nat, x: string,
                             snapshots: seq<Snapshot>, success: bool)
    requires Run(c, worlds, steps) && Span(worlds, steps, i, j) && Accounted(worlds, steps, i, j, x, snapshots, success)
    ensures Explained(worlds, steps, i, j, x, snapshots, success)
  {
    hide Run, Lands, Fails, Loses, Recorded;
    if k :| i <= k < j && Lands(worlds[k], steps[k], worlds[k + 1], x, snapshots, success) {
      LandsOnTop(c, worlds, steps, k, x, snapshots, success);
    } else if LostTimes(worlds, steps, i, j, x, RECEIPT_ATTEMPTS) {
      var ks: seq<nat> :| |ks| == RECEIPT_ATTEMPTS && (forall a, b :: 0 <= a < b < RECEIPT_ATTEMPTS ==> ks[a] < ks[b])
                          && forall a :: 0 <= a < RECEIPT_ATTEMPTS ==> i <= ks[a] < j && Loses(worlds[ks[a]], steps[ks[a]], x);
      assert i <= ks[0] < ks[1] < ks[2] < j;
    }
  }

  /**
   * No worker that has held the lease gives it back, or finishes, without having looked the receipts up and written its
   * own, as a success or a failure by its verdict; unless it does not know its verdict, the receipts object cannot be
   * decoded, a call for it failed without an answer, or three writes of it lost a race.
   */
  lemma NobodyLetsGoSilently(c: Config, worlds: seq<World>, steps: seq<Step>, i: nat, j: nat, x: string)
    requires Run(c, worlds, steps) && i <= j < |worlds| && x in worlds[i].workers && AtWork(worlds[i].workers[x].phase)
    requires LetsGo(worlds[j], x) && !worlds[j].workers[x].verdict.Unknown?
    ensures LookedUp(worlds, steps, i, j, x)
    ensures Explained(worlds, steps, i, j, x, worlds[j].workers[x].snapshots, worlds[j].workers[x].verdict.Confirmed?)
  {
    hide After, Enabled, Initial, LookedUp, Accounted, LostTimes, Explained;
    RunTells(c, worlds, steps, i, j, x);
    AccountedIsExplained(c, worlds, steps, i, j, x, worlds[j].workers[x].snapshots, worlds[j].workers[x].verdict.Confirmed?);
  }

  /** The step tells `x` that its manifest is committed: the write was answered, or the manifest read back. */
  predicate ToldCommitted(w: World, step: Step, x: string) {
    && x in w.workers
    && match w.workers[x].phase
       case Committing(_, _, _) => step == Call(x) && Accepts(w.bucket, OperationOf(Pending(x, w.workers[x]).value))
       case Confirming(m) =>
         step == Read(x) && CurrentManifest in w.bucket.objects && w.bucket.objects[CurrentManifest].content == ManifestBody(m)
       case _ => false
  }

  /** The step tells `x` that another manifest is the current one. */
  predicate ToldConflicted(w: World, step: Step, x: string) {
    x in w.workers && w.workers[x].phase.Confirming? && step == Read(x) && !ToldCommitted(w, step, x)
  }

  lemma ToldVerdict(c: Config, w: World, step: Step, x: string)
    requires Enabled(c, w, step) && (ToldCommitted(w, step, x) || ToldConflicted(w, step, x))
    ensures var w' := After(c, w, step);
            && x in w'.workers && w'.workers[x].snapshots == w.workers[x].snapshots
            && (ToldCommitted(w, step, x) ==> w'.workers[x].verdict.Confirmed?)
            && (ToldConflicted(w, step, x) ==> w'.workers[x].verdict.Conflicted?)
            && w'.workers[x].phase.Recording?
  {
  }

  lemma {:induction false} SnapshotsStay(c: Config, worlds: seq<World>, steps: seq<Step>, i: nat, j: nat, x: string)
    requires Run(c, worlds, steps) && i <= j < |worlds| && x in worlds[i].workers
    requires AtReceipts(worlds[i].workers[x].phase) || LetGo(worlds[i].workers[x].phase)
    ensures x in worlds[j].workers && worlds[j].workers[x].snapshots == worlds[i].workers[x].snapshots
    ensures AtReceipts(worlds[j].workers[x].phase) || LetGo(worlds[j].workers[x].phase)
  {
    hide After, Enabled, Initial, LooksUp, Fails, Loses, Lands;
    if i < j {
      SnapshotsStay(c, worlds, steps, i, j - 1, x);
      RunSteps(c, worlds, steps, j - 1);
      StepFollows(c, worlds[j - 1], steps[j - 1], x);
    }
  }

  /**
   * A worker that was told that its manifest is committed, or that another one is current, has looked the receipts up and
   * recorded just that for all of its snapshots before it lets go of the lease, unless one of the same things stopped it.
   */
  lemma VerdictIsRecorded(c: Config, worlds: seq<World>, steps: seq<Step>, i: nat, j: nat, x: string)
    requires Run(c, worlds, steps) && i < j < |worlds| && LetsGo(worlds[j], x)
    requires ToldCommitted(worlds[i], steps[i], x) || ToldConflicted(worlds[i], steps[i], x)
    ensures LookedUp(worlds, steps, i, j, x)
    ensures Explained(worlds, steps, i, j, x, worlds[i].workers[x].snapshots, ToldCommitted(worlds[i], steps[i], x))
  {
    hide After, Enabled, Initial, LookedUp, Explained, LetsGo;
    RunSteps(c, worlds, steps, i);
    ToldVerdict(c, worlds[i], steps[i], x);
    RunKeepsVerdict(c, worlds, steps, i + 1, j, x);
    SnapshotsStay(c, worlds, steps, i + 1, j, x);
    NobodyLetsGoSilently(c, worlds, steps, i, j, x);
  }

  // ---- Giving the lease back ----

  /** `x` asks for its lease to be deleted. */
  predicate Tries(w: World, step: Step, x: string) {
    && x in w.workers && Pending(x, w.workers[x]).Some? && Pending(x, w.workers[x]).value.Release?
    && (step == Call(x) || step == Break(x))
  }

  /** And it is. */
  predicate Frees(w: World, step: Step, x: string) {
    Tries(w, step, x) && step == Call(x) && Accepts(w.bucket, OperationOf(Pending(x, w.workers[x]).value))
  }

  ghost predicate TriedTimes(worlds: seq<World>, steps: seq<Step>, i: nat, j: nat, x: string, n: nat)
    requires Span(worlds, steps, i, j)
  {
    exists ks: seq<nat> ::
      && |ks| == n && (forall a, b :: 0 <= a < b < n ==> ks[a] < ks[b])
      && forall a :: 0 <= a < n ==> i <= ks[a] < j && Tries(worlds[ks[a]], steps[ks[a]], x)
  }

  lemma TriedLater(worlds: seq<World>, steps: seq<Step>, i: nat, j: nat, x: string, n: nat)
    requires Span(worlds, steps, i, j) && j < |steps| && TriedTimes(worlds, steps, i, j, x, n)
    ensures TriedTimes(worlds, steps, i, j + 1, x, n)
    ensures Tries(worlds[j], steps[j], x) ==> TriedTimes(worlds, steps, i, j + 1, x, n + 1)
  {
    hide Tries;
    var ks: seq<nat> :| |ks| == n && (forall a, b :: 0 <= a < b < n ==> ks[a] < ks[b])
                        && forall a :: 0 <= a < n ==> i <= ks[a] < j && Tries(worlds[ks[a]], steps[ks[a]], x);
    if Tries(worlds[j], steps[j], x) {
      var more := ks + [j];
      assert |more| == n + 1 && forall a, b :: 0 <= a < b < n + 1 ==> more[a] < more[b];
      assert forall a :: 0 <= a < n + 1 ==> i <= more[a] < j + 1 && Tries(worlds[more[a]], steps[more[a]], x);
    }
  }

  /** How a worker comes to let go, and how it goes on from there. */
  lemma ReleasingFollows(c: Config, w: World, step: Step, x: string)
    requires Enabled(c, w, step) && x in w.workers
    requires var p := w.workers[x].phase; AtWork(p) || AtReceipts(p) || LetGo(p)
    ensures x in After(c, w, step).workers
    ensures var p, p' := w.workers[x].phase, After(c, w, step).workers[x].phase;
            && (AtWork(p) || AtReceipts(p) ==> AtWork(p') || AtReceipts(p') || p' == Releasing(0))
            && (p.Releasing? ==>
                  || p' == p || (p' == Releasing(p.attempt + 1) && Tries(w, step, x))
                  || (p'.Finished? && Tries(w, step, x) && (Frees(w, step, x) || p.attempt + 1 >= RELEASE_ATTEMPTS)))
            && (p.Finished? ==> p'.Finished?)
  {
    hide Merged;
    if !Own(step, x) {
      OthersLeave(c, w, step, x);
    } else if w.workers[x].phase.Storing? && step == Call(x) {
      StoringCalled(c, w, x);
    }
  }

  /** The lease has been deleted, or its worker has tried three times. */
  ghost predicate GivenBack(worlds: seq<World>, steps: seq<Step>, i: nat, j: nat, x: string)
    requires Span(worlds, steps, i, j)
  {
    || (exists k :: i <= k < j && Frees(worlds[k], steps[k], x))
    || (exists k, l, m :: i <= k < l < m < j && Tries(worlds[k], steps[k], x) && Tries(worlds[l], steps[l], x) && Tries(worlds[m], steps[m], x))
  }

  ghost predicate Letting(worlds: seq<World>, steps: seq<Step>, i: nat, j: nat, x: string)
    requires Span(worlds, steps, i, j)
  {
    && x in worlds[j].workers
    && var p := worlds[j].workers[x].phase;
       && (AtWork(p) || AtReceipts(p) || LetGo(p))
       && (p.Releasing? ==> TriedTimes(worlds, steps, i, j, x, p.attempt))
       && (p.Finished? ==> GivenBack(worlds, steps, i, j, x))
  }

  lemma ThriceTried(worlds: seq<World>, steps: seq<Step>, i: nat, j: nat, x: string, n: nat)
    requires Span(worlds, steps, i, j) && TriedTimes(worlds, steps, i, j, x, n) && n >= RELEASE_ATTEMPTS
    ensures GivenBack(worlds, steps, i, j, x)
  {
    hide Tries, Frees;
    var ks: seq<nat> :| |ks| == n && (forall a, b :: 0 <= a < b < n ==> ks[a] < ks[b])
                        && forall a :: 0 <= a < n ==> i <= ks[a] < j && Tries(worlds[ks[a]], steps[ks[a]], x);
    assert i <= ks[0] < ks[1] < ks[2] < j;
  }

  /** No worker that has held the lease finishes before its lease is deleted, or it has tried three times. */
  lemma {:induction false} LeaseIsGivenBack(c: Config, worlds: seq<World>, steps: seq<Step>, i: nat, j: nat, x: string)
    requires Run(c, worlds, steps) && Span(worlds, steps, i, j) && x in worlds[i].workers && AtWork(worlds[i].workers[x].phase)
    ensures Letting(worlds, steps, i, j, x)
    ensures worlds[j].workers[x].phase.Finished? ==> GivenBack(worlds, steps, i, j, x)
    decreases j - i
  {
    hide After, Enabled, Initial, Tries, Frees, TriedTimes;
    if i < j {
      LeaseIsGivenBack(c, worlds, steps, i, j - 1, x);
      RunSteps(c, worlds, steps, j - 1);
      ReleasingFollows(c, worlds[j - 1], steps[j - 1], x);
      var p, p' := worlds[j - 1].workers[x].phase, worlds[j].workers[x].phase;
      if p.Releasing? {
        TriedLater(worlds, steps, i, j - 1, x, p.attempt);
        if p'.Finished? && !Frees(worlds[j - 1], steps[j - 1], x) {
          ThriceTried(worlds, steps, i, j, x, p.attempt + 1);
        }
      } else if p'.Releasing? {
        NeverTried(worlds, steps, i, j, x);
      }
    }
  }

  lemma NeverTried(worlds: seq<World>, steps: seq<Step>, i: nat, j: nat, x: string)
    requires Span(worlds, steps, i, j)
    ensures TriedTimes(worlds, steps, i, j, x, 0)
  {
    var ks: seq<nat> := [];
    assert |ks| == 0;
  }
}
