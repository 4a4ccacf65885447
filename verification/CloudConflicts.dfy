/** What a worker that was told of a commit conflict can conclude from it. */
module CloudConflicts {
  import opened Options
  import opened ByteStrings
  import opened ObjectStore
  import opened CloudProtocol
  import opened CloudInvariant
  import opened CloudSteps
  import opened CloudTheorems

  /** The manifest that a worker has tried to commit. */
  function Proposed(worker: Worker): Option<Manifest> {
    match worker.phase
    case Confirming(manifest) => Some(manifest)
    case _ =>
      match worker.verdict
      case Confirmed(manifest) => Some(manifest)
      case Conflicted(manifest) => Some(manifest)
      case Unknown(manifest) => Some(manifest)
      case _ => None
  }

  /** The manifest writes of a worker that it saw fail without an answer. */
  function Unanswered(w: World, x: string): set<Request> {
    set r | r in w.late && r.Publish? && r.author == x
  }

  /** The current manifest is the one that a proposal was built on. */
  predicate BaseIsCurrent(b: Bucket, base: Option<Commit>) {
    match base
    case None => CurrentManifest !in b.objects
    case Some(commit) =>
      CurrentManifest in b.objects && b.objects[CurrentManifest] == Object(ManifestBody(commit.manifest), commit.generation)
  }

  /** A step has the store accept a manifest write of `x`. */
  predicate CommitsFor(w: World, step: Step, x: string) {
    var r := ServedBy(w, step);
    r != None && r.value.Publish? && r.value.author == x && Accepts(w.bucket, OperationOf(r.value))
  }

  /** A step is the manifest write of `x`, answered or not. */
  predicate IsCommit(w: World, step: Step, x: string) {
    x in w.workers && w.workers[x].phase.Committing? && (step == Call(x) || step == Break(x))
  }

  /** A step of `x` itself. */
  predicate Own(step: Step, x: string) {
    match step
    case Call(y) => y == x
    case Break(y) => y == x
    case Read(y) => y == x
    case BreakRead(y) => y == x
    case Probe(y, _) => y == x
    case Choose(y, _) => y == x
    case _ => false
  }

  lemma OthersLeave(c: Config, w: World, step: Step, x: string)
    requires Enabled(c, w, step) && x in w.workers && !Own(step, x)
    ensures x in After(c, w, step).workers && After(c, w, step).workers[x] == w.workers[x]
  {
    hide Applied, Accepts, Answered, Pending;
  }

  lemma VerdictStays(c: Config, w: World, step: Step, x: string)
    requires Inv(c, w) && Enabled(c, w, step) && x in w.workers && !w.workers[x].verdict.Undecided?
    ensures x in After(c, w, step).workers && After(c, w, step).workers[x].verdict == w.workers[x].verdict
  {
    hide StoreOk, Exclusive, Applied, Accepts, RequestOk, LeaseOk, ProposalOk, ReceiptsOk, Committed, Known, Merged;
    InvAt(c, w, x);
  }

  /** What a worker has proposed it never takes back; and it proposes once. */
  lemma StepProposes(c: Config, w: World, step: Step, x: string)
    requires Inv(c, w) && Enabled(c, w, step) && x in w.workers
    ensures var w' := After(c, w, step);
            && x in w'.workers
            && (Proposed(w.workers[x]).Some? ==> Proposed(w'.workers[x]) == Proposed(w.workers[x]))
            && (IsCommit(w, step, x) ==> Proposed(w'.workers[x]).Some?)
  {
    hide StoreOk, Exclusive, Applied, Accepts, RequestOk, LeaseOk, ProposalOk, ReceiptsOk, Committed, Known, Merged;
    if Own(step, x) {
      InvAt(c, w, x);
    } else {
      OthersLeave(c, w, step, x);
    }
  }

  lemma ProposingIsCommitting(c: Config, w: World, step: Step, x: string)
    requires Inv(c, w) && Enabled(c, w, step) && x in w.workers && Proposed(w.workers[x]) == None
    ensures Proposed(After(c, w, step).workers[x]).Some? ==> IsCommit(w, step, x)
  {
    hide StoreOk, Exclusive, Applied, Accepts, RequestOk, LeaseOk, ProposalOk, ReceiptsOk, Committed, Known, Merged;
    if Own(step, x) {
      InvAt(c, w, x);
    } else {
      OthersLeave(c, w, step, x);
    }
  }

  lemma CommittingHasNotProposed(c: Config, w: World, x: string)
    requires Inv(c, w) && x in w.workers && w.workers[x].phase.Committing?
    ensures Proposed(w.workers[x]) == None
  {
    hide StoreOk, Exclusive, RequestOk, LeaseOk;
    InvAt(c, w, x);
  }

  /** Only a failed manifest write leaves a manifest write around. */
  lemma StepLeaves(c: Config, w: World, step: Step, x: string)
    requires Enabled(c, w, step)
    ensures var w' := After(c, w, step);
            Unanswered(w', x)
            == if IsCommit(w, step, x) && step == Break(x) then Unanswered(w, x) + {Pending(x, w.workers[x]).value} else Unanswered(w, x)
  {
    hide Applied, Accepts, AnswerTo, Answered, Broken, Seen, Unseen, Chosen, Merged;
  }

  lemma Unstarted(c: Config, w: World, step: Step, x: string)
    requires Enabled(c, w, step) && x !in w.workers && x in After(c, w, step).workers
    ensures Proposed(After(c, w, step).workers[x]) == None && After(c, w, step).late == w.late
  {
    hide Applied, Accepts, AnswerTo, Answered, Broken, Seen, Unseen, Chosen, Merged;
  }

  /** Whoever left a manifest write around has proposed. */
  lemma {:induction false} UnansweredHasProposed(c: Config, worlds: seq<World>, steps: seq<Step>, i: nat, x: string)
    requires Run(c, worlds, steps) && i < |worlds|
    ensures Unanswered(worlds[i], x) != {} ==> x in worlds[i].workers && Proposed(worlds[i].workers[x]).Some?
  {
    hide After, Enabled, Proposed, IsCommit, Pending;
    if i > 0 {
      var w, step := worlds[i - 1], steps[i - 1];
      RunSteps(c, worlds, steps, i - 1);
      RunKeeps(c, worlds, steps, i - 1);
      UnansweredHasProposed(c, worlds, steps, i - 1, x);
      StepLeaves(c, w, step, x);
      CommitIsOwn(w, step, x);
      if x in w.workers {
        StepProposes(c, w, step, x);
      }
    } else {
      NothingUnanswered(c, worlds, steps, x);
    }
  }

  lemma CommitIsOwn(w: World, step: Step, x: string)
    ensures IsCommit(w, step, x) ==> x in w.workers
  {
  }

  lemma NothingUnanswered(c: Config, worlds: seq<World>, steps: seq<Step>, x: string)
    requires Run(c, worlds, steps)
    ensures Unanswered(worlds[0], x) == {}
  {
  }

  lemma {:induction false} RunProposes(c: Config, worlds: seq<World>, steps: seq<Step>, i: nat, j: nat, x: string)
    requires Run(c, worlds, steps) && i <= j < |worlds| && x in worlds[i].workers && Proposed(worlds[i].workers[x]).Some?
    ensures x in worlds[j].workers && Proposed(worlds[j].workers[x]) == Proposed(worlds[i].workers[x])
    ensures Unanswered(worlds[j], x) == Unanswered(worlds[i], x)
  {
    hide After, Enabled, Proposed, Pending, Unanswered;
    if i < j {
      RunProposes(c, worlds, steps, i, j - 1, x);
      RunSteps(c, worlds, steps, j - 1);
      RunKeeps(c, worlds, steps, j - 1);
      StepProposes(c, worlds[j - 1], steps[j - 1], x);
      StepLeaves(c, worlds[j - 1], steps[j - 1], x);
      if worlds[j - 1].workers[x].phase.Committing? {
        CommittingHasNotProposed(c, worlds[j - 1], x);
      }
    }
  }

  lemma {:induction false} RunKeepsVerdict(c: Config, worlds: seq<World>, steps: seq<Step>, i: nat, j: nat, x: string)
    requires Run(c, worlds, steps) && i <= j < |worlds| && x in worlds[i].workers && !worlds[i].workers[x].verdict.Undecided?
    ensures x in worlds[j].workers && worlds[j].workers[x].verdict == worlds[i].workers[x].verdict
  {
    hide After, Enabled;
    if i < j {
      RunKeepsVerdict(c, worlds, steps, i, j - 1, x);
      RunSteps(c, worlds, steps, j - 1);
      RunKeeps(c, worlds, steps, j - 1);
      VerdictStays(c, worlds[j - 1], steps[j - 1], x);
    }
  }

  /** A manifest write is accepted exactly while the current manifest is the one it was built on. */
  lemma ProposalLands(c: Config, w: World, r: Request)
    requires RequestOk(c, w, r) && r.Publish?
    ensures Accepts(w.bucket, OperationOf(r)) <==> BaseIsCurrent(w.bucket, r.base)
  {
    hide Resolves, ListsAll;
  }

  /** Who has proposed commits only by a write that was left around. */
  lemma CommitsLate(c: Config, w: World, step: Step, x: string)
    requires Inv(c, w) && Enabled(c, w, step) && CommitsFor(w, step, x)
    ensures (step.Deliver? && step.r in Unanswered(w, x)) || (step == Call(x) && x in w.workers && w.workers[x].phase.Committing?)
  {
    hide Inv, Accepts, OperationOf;
  }

  /** Before a worker's manifest write nothing was committed for it. */
  lemma NothingCommittedBefore(c: Config, worlds: seq<World>, steps: seq<Step>, k: nat, i: nat, x: string)
    requires Run(c, worlds, steps) && k < i < |worlds| && x in worlds[i].workers && Proposed(worlds[i].workers[x]) == None
    ensures !CommitsFor(worlds[k], steps[k], x)
  {
    hide After, Enabled, Proposed, CommitsFor;
    if CommitsFor(worlds[k], steps[k], x) {
      RunSteps(c, worlds, steps, k);
      RunKeeps(c, worlds, steps, k);
      CommitsLate(c, worlds[k], steps[k], x);
      UnansweredHasProposed(c, worlds, steps, k, x);
      if steps[k] == Call(x) && x in worlds[k].workers && worlds[k].workers[x].phase.Committing? {
        StepProposes(c, worlds[k], steps[k], x);
        RunProposes(c, worlds, steps, k + 1, i, x);
      } else {
        RunProposes(c, worlds, steps, k, i, x);
      }
    }
  }

  /** After its manifest write, a worker's commit can only be one that was left around. */
  lemma CommitsAfter(c: Config, w: World, step: Step, x: string)
    requires Inv(c, w) && Enabled(c, w, step) && x in w.workers && Proposed(w.workers[x]).Some?
    ensures CommitsFor(w, step, x) <==>
              step.Deliver? && step.r in Unanswered(w, x) && BaseIsCurrent(w.bucket, step.r.base)
  {
    hide Inv, Accepts, OperationOf, Proposed;
    if CommitsFor(w, step, x) {
      CommitsLate(c, w, step, x);
      if w.workers[x].phase.Committing? {
        CommittingHasNotProposed(c, w, x);
      }
    }
    if step.Deliver? && step.r in Unanswered(w, x) {
      LateIsOk(c, w, step.r);
      ProposalLands(c, w, step.r);
    }
  }

  lemma LateIsOk(c: Config, w: World, r: Request)
    requires Inv(c, w) && r in w.late
    ensures RequestOk(c, w, r)
  {
    hide RequestOk, WorkerOk, StoreOk;
  }

  /** What the manifest write of a worker leaves behind. */
  lemma AfterTheWrite(c: Config, worlds: seq<World>, steps: seq<Step>, i: nat, j: nat, x: string)
    requires Run(c, worlds, steps) && i < j < |worlds| && IsCommit(worlds[i], steps[i], x)
    ensures x in worlds[j].workers && Proposed(worlds[j].workers[x]).Some?
    ensures Unanswered(worlds[j], x) == if steps[i] == Break(x) then {Pending(x, worlds[i].workers[x]).value} else {}
  {
    hide After, Enabled, Proposed, Pending, Unanswered;
    RunSteps(c, worlds, steps, i);
    RunKeeps(c, worlds, steps, i);
    CommittingHasNotProposed(c, worlds[i], x);
    UnansweredHasProposed(c, worlds, steps, i, x);
    StepProposes(c, worlds[i], steps[i], x);
    StepLeaves(c, worlds[i], steps[i], x);
    RunProposes(c, worlds, steps, i + 1, j, x);
  }

  /** A worker whose manifest write was answered with success never hears of a conflict. */
  lemma AcceptedIsConfirmed(c: Config, worlds: seq<World>, steps: seq<Step>, i: nat, j: nat, x: string)
    requires Run(c, worlds, steps) && i < j < |worlds| && IsCommit(worlds[i], steps[i], x) && steps[i] == Call(x)
    requires x in worlds[j].workers && worlds[j].workers[x].verdict.Conflicted?
    ensures !CommitsFor(worlds[i], steps[i], x)
  {
    RunSteps(c, worlds, steps, i);
    RunKeeps(c, worlds, steps, i);
    if CommitsFor(worlds[i], steps[i], x) {
      assert worlds[i + 1].workers[x].verdict.Confirmed?;
      RunKeepsVerdict(c, worlds, steps, i + 1, j, x);
    }
  }

  /**
   * A run that was told of a conflict can still see its manifest become the current one exactly when its manifest
   * write had failed without an answer and the current manifest is still the one that it was built on. A conflict
   * that was the answer to the write is final: the manifest never becomes current, before or after.
   */
  lemma ConflictIsFinalWhenAnswered(c: Config, worlds: seq<World>, steps: seq<Step>, i: nat, j: nat, x: string)
    requires Run(c, worlds, steps) && i < j < |worlds| && IsCommit(worlds[i], steps[i], x)
    requires x in worlds[j].workers && worlds[j].workers[x].verdict.Conflicted?
    ensures (exists step :: Enabled(c, worlds[j], step) && CommitsFor(worlds[j], step, x))
            <==> steps[i] == Break(x) && BaseIsCurrent(worlds[j].bucket, worlds[i].workers[x].phase.base)
    ensures steps[i] == Call(x) ==> forall k :: 0 <= k < |steps| ==> !CommitsFor(worlds[k], steps[k], x)
  {
    hide Proposed, CommitsFor, Unanswered, After, Inv;
    AfterTheWrite(c, worlds, steps, i, j, x);
    RunKeeps(c, worlds, steps, j);
    var r := Pending(x, worlds[i].workers[x]).value;
    forall step | Enabled(c, worlds[j], step)
      ensures CommitsFor(worlds[j], step, x) <==>
                step.Deliver? && step.r in Unanswered(worlds[j], x) && BaseIsCurrent(worlds[j].bucket, step.r.base)
    {
      CommitsAfter(c, worlds[j], step, x);
    }
    if steps[i] == Break(x) {
      LeftIsLate(worlds[j], r, x);
      assert Enabled(c, worlds[j], Deliver(r));
    } else {
      forall k | 0 <= k < |steps| ensures !CommitsFor(worlds[k], steps[k], x) {
        NeverCommits(c, worlds, steps, i, j, k, x);
      }
    }
  }

  lemma LeftIsLate(w: World, r: Request, x: string)
    requires r in Unanswered(w, x)
    ensures r in w.late && r.Publish? && r.author == x
  {
  }

  lemma NeverCommits(c: Config, worlds: seq<World>, steps: seq<Step>, i: nat, j: nat, k: nat, x: string)
    requires Run(c, worlds, steps) && i < j < |worlds| && k < |steps| && IsCommit(worlds[i], steps[i], x) && steps[i] == Call(x)
    requires x in worlds[j].workers && worlds[j].workers[x].verdict.Conflicted?
    ensures !CommitsFor(worlds[k], steps[k], x)
  {
    hide Proposed, CommitsFor, After, Inv;
    if k < i {
      RunKeeps(c, worlds, steps, i);
      CommittingHasNotProposed(c, worlds[i], x);
      NothingCommittedBefore(c, worlds, steps, k, i, x);
    } else if k == i {
      AcceptedIsConfirmed(c, worlds, steps, i, j, x);
    } else {
      AfterTheWrite(c, worlds, steps, i, k, x);
      RunKeeps(c, worlds, steps, k);
      RunSteps(c, worlds, steps, k);
      CommitsAfter(c, worlds[k], steps[k], x);
    }
  }

  /** A manifest that became current although its author was told of a conflict was served late. */
  lemma ConflictedCommitsWereLate(c: Config, worlds: seq<World>, steps: seq<Step>, k: nat, j: nat, x: string)
    requires Run(c, worlds, steps) && k < j < |worlds| && CommitsFor(worlds[k], steps[k], x)
    requires x in worlds[j].workers && worlds[j].workers[x].verdict.Conflicted?
    ensures steps[k].Deliver? && steps[k].r in worlds[k].late && steps[k].r.author == x
  {
    hide Proposed, After, Inv;
    RunKeeps(c, worlds, steps, k);
    RunSteps(c, worlds, steps, k);
    CommitsLate(c, worlds[k], steps[k], x);
    if steps[k] == Call(x) {
      AcceptedIsConfirmed(c, worlds, steps, k, j, x);
    }
  }

  /** Whoever has proposed has made a manifest write, and so has whoever was told of a conflict. */
  lemma {:induction false} ProposedByAWrite(c: Config, worlds: seq<World>, steps: seq<Step>, j: nat, x: string) returns (i: nat)
    requires Run(c, worlds, steps) && j < |worlds| && x in worlds[j].workers
    requires worlds[j].workers[x].verdict.Conflicted? || Proposed(worlds[j].workers[x]).Some?
    ensures i < j && IsCommit(worlds[i], steps[i], x)
  {
    hide After, Enabled, IsCommit;
    if j > 0 {
      RunSteps(c, worlds, steps, j - 1);
      RunKeeps(c, worlds, steps, j - 1);
      i := j - 1;
      if x !in worlds[i].workers {
        Unstarted(c, worlds[i], steps[i], x);
      } else if Proposed(worlds[i].workers[x]) == None {
        ProposingIsCommitting(c, worlds[i], steps[i], x);
      } else {
        i := ProposedByAWrite(c, worlds, steps, j - 1, x);
      }
    }
  }
}
