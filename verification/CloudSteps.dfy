/** Every step of the bucket protocol keeps the invariant. */
module CloudSteps {
  import opened Options
  import opened ByteStrings
  import opened ObjectStore
  import opened CloudProtocol
  import opened CloudInvariant

  // ---- Serving a request ----

  lemma ServedGrows(c: Config, w: World, r: Request)
    requires ValidBucket(w.bucket)
    ensures ValidBucket(Served(w, r).bucket) && Grows(w, Served(w, r))
  {
    AppliedKeeps(w.bucket, OperationOf(r));
  }

  /** A manifest that goes through was built on the very manifest that it replaces. */
  lemma ChainServed(c: Config, w: World, r: Request)
    requires ValidBucket(w.bucket) && Chain(w) && RequestOk(c, w, r)
    ensures Chain(Served(w, r))
  {
    var w' := Served(w, r);
    if r.Publish? && Accepts(w.bucket, OperationOf(r)) {
      var n := |w.manifests|;
      assert w'.manifests[n] == Commit(r.manifest, w.bucket.next);
      forall i | 0 <= i < |w'.manifests| ensures Links(w'.manifests, i) {
        if i < n {
          assert Links(w.manifests, i);
        }
      }
    }
  }

  lemma ResolveServed(c: Config, w: World, r: Request)
    requires ValidBucket(w.bucket) && AllResolve(c, w) && RequestOk(c, w, r)
    ensures AllResolve(c, Served(w, r))
  {
    var w' := Served(w, r);
    ServedGrows(c, w, r);
    forall commit | commit in w'.manifests ensures Resolves(c, w'.bucket, commit.manifest) {
      ResolvesStays(c, w, w', commit.manifest);
    }
  }

  lemma LandingStays(w: World, w': World, l: Landing)
    requires Grows(w, w') && LandingOk(w, l)
    ensures LandingOk(w', l)
  {
    EntitledStays(w, w', l.request.author, l.request.success);
  }

  /** The receipts a write replaces are the ones its author had read. */
  lemma RecordHits(c: Config, w: World, r: Request)
    requires r.Record? && RequestOk(c, w, r) && Accepts(w.bucket, OperationOf(r))
    ensures SourcesIn(w.bucket) == r.before
  {
  }

  lemma LandingsServed(c: Config, w: World, r: Request)
    requires ValidBucket(w.bucket) && Landings(w) && RequestOk(c, w, r)
    ensures Landings(Served(w, r))
  {
    hide Merged, EntitledTo, Grows;
    var w' := Served(w, r);
    ServedGrows(c, w, r);
    if r.Record? && Accepts(w.bucket, OperationOf(r)) {
      RecordHits(c, w, r);
    }
    forall l | l in w'.landings ensures LandingOk(w', l) {
      if l in w.landings {
        LandingStays(w, w', l);
      } else {
        LandingStays(w, w', Landing(r, SourcesIn(w.bucket), r.after));
      }
    }
  }

  lemma ServedKeepsStore(c: Config, w: World, r: Request)
    requires StoreOk(c, w) && RequestOk(c, w, r)
    ensures StoreOk(c, Served(w, r)) && Grows(w, Served(w, r))
  {
    ServedGrows(c, w, r);
    ChainServed(c, w, r);
    ResolveServed(c, w, r);
    LandingsServed(c, w, r);
  }

  /** A lease object that goes away belonged to no holder. */
  lemma ExclusiveServed(c: Config, w: World, r: Request)
    requires c.sound && Exclusive(w) && RequestOk(c, w, r)
    ensures Exclusive(Served(w, r))
  {
    var w' := Served(w, r);
    forall x | Holding(w', x)
      ensures Lease in w'.bucket.objects && w'.bucket.objects[Lease] == Object(LeaseBody(x), w'.workers[x].lease)
    {
      assert Holding(w, x);
    }
  }

  // ---- One worker moves on ----

  /** `worker'` may replace what worker `x` was: its verdict is not revised, and a lease it now holds is its own. */
  ghost predicate MayBecome(w: World, x: string, worker': Worker) {
    && (x in w.workers ==>
          var worker := w.workers[x];
          && (!worker.verdict.Undecided? ==> worker'.verdict == worker.verdict)
          && (worker'.lease == worker.lease || worker'.lease >= w.bucket.next)
          && (InLease(worker'.phase) ==> worker'.lease >= w.bucket.next || InLease(worker.phase)))
    && (x !in w.workers ==> !InLease(worker'.phase) && worker'.lease == 0)
  }

  /** The world `w'` is `v` with `x` moved on, and `v` differs from `w` in its store only. */
  ghost predicate Moves(w: World, v: World, w': World, x: string, worker': Worker) {
    && v.workers == w.workers && v.alive == w.alive
    && w'.bucket == v.bucket && w'.manifests == v.manifests && w'.landings == v.landings
    && w'.workers == w.workers[x := worker']
    && (forall y :: y in w'.alive && y != x ==> y in w.alive)
    && (x in w.workers ==> x in w.alive)
  }

  lemma MovesGrows(w: World, v: World, w': World, x: string, worker': Worker)
    requires Moves(w, v, w', x, worker') && Grows(w, v) && MayBecome(w, x, worker')
    ensures Grows(w, w')
  {
    forall y | Holding(w', y)
      ensures (Holding(w, y) && w'.workers[y].lease == w.workers[y].lease) || w'.workers[y].lease >= w.bucket.next
    {
    }
  }

  lemma MovesKeepStore(c: Config, w: World, v: World, w': World, x: string, worker': Worker)
    requires Moves(w, v, w', x, worker') && Grows(w, v) && MayBecome(w, x, worker') && StoreOk(c, v)
    ensures StoreOk(c, w')
  {
    forall l | l in w'.landings ensures LandingOk(w', l) {
      assert LandingOk(v, l);
    }
  }

  /** The others are as they were; it remains to look at the one that moved and at its new request. */
  lemma MovesKeepWorkers(c: Config, w: World, v: World, w': World, x: string, worker': Worker)
    requires Moves(w, v, w', x, worker') && Grows(w, v) && MayBecome(w, x, worker') && WorkersOk(c, w)
    requires WorkerOk(c, w', x, worker')
    requires forall r :: r in w'.late ==> r in w.late || RequestOk(c, w', r)
    ensures WorkersOk(c, w')
  {
    MovesGrows(w, v, w', x, worker');
    forall y | y in w'.workers ensures WorkerOk(c, w', y, w'.workers[y]) {
      if y != x {
        WorkerStays(c, w, w', y, w.workers[y]);
      }
    }
    forall r | r in w'.late ensures RequestOk(c, w', r) {
      if r in w.late {
        RequestStays(c, w, w', r);
      }
    }
    forall y, z | y in w'.workers && z in w'.workers && y != z && w'.workers[y].lease != 0
      ensures w'.workers[y].lease != w'.workers[z].lease
    {
      if y != x {
        assert WorkerOk(c, w, y, w.workers[y]);
      }
      if z != x {
        assert WorkerOk(c, w, z, w.workers[z]);
      }
    }
  }

  /** Moving on does not disturb anyone's hold; a new holder has just created the lease. */
  lemma MovesKeepExclusive(w: World, v: World, w': World, x: string, worker': Worker)
    requires Moves(w, v, w', x, worker') && Exclusive(v)
    requires InLease(worker'.phase) && x in w'.alive ==>
               || (Holding(w, x) && worker'.lease == w.workers[x].lease)
               || (&& Lease in v.bucket.objects && v.bucket.objects[Lease] == Object(LeaseBody(x), worker'.lease)
                   && Lease !in w.bucket.objects && Exclusive(w))
    ensures Exclusive(w')
  {
    forall y | Holding(w', y)
      ensures Lease in w'.bucket.objects && w'.bucket.objects[Lease] == Object(LeaseBody(y), w'.workers[y].lease)
    {
      if y != x {
        assert Holding(v, y) && Holding(w, y);
      } else {
        assert Holding(w, x) ==> Holding(v, x);
      }
    }
  }

  // ---- Calls ----

  /** A worker only issues requests that are in order. */
  lemma PendingOk(c: Config, w: World, x: string)
    requires WorkersOk(c, w) && x in w.workers && Pending(x, w.workers[x]) != None
    ensures RequestOk(c, w, Pending(x, w.workers[x]).value)
  {
    var worker := w.workers[x];
    assert WorkerOk(c, w, x, worker);
    if worker.phase.Releasing? {
      forall y | Holding(w, y) ensures w.workers[y].lease != worker.lease {
        assert y != x;
      }
    }
  }

  /** The world in which a worker's request has been served, and the worker after it has read the answer. */
  ghost predicate Calling(c: Config, w: World, x: string, r: Request, w': World, worker': Worker)
    requires x in w.workers
  {
    && ValidBucket(w.bucket) && WorkerOk(c, w, x, w.workers[x])
    && Pending(x, w.workers[x]) == Some(r) && RequestOk(c, w, r)
    && worker' == Answered(c, w.workers[x], AnswerTo(w.bucket, OperationOf(r)))
    && w' == Moved(Served(w, r), x, worker')
    && MayBecome(w, x, worker') && Grows(w, w')
  }

  lemma UploadedResolves(c: Config, w: World, r: Request, manifest: Manifest)
    requires ValidBucket(w.bucket) && r.Upload? && r.id == manifest.generationID
    requires Accepts(w.bucket, OperationOf(r)) && Resolves(c, w.bucket, manifest)
    ensures var file := File(r.output.path, |r.output.data|, c.sha(r.output.data), w.bucket.next);
            Resolves(c, Served(w, r).bucket, manifest.(files := manifest.files + [file]))
  {
    ServedGrows(c, w, r);
    ResolvesStays(c, w, Served(w, r), manifest);
  }

  lemma ListsOneMore(c: Config, files: seq<File>, outputs: seq<Output>, done: nat, generation: nat)
    requires done < |outputs| && ListsAll(c, files, outputs[..done])
    ensures var o := outputs[done];
            ListsAll(c, files + [File(o.path, |o.data|, c.sha(o.data), generation)], outputs[..done + 1])
  {
    hide Describes;
    var o := outputs[done];
    var file := File(o.path, |o.data|, c.sha(o.data), generation);
    var files', outputs' := files + [file], outputs[..done] + [o];
    assert outputs[..done + 1] == outputs';
    ItsFile(c, o, generation);
    forall p | p in outputs' ensures Listed(c, files', p) {
      if p in outputs[..done] {
        var f :| f in files && Describes(c, f, p);
        assert f in files';
      } else {
        assert file in files';
      }
    }
    forall f | f in files' ensures Asked(c, outputs', f) {
      if f in files {
        var p :| p in outputs[..done] && Describes(c, f, p);
        assert p in outputs';
      } else {
        assert o in outputs';
      }
    }
  }

  lemma ItsFile(c: Config, o: Output, generation: nat)
    ensures Describes(c, File(o.path, |o.data|, c.sha(o.data), generation), o)
  {
  }

  /** The order of the entries does not matter. */
  lemma ListsReordered(c: Config, files: seq<File>, files': seq<File>, outputs: seq<Output>)
    requires ListsAll(c, files, outputs) && multiset(files') == multiset(files)
    ensures ListsAll(c, files', outputs)
  {
    hide Describes;
    SameElements(files, files');
    forall o | o in outputs ensures Listed(c, files', o) {
      var f :| f in files && Describes(c, f, o);
      assert f in files';
    }
  }

  lemma SameElements<T>(a: seq<T>, b: seq<T>)
    requires multiset(a) == multiset(b)
    ensures |a| == |b| && forall x :: x in a <==> x in b
  {
    assert |a| == |multiset(a)| == |multiset(b)| == |b|;
    forall x ensures x in a <==> x in b {
      assert x in multiset(a) <==> x in multiset(b);
    }
  }

  lemma AnsweredOk(c: Config, w: World, x: string, r: Request, w': World, worker': Worker)
    requires x in w.workers && Calling(c, w, x, r, w', worker')
    ensures WorkerOk(c, w', x, worker')
  {
    hide Grows, MayBecome, Merged, Resolves;
    var worker := w.workers[x];
    WorkerStays(c, w, w', x, worker);
    match worker.phase
    case Uploading(base, manifest, outputs, done) =>
      if Accepts(w.bucket, OperationOf(r)) {
        UploadedResolves(c, w, r, manifest);
        ListsOneMore(c, manifest.files, outputs, done, w.bucket.next);
      }
    case Committing(base, manifest, _) =>
      if Accepts(w.bucket, OperationOf(r)) {
        assert w'.manifests[|w.manifests|] == Commit(manifest, w.bucket.next);
      }
    case _ =>
  }

  lemma CallMayBecome(c: Config, w: World, x: string)
    requires WorkersOk(c, w) && Active(w, x) && Pending(x, w.workers[x]) != None
    ensures var r := Pending(x, w.workers[x]).value;
            MayBecome(w, x, Answered(c, w.workers[x], AnswerTo(w.bucket, OperationOf(r))))
  {
    assert WorkerOk(c, w, x, w.workers[x]);
  }

  lemma InvAt(c: Config, w: World, x: string)
    requires Inv(c, w) && x in w.workers
    ensures ValidBucket(w.bucket) && WorkerOk(c, w, x, w.workers[x])
  {
  }

  lemma CallKeeps(c: Config, w: World, x: string)
    requires Inv(c, w) && Enabled(c, w, Call(x))
    ensures Inv(c, After(c, w, Call(x)))
  {
    hide Answered, StoreOk, RequestOk, WorkersOk, WorkerOk, Exclusive, MayBecome, StoreGrows, WorkersGrow, Pending,
         OperationOf, AnswerTo, Accepts, Applied;
    var r := Pending(x, w.workers[x]).value;
    var v, w' := Served(w, r), After(c, w, Call(x));
    var worker' := w'.workers[x];
    PendingOk(c, w, x);
    CallMayBecome(c, w, x);
    ServedKeepsStore(c, w, r);
    MovesGrows(w, v, w', x, worker');
    MovesKeepStore(c, w, v, w', x, worker');
    InvAt(c, w, x);
    AnsweredOk(c, w, x, r, w', worker');
    MovesKeepWorkers(c, w, v, w', x, worker');
    if c.sound {
      ExclusiveServed(c, w, r);
      AnsweredHolds(c, w, x);
      MovesKeepExclusive(w, v, w', x, worker');
    }
  }

  lemma AnsweredHolds(c: Config, w: World, x: string)
    requires Active(w, x) && Pending(x, w.workers[x]) != None
    ensures var r := Pending(x, w.workers[x]).value;
            var v := Served(w, r);
            var worker' := Answered(c, w.workers[x], AnswerTo(w.bucket, OperationOf(r)));
            InLease(worker'.phase) ==>
              || (Holding(w, x) && worker'.lease == w.workers[x].lease)
              || (&& Lease in v.bucket.objects && v.bucket.objects[Lease] == Object(LeaseBody(x), worker'.lease)
                  && Lease !in w.bucket.objects)
  {
  }

  lemma BrokenOk(c: Config, w: World, x: string)
    requires Inv(c, w) && Active(w, x) && Pending(x, w.workers[x]) != None
    ensures MayTurn(c, w, x, Broken(w.workers[x]))
  {
    hide Resolves, Landings, AllResolve, Exclusive, RequestOk, Merged;
    assert WorkerOk(c, w, x, w.workers[x]);
  }

  lemma BreakKeeps(c: Config, w: World, x: string)
    requires Inv(c, w) && Enabled(c, w, Break(x))
    ensures Inv(c, After(c, w, Break(x)))
  {
    hide MayTurn, Broken, RequestOk, Pending, StoreOk, Exclusive;
    PendingOk(c, w, x);
    BrokenOk(c, w, x);
    MoveKeeps(c, w, x, Broken(w.workers[x]), {Pending(x, w.workers[x]).value});
  }

  lemma DeliverKeeps(c: Config, w: World, r: Request)
    requires Inv(c, w) && r in w.late
    ensures Inv(c, Served(w, r))
  {
    hide WorkerOk, StoreOk, RequestOk, Exclusive, Accepts, Applied, OperationOf;
    var w' := Served(w, r);
    ServedKeepsStore(c, w, r);
    StoreGrowthKeepsWorkers(c, w, w');
    if c.sound {
      ExclusiveServed(c, w, r);
    }
  }

  lemma StoreGrowthKeepsWorkers(c: Config, w: World, w': World)
    requires WorkersOk(c, w) && Grows(w, w') && w'.workers == w.workers && w'.late == w.late
    ensures WorkersOk(c, w')
  {
    forall y | y in w'.workers ensures WorkerOk(c, w', y, w'.workers[y]) {
      WorkerStays(c, w, w', y, w.workers[y]);
    }
    forall q | q in w'.late ensures RequestOk(c, w', q) {
      RequestStays(c, w, w', q);
    }
  }

  // ---- Reads ----

  lemma SeenOk(c: Config, w: World, x: string, found: Option<Object>)
    requires Inv(c, w) && Active(w, x) && Reads(w.workers[x]) != None
    requires var name := Reads(w.workers[x]).value;
             found == if name in w.bucket.objects then Some(w.bucket.objects[name]) else None
    ensures MayTurn(c, w, x, Seen(c, w.workers[x], found))
  {
    hide Resolves, Landings, AllResolve, Exclusive, RequestOk;
    var worker := w.workers[x];
    assert WorkerOk(c, w, x, worker);
    match worker.phase
    case Contending =>
      if found != None && found.value.content.LeaseBody? {
        var g, holder := found.value.generation, found.value.content.execution;
        forall y | Holding(w, y) && w.workers[y].lease == g ensures y == holder {
          assert WorkerOk(c, w, y, w.workers[y]);
          assert LeaseOk(w, y, w.workers[y]);
        }
      }
    case Confirming(manifest) =>
      if found != None {
        assert w.manifests[|w.manifests| - 1] in w.manifests;
      }
    case _ =>
  }

  /** What `x` may turn into without the store's doing. */
  ghost predicate MayTurn(c: Config, w: World, x: string, worker': Worker)
    requires x in w.workers
  {
    && MayBecome(w, x, worker')
    && (InLease(worker'.phase) ==> InLease(w.workers[x].phase) && worker'.lease == w.workers[x].lease)
    && WorkerOk(c, w, x, worker')
  }

  /** A step by which `x` moves on, leaving requests behind, while the store stays as it is. */
  lemma MoveKeeps(c: Config, w: World, x: string, worker': Worker, left: set<Request>)
    requires Inv(c, w) && Active(w, x) && MayTurn(c, w, x, worker')
    requires forall r :: r in left ==> RequestOk(c, w, r)
    ensures Inv(c, Moved(w.(late := w.late + left), x, worker'))
  {
    hide WorkerOk, StoreOk, WorkersOk, Exclusive, RequestOk, MayBecome;
    var w' := Moved(w.(late := w.late + left), x, worker');
    MovesGrows(w, w, w', x, worker');
    MovesKeepStore(c, w, w, w', x, worker');
    WorkerStays(c, w, w', x, worker');
    forall r | r in left ensures RequestOk(c, w', r) {
      RequestStays(c, w, w', r);
    }
    MovesKeepWorkers(c, w, w, w', x, worker');
    if c.sound {
      MovesKeepExclusive(w, w, w', x, worker');
    }
  }

  lemma ReadKeeps(c: Config, w: World, x: string)
    requires Inv(c, w) && Enabled(c, w, Read(x))
    ensures Inv(c, After(c, w, Read(x)))
  {
    var name := Reads(w.workers[x]).value;
    var found := if name in w.bucket.objects then Some(w.bucket.objects[name]) else None;
    assert WorkerOk(c, w, x, w.workers[x]);
    SeenOk(c, w, x, found);
    assert Moved(w, x, Seen(c, w.workers[x], found)).late == w.late + {};
    MoveKeeps(c, w, x, Seen(c, w.workers[x], found), {});
  }

  lemma UnseenOk(c: Config, w: World, x: string)
    requires WorkersOk(c, w) && Active(w, x) && Reads(w.workers[x]) != None
    ensures MayTurn(c, w, x, Unseen(w.workers[x]))
  {
  }

  lemma BreakReadKeeps(c: Config, w: World, x: string)
    requires Inv(c, w) && Enabled(c, w, BreakRead(x))
    ensures Inv(c, After(c, w, BreakRead(x)))
  {
    hide MayTurn, Unseen, StoreOk, WorkersOk, Exclusive;
    UnseenOk(c, w, x);
    assert w.late + {} == w.late;
    MoveKeeps(c, w, x, Unseen(w.workers[x]), {});
  }

  // ---- Local steps ----

  lemma ProbedOk(c: Config, w: World, x: string, state: Liveness)
    requires WorkersOk(c, w) && Enabled(c, w, Probe(x, state))
    ensures MayTurn(c, w, x, After(c, w, Probe(x, state)).workers[x])
  {
    assert WorkerOk(c, w, x, w.workers[x]);
  }

  /** A sound probe that allows a reclaim has proved that nobody holds the lease. */
  lemma ProbeKeeps(c: Config, w: World, x: string, state: Liveness)
    requires Inv(c, w) && Enabled(c, w, Probe(x, state))
    ensures Inv(c, After(c, w, Probe(x, state)))
  {
    hide MayTurn, StoreOk, WorkersOk, Exclusive;
    ProbedOk(c, w, x, state);
    var w' := After(c, w, Probe(x, state));
    assert w.late + {} == w.late;
    MoveKeeps(c, w, x, w'.workers[x], {});
  }

  lemma ChosenOk(c: Config, w: World, x: string, choice: Choice)
    requires WorkersOk(c, w) && Active(w, x) && MayChoose(w.workers[x], choice)
    ensures MayTurn(c, w, x, Chosen(w.workers[x], choice))
  {
    var worker := w.workers[x];
    assert WorkerOk(c, w, x, worker);
    if choice.Seal? {
      SameElements(choice.files, worker.phase.manifest.files);
      assert worker.phase.outputs[..worker.phase.done] == worker.phase.outputs;
      ListsReordered(c, worker.phase.manifest.files, choice.files, worker.phase.outputs);
    }
  }

  lemma ChooseKeeps(c: Config, w: World, x: string, choice: Choice)
    requires Inv(c, w) && Enabled(c, w, Choose(x, choice))
    ensures Inv(c, After(c, w, Choose(x, choice)))
  {
    hide MayTurn, Chosen, StoreOk, WorkersOk, Exclusive;
    ChosenOk(c, w, x, choice);
    assert w.late + {} == w.late;
    MoveKeeps(c, w, x, Chosen(w.workers[x], choice), {});
  }

  lemma StartKeeps(c: Config, w: World, x: string)
    requires Inv(c, w) && Enabled(c, w, Start(x))
    ensures Inv(c, After(c, w, Start(x)))
  {
    var w' := After(c, w, Start(x));
    var worker' := w'.workers[x];
    MovesGrows(w, w, w', x, worker');
    MovesKeepStore(c, w, w, w', x, worker');
    MovesKeepWorkers(c, w, w, w', x, worker');
    if c.sound {
      MovesKeepExclusive(w, w, w', x, worker');
    }
  }

  lemma EndKeeps(c: Config, w: World, x: string)
    requires Inv(c, w) && Enabled(c, w, End(x))
    ensures Inv(c, After(c, w, End(x)))
  {
    var w' := After(c, w, End(x));
    forall y | Holding(w', y) ensures Holding(w, y) {
    }
    assert Grows(w, w');
    StoreGrowthKeepsWorkers(c, w, w');
    forall l | l in w'.landings ensures LandingOk(w', l) {
      LandingStays(w, w', l);
    }
  }

  lemma OutsideGrows(c: Config, w: World, path: string, bytes: Bytes)
    requires ValidBucket(w.bucket)
    ensures Grows(w, After(c, w, Outside(path, bytes)))
  {
  }

  lemma OutsideKeeps(c: Config, w: World, path: string, bytes: Bytes)
    requires Inv(c, w)
    ensures Inv(c, After(c, w, Outside(path, bytes)))
  {
    hide WorkerOk, RequestOk, LandingOk, Resolves;
    var w' := After(c, w, Outside(path, bytes));
    AppliedKeeps(w.bucket, Write(Other(path), Data(bytes), Condition(false, 0)));
    OutsideGrows(c, w, path, bytes);
    StoreGrowthKeepsWorkers(c, w, w');
    forall l | l in w'.landings ensures LandingOk(w', l) {
      LandingStays(w, w', l);
    }
    forall commit | commit in w'.manifests ensures Resolves(c, w'.bucket, commit.manifest) {
      ResolvesStays(c, w, w', commit.manifest);
    }
  }

  lemma StepKeeps(c: Config, w: World, step: Step)
    requires Inv(c, w) && Enabled(c, w, step)
    ensures Inv(c, After(c, w, step))
  {
    hide Inv;
    match step
    case Start(x) => StartKeeps(c, w, x);
    case End(x) => EndKeeps(c, w, x);
    case Call(x) => CallKeeps(c, w, x);
    case Break(x) => BreakKeeps(c, w, x);
    case Deliver(r) => DeliverKeeps(c, w, r);
    case Read(x) => ReadKeeps(c, w, x);
    case BreakRead(x) => BreakReadKeeps(c, w, x);
    case Probe(x, state) => ProbeKeeps(c, w, x, state);
    case Choose(x, choice) => ChooseKeeps(c, w, x, choice);
    case Outside(path, bytes) => OutsideKeeps(c, w, path, bytes);
  }
}
