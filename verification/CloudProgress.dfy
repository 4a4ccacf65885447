/** What an undisturbed worker gets done: from an idle bucket, or one whose lease holder is dead, to committed and recorded. */
module CloudProgress {
  import opened Options
  import opened ByteStrings
  import opened ObjectStore
  import opened CloudProtocol
  import opened CloudInvariant
  import opened CloudTheorems

  // ---- Runs of steps ----

  /** The steps lead, one after the other, from `w` to `w'`. */
  predicate Leads(c: Config, w: World, steps: seq<Step>, w': World)
    decreases |steps|
  {
    if steps == [] then w' == w else Enabled(c, w, steps[0]) && Leads(c, After(c, w, steps[0]), steps[1..], w')
  }

  lemma {:induction false} LeadsOn(c: Config, w: World, a: seq<Step>, v: World, b: seq<Step>, w': World)
    requires Leads(c, w, a, v) && Leads(c, v, b, w')
    ensures Leads(c, w, a + b, w')
    decreases |a|
  {
    hide Enabled, After;
    if a == [] {
      assert a + b == b;
    } else {
      assert (a + b)[1..] == a[1..] + b;
      LeadsOn(c, After(c, w, a[0]), a[1..], v, b, w');
    }
  }

  lemma Also(c: Config, w: World, a: seq<Step>, v: World, b: seq<Step>, w': World, ab: seq<Step>)
    requires Leads(c, w, a, v) && Leads(c, v, b, w') && ab == a + b
    ensures Leads(c, w, ab, w')
  {
    LeadsOn(c, w, a, v, b, w');
  }

  lemma Begin(c: Config, w: World)
    ensures Leads(c, w, [], w)
  {
  }

  lemma LeadsOne(c: Config, w: World, step: Step)
    requires Enabled(c, w, step)
    ensures Leads(c, w, [step], After(c, w, step))
  {
    assert [step][1..] == [];
  }

  /** Steps that follow a run make a longer run. */
  lemma {:induction false} RunGoesOn(c: Config, worlds: seq<World>, steps: seq<Step>, more: seq<Step>, w': World) returns (later: seq<World>)
    requires Run(c, worlds, steps) && Leads(c, worlds[|steps|], more, w')
    ensures Run(c, worlds + later, steps + more) && (worlds + later)[|steps + more|] == w'
    decreases |more|
  {
    hide Enabled, After, Initial;
    if more == [] {
      later := [];
      assert worlds + later == worlds && steps + more == steps;
    } else {
      var next := After(c, worlds[|steps|], more[0]);
      assert Run(c, worlds + [next], steps + [more[0]]);
      var rest := RunGoesOn(c, worlds + [next], steps + [more[0]], more[1..], w');
      later := [next] + rest;
      assert worlds + later == (worlds + [next]) + rest && steps + more == (steps + [more[0]]) + more[1..];
    }
  }

  // ---- Getting the lease ----

  /** The lease is free, or its holder is an execution of this job that is reported dead. */
  predicate Available(c: Config, w: World, x: string, state: Liveness) {
    Lease in w.bucket.objects ==>
      var lease := w.bucket.objects[Lease];
      && lease.content.LeaseBody? && ExecutionBelongsToJob(lease.content.execution, c.job)
      && (state == Terminal || state == ProbeNotFound)
      && (c.sound ==> lease.content.execution !in w.alive + {x})
  }

  function Acquiring(w: World, x: string, state: Liveness): seq<Step> {
    if Lease !in w.bucket.objects then [Start(x), Call(x)]
    else [Start(x), Call(x), Read(x), Probe(x, state), Call(x), Call(x)]
  }

  /** The objects but those of some names are as they were. */
  ghost predicate SameBut(w: World, w': World, names: set<Name>) {
    && (forall n :: n !in names ==> (n in w'.bucket.objects <==> n in w.bucket.objects))
    && (forall n :: n !in names && n in w.bucket.objects ==> w'.bucket.objects[n] == w.bucket.objects[n])
  }

  /** `x` holds the lease and has done nothing with it. */
  ghost predicate Ready(w: World, x: string) {
    && ValidBucket(w.bucket) && Active(w, x)
    && Lease in w.bucket.objects && w.bucket.objects[Lease].content == LeaseBody(x)
    && w.workers[x] == Worker(Gathering, w.bucket.objects[Lease].generation, [], Undecided)
  }

  ghost predicate SameHistory(w: World, w': World) {
    w'.manifests == w.manifests && w'.landings == w.landings && w'.late == w.late
  }

  /** The step of `x` changes its worker and these objects, and no history. */
  ghost predicate Turn(c: Config, w: World, step: Step, w': World, x: string, names: set<Name>) {
    && Leads(c, w, [step], w') && ValidBucket(w'.bucket) && Active(w', x) && SameBut(w, w', names) && SameHistory(w, w')
  }

  lemma Starts(c: Config, w: World, x: string) returns (w': World)
    requires ValidBucket(w.bucket) && x !in w.workers
    ensures Turn(c, w, Start(x), w', x, {}) && w'.workers[x] == Worker(Starting, 0, [], Undecided)
    ensures w'.bucket == w.bucket && w'.alive == w.alive + {x}
  {
    LeadsOne(c, w, Start(x));
    w' := After(c, w, Start(x));
  }

  lemma TakesLease(c: Config, w: World, x: string) returns (w': World)
    requires ValidBucket(w.bucket) && Active(w, x) && Lease !in w.bucket.objects
    requires w.workers[x] == Worker(Starting, 0, [], Undecided) || w.workers[x] == Worker(Retrying, 0, [], Undecided)
    ensures Turn(c, w, Call(x), w', x, {Lease}) && Ready(w', x)
  {
    LeadsOne(c, w, Call(x));
    w' := After(c, w, Call(x));
  }

  lemma FindsLeaseTaken(c: Config, w: World, x: string) returns (w': World)
    requires ValidBucket(w.bucket) && Active(w, x) && Lease in w.bucket.objects
    requires w.workers[x] == Worker(Starting, 0, [], Undecided)
    ensures Turn(c, w, Call(x), w', x, {}) && w'.workers[x] == Worker(Contending, 0, [], Undecided)
    ensures w'.bucket == w.bucket && w'.alive == w.alive
  {
    LeadsOne(c, w, Call(x));
    w' := After(c, w, Call(x));
  }

  lemma LooksAtLease(c: Config, w: World, x: string) returns (w': World)
    requires ValidBucket(w.bucket) && Active(w, x) && Lease in w.bucket.objects && w.bucket.objects[Lease].content.LeaseBody?
    requires ExecutionBelongsToJob(w.bucket.objects[Lease].content.execution, c.job)
    requires w.workers[x] == Worker(Contending, 0, [], Undecided)
    ensures var lease := w.bucket.objects[Lease];
            Turn(c, w, Read(x), w', x, {}) && w'.workers[x] == Worker(Probing(lease.generation, lease.content.execution), 0, [], Undecided)
    ensures w'.bucket == w.bucket && w'.alive == w.alive
  {
    LeadsOne(c, w, Read(x));
    w' := After(c, w, Read(x));
  }

  lemma ProbesDead(c: Config, w: World, x: string, state: Liveness, generation: nat, holder: string) returns (w': World)
    requires ValidBucket(w.bucket) && Active(w, x) && w.workers[x] == Worker(Probing(generation, holder), 0, [], Undecided)
    requires (state == Terminal || state == ProbeNotFound) && (c.sound ==> holder !in w.alive)
    ensures Turn(c, w, Probe(x, state), w', x, {}) && w'.workers[x] == Worker(Reclaiming(generation, holder), 0, [], Undecided)
    ensures w'.bucket == w.bucket
  {
    LeadsOne(c, w, Probe(x, state));
    w' := After(c, w, Probe(x, state));
  }

  lemma RemovesDead(c: Config, w: World, x: string, holder: string) returns (w': World)
    requires ValidBucket(w.bucket) && Active(w, x) && Lease in w.bucket.objects
    requires w.workers[x] == Worker(Reclaiming(w.bucket.objects[Lease].generation, holder), 0, [], Undecided)
    ensures Turn(c, w, Call(x), w', x, {Lease}) && w'.workers[x] == Worker(Retrying, 0, [], Undecided)
    ensures Lease !in w'.bucket.objects
  {
    LeadsOne(c, w, Call(x));
    w' := After(c, w, Call(x));
  }

  lemma Acquires(c: Config, w: World, x: string, state: Liveness) returns (w': World)
    requires ValidBucket(w.bucket) && x !in w.workers && Available(c, w, x, state)
    ensures Leads(c, w, Acquiring(w, x, state), w') && Ready(w', x) && SameBut(w, w', {Lease}) && SameHistory(w, w')
  {
    hide Leads, ValidBucket, ExecutionBelongsToJob;
    var w1 := Starts(c, w, x);
    if Lease !in w.bucket.objects {
      w' := TakesLease(c, w1, x);
      Also(c, w, [Start(x)], w1, [Call(x)], w', Acquiring(w, x, state));
    } else {
      var lease := w.bucket.objects[Lease];
      var w2 := FindsLeaseTaken(c, w1, x);
      var w3 := LooksAtLease(c, w2, x);
      var w4 := ProbesDead(c, w3, x, state, lease.generation, lease.content.execution);
      var w5 := RemovesDead(c, w4, x, lease.content.execution);
      w' := TakesLease(c, w5, x);
      Also(c, w, [Start(x)], w1, [Call(x)], w2, [Start(x), Call(x)]);
      Also(c, w, [Start(x), Call(x)], w2, [Read(x)], w3, [Start(x), Call(x), Read(x)]);
      Also(c, w4, [Call(x)], w5, [Call(x)], w', [Call(x), Call(x)]);
      Also(c, w3, [Probe(x, state)], w4, [Call(x), Call(x)], w', [Probe(x, state), Call(x), Call(x)]);
      Also(c, w, [Start(x), Call(x), Read(x)], w3, [Probe(x, state), Call(x), Call(x)], w', Acquiring(w, x, state));
    }
  }

  // ---- Building a generation ----

  /** What a run reads as the current manifest. */
  function BaseOf(b: Bucket): Option<Commit> {
    if CurrentManifest in b.objects && b.objects[CurrentManifest].content.ManifestBody?
    then Some(Commit(b.objects[CurrentManifest].content.manifest, b.objects[CurrentManifest].generation))
    else None
  }

  predicate ManifestReads(b: Bucket) {
    CurrentManifest in b.objects ==> b.objects[CurrentManifest].content.ManifestBody?
  }

  datatype Plan = Plan(snapshots: seq<Snapshot>, id: string, createdAt: string, inputFingerprint: string, outputs: seq<Output>)

  function Draft(b: Bucket, plan: Plan, files: seq<File>): Manifest {
    Manifest(plan.id, CurrentID(b), plan.createdAt, plan.inputFingerprint, files)
  }

  lemma ReadsCurrent(c: Config, w: World, x: string) returns (w': World)
    requires Ready(w, x) && ManifestReads(w.bucket)
    ensures Turn(c, w, Read(x), w', x, {}) && w'.bucket == w.bucket
    ensures w'.workers[x] == w.workers[x].(phase := Preparing(BaseOf(w.bucket)))
  {
    LeadsOne(c, w, Read(x));
    w' := After(c, w, Read(x));
  }

  lemma Chooses(c: Config, w: World, x: string, choice: Choice) returns (w': World)
    requires ValidBucket(w.bucket) && Active(w, x) && MayChoose(w.workers[x], choice)
    ensures Turn(c, w, Choose(x, choice), w', x, {}) && w'.bucket == w.bucket && w'.workers[x] == Chosen(w.workers[x], choice)
  {
    LeadsOne(c, w, Choose(x, choice));
    w' := After(c, w, Choose(x, choice));
  }

  function Gathered(x: string, plan: Plan): seq<Step> {
    [Read(x), Choose(x, Snapshots(plan.snapshots)),
     Choose(x, Generate(plan.id, plan.createdAt, plan.inputFingerprint, plan.outputs))]
  }

  lemma Gathers(c: Config, w: World, x: string, plan: Plan) returns (w': World)
    requires Ready(w, x) && ManifestReads(w.bucket) && plan.id != ""
    ensures Leads(c, w, Gathered(x, plan), w') && ValidBucket(w'.bucket) && Active(w', x) && SameHistory(w, w') && w'.bucket == w.bucket
    ensures w'.workers[x] == Worker(Uploading(BaseOf(w.bucket), Draft(w.bucket, plan, []), plan.outputs, 0),
                                    w.workers[x].lease, plan.snapshots, Undecided)
  {
    hide Leads;
    var w1 := ReadsCurrent(c, w, x);
    var choice := Generate(plan.id, plan.createdAt, plan.inputFingerprint, plan.outputs);
    var w2 := Chooses(c, w1, x, Snapshots(plan.snapshots));
    w' := Chooses(c, w2, x, choice);
    Also(c, w1, [Choose(x, Snapshots(plan.snapshots))], w2, [Choose(x, choice)], w', Gathered(x, plan)[1..]);
    Also(c, w, [Read(x)], w1, Gathered(x, plan)[1..], w', Gathered(x, plan));
  }

  // ---- Uploading ----

  function Calls(x: string, n: nat): seq<Step> {
    if n == 0 then [] else [Call(x)] + Calls(x, n - 1)
  }

  function NamesFrom(id: string, outputs: seq<Output>, done: nat): set<Name> {
    set k | done <= k < |outputs| :: Generation(id, outputs[k].path)
  }

  ghost predicate Fresh(b: Bucket, id: string, outputs: seq<Output>, done: nat) {
    && (forall k :: done <= k < |outputs| ==> Generation(id, outputs[k].path) !in b.objects)
    && forall i, k :: done <= i < k < |outputs| ==> outputs[i].path != outputs[k].path
  }

  /** From output `done` on, each file entry tells of the object that holds the output. */
  ghost predicate Uploaded(c: Config, b: Bucket, id: string, files: seq<File>, outputs: seq<Output>, done: nat) {
    && done <= |outputs| && |files| == |outputs| - done
    && forall k :: done <= k < |outputs| ==>
         var o, f := outputs[k], files[k - done];
         && f == File(o.path, |o.data|, c.sha(o.data), f.generation)
         && Generation(id, o.path) in b.objects && b.objects[Generation(id, o.path)] == Object(Data(o.data), f.generation)
  }

  lemma UploadsOne(c: Config, w: World, x: string) returns (w': World, f: File)
    requires ValidBucket(w.bucket) && Active(w, x) && w.workers[x].phase.Uploading?
    requires var p := w.workers[x].phase;
             p.done < |p.outputs| && Generation(p.manifest.generationID, p.outputs[p.done].path) !in w.bucket.objects
    ensures var p, worker := w.workers[x].phase, w.workers[x];
            var o, name := p.outputs[p.done], Generation(p.manifest.generationID, p.outputs[p.done].path);
            && Turn(c, w, Call(x), w', x, {name})
            && f == File(o.path, |o.data|, c.sha(o.data), f.generation)
            && name in w'.bucket.objects && w'.bucket.objects[name] == Object(Data(o.data), f.generation)
            && w'.workers[x] == worker.(phase := Uploading(p.base, p.manifest.(files := p.manifest.files + [f]), p.outputs, p.done + 1))
  {
    LeadsOne(c, w, Call(x));
    w' := After(c, w, Call(x));
    var o := w.workers[x].phase.outputs[w.workers[x].phase.done];
    f := File(o.path, |o.data|, c.sha(o.data), w.bucket.next);
  }

  lemma {:induction false} Uploads(c: Config, w: World, x: string) returns (w': World, files: seq<File>)
    requires ValidBucket(w.bucket) && Active(w, x) && w.workers[x].phase.Uploading?
    requires var p := w.workers[x].phase; p.done <= |p.outputs| && Fresh(w.bucket, p.manifest.generationID, p.outputs, p.done)
    ensures var p, worker := w.workers[x].phase, w.workers[x];
            var id := p.manifest.generationID;
            && Leads(c, w, Calls(x, |p.outputs| - p.done), w') && ValidBucket(w'.bucket) && Active(w', x)
            && SameBut(w, w', NamesFrom(id, p.outputs, p.done)) && SameHistory(w, w')
            && Uploaded(c, w'.bucket, id, files, p.outputs, p.done)
            && w'.workers[x] == worker.(phase := Uploading(p.base, p.manifest.(files := p.manifest.files + files), p.outputs, |p.outputs|))
    decreases |w.workers[x].phase.outputs| - w.workers[x].phase.done
  {
    hide Leads, ValidBucket, SameBut, Uploaded, Fresh, NamesFrom;
    var p := w.workers[x].phase;
    if p.done == |p.outputs| {
      w', files := w, [];
      Begin(c, w);
      assert p.manifest.files + [] == p.manifest.files;
      NothingUploaded(c, w, p.manifest.generationID, p.outputs);
    } else {
      UploadingParts(c, w, x);
      var w1, f := UploadsOne(c, w, x);
      StillFresh(w, w1, p.manifest.generationID, p.outputs, p.done);
      var rest;
      w', rest := Uploads(c, w1, x);
      files := [f] + rest;
      var n := |p.outputs| - p.done;
      Also(c, w, [Call(x)], w1, Calls(x, n - 1), w', Calls(x, n));
      assert (p.manifest.files + [f]) + rest == p.manifest.files + files;
      FirstUploaded(c, w, w1, w', p.manifest.generationID, f, rest, p.outputs, p.done);
    }
  }

  lemma UploadingParts(c: Config, w: World, x: string)
    requires ValidBucket(w.bucket) && Active(w, x) && w.workers[x].phase.Uploading?
    requires var p := w.workers[x].phase; p.done < |p.outputs| && Fresh(w.bucket, p.manifest.generationID, p.outputs, p.done)
    ensures var p := w.workers[x].phase; Generation(p.manifest.generationID, p.outputs[p.done].path) !in w.bucket.objects
  {
  }

  lemma NothingUploaded(c: Config, w: World, id: string, outputs: seq<Output>)
    ensures Uploaded(c, w.bucket, id, [], outputs, |outputs|) && SameBut(w, w, NamesFrom(id, outputs, |outputs|))
  {
  }

  lemma StillFresh(w: World, w': World, id: string, outputs: seq<Output>, done: nat)
    requires done < |outputs| && Fresh(w.bucket, id, outputs, done) && SameBut(w, w', {Generation(id, outputs[done].path)})
    ensures Fresh(w'.bucket, id, outputs, done + 1)
  {
  }

  lemma SameButJoins(w: World, v: World, w': World, a: set<Name>, b: set<Name>, names: set<Name>)
    requires SameBut(w, v, a) && SameBut(v, w', b) && a <= names && b <= names
    ensures SameBut(w, w', names)
  {
  }

  lemma FirstUploaded(c: Config, v: World, w: World, w': World, id: string, f: File, rest: seq<File>, outputs: seq<Output>, done: nat)
    requires done < |outputs| && Uploaded(c, w'.bucket, id, rest, outputs, done + 1) && SameBut(w, w', NamesFrom(id, outputs, done + 1))
    requires Fresh(v.bucket, id, outputs, done) && SameBut(v, w, {Generation(id, outputs[done].path)})
    requires var o := outputs[done];
             && f == File(o.path, |o.data|, c.sha(o.data), f.generation)
             && Generation(id, o.path) in w.bucket.objects && w.bucket.objects[Generation(id, o.path)] == Object(Data(o.data), f.generation)
    ensures Uploaded(c, w'.bucket, id, [f] + rest, outputs, done) && SameBut(v, w', NamesFrom(id, outputs, done))
  {
    hide SameBut;
    var names := NamesFrom(id, outputs, done);
    assert Generation(id, outputs[done].path) !in NamesFrom(id, outputs, done + 1);
    Untouched(w, w', Generation(id, outputs[done].path), NamesFrom(id, outputs, done + 1));
    assert Generation(id, outputs[done].path) in names && NamesFrom(id, outputs, done + 1) <= names;
    SameButJoins(v, w, w', {Generation(id, outputs[done].path)}, NamesFrom(id, outputs, done + 1), names);
  }

  lemma Untouched(w: World, w': World, name: Name, names: set<Name>)
    requires SameBut(w, w', names) && name !in names && name in w.bucket.objects
    ensures name in w'.bucket.objects && w'.bucket.objects[name] == w.bucket.objects[name]
  {
  }

  // ---- Sorting the file list ----

  lemma {:induction false} NotAfterTotal(a: string, b: string)
    ensures NotAfter(a, b) || NotAfter(b, a)
  {
    if a != "" && b != "" {
      NotAfterTotal(a[1..], b[1..]);
    }
  }

  lemma {:induction false} NotAfterJoins(a: string, b: string, d: string)
    requires NotAfter(a, b) && NotAfter(b, d)
    ensures NotAfter(a, d)
  {
    if a != "" && a[0] == b[0] == d[0] {
      NotAfterJoins(a[1..], b[1..], d[1..]);
    }
  }

  lemma {:induction false} CanBeSorted(files: seq<File>) returns (sorted: seq<File>)
    ensures Sorted(sorted) && multiset(sorted) == multiset(files)
  {
    hide NotAfter;
    if files == [] {
      sorted := [];
    } else {
      var rest := CanBeSorted(files[1..]);
      sorted := CanBeInserted(files[0], rest);
      assert files == [files[0]] + files[1..];
    }
  }

  lemma {:induction false} CanBeInserted(f: File, files: seq<File>) returns (sorted: seq<File>)
    requires Sorted(files)
    ensures Sorted(sorted) && multiset(sorted) == multiset([f] + files)
    decreases |files|
  {
    hide NotAfter;
    if files == [] {
      sorted := [f];
    } else if NotAfter(f.path, files[0].path) {
      sorted := [f] + files;
      forall k | 0 <= k < |files| ensures NotAfter(f.path, files[k].path) {
        if k > 0 {
          NotAfterJoins(f.path, files[0].path, files[k].path);
        }
      }
    } else {
      NotAfterTotal(f.path, files[0].path);
      var rest := CanBeInserted(f, files[1..]);
      sorted := [files[0]] + rest;
      assert files == [files[0]] + files[1..];
      FirstIsLeast(f, files, rest);
    }
  }

  lemma FirstIsLeast(f: File, files: seq<File>, rest: seq<File>)
    requires files != [] && Sorted(files) && NotAfter(files[0].path, f.path) && multiset(rest) == multiset([f] + files[1..])
    ensures forall k :: 0 <= k < |rest| ==> NotAfter(files[0].path, rest[k].path)
  {
    hide NotAfter;
    var all := [f] + files[1..];
    forall k | 0 <= k < |rest| ensures NotAfter(files[0].path, rest[k].path) {
      assert rest[k] in multiset(rest);
      assert rest[k] in all;
    }
  }

  // ---- Committing ----

  /** A run whose generation is complete. */
  ghost predicate AtCommit(w: World, x: string, base: Option<Commit>, m: Manifest) {
    ValidBucket(w.bucket) && Active(w, x) && w.workers[x].phase.Committing?
    && w.workers[x].phase.base == base && w.workers[x].phase.manifest == m
  }

  ghost predicate Settles(w: World, x: string, w': World, verdict: Verdict)
    requires x in w.workers
  {
    ValidBucket(w'.bucket) && Active(w', x) && w'.workers[x] == w.workers[x].(phase := Recording(0), verdict := verdict)
  }

  /** The manifest `m` has become the current one. */
  ghost predicate CommittedNow(w: World, w': World, m: Manifest) {
    && CurrentManifest in w'.bucket.objects && w'.bucket.objects[CurrentManifest].content == ManifestBody(m)
    && w'.manifests == w.manifests + [Commit(m, w'.bucket.objects[CurrentManifest].generation)]
    && w'.landings == w.landings && SameBut(w, w', {CurrentManifest})
  }

  lemma Commits(c: Config, w: World, x: string, m: Manifest) returns (w': World)
    requires AtCommit(w, x, BaseOf(w.bucket), m) && ManifestReads(w.bucket)
    ensures Leads(c, w, [Call(x)], w') && Settles(w, x, w', Confirmed(m)) && CommittedNow(w, w', m)
  {
    LeadsOne(c, w, Call(x));
    w' := After(c, w, Call(x));
  }

  /** The request that a worker gave up is served after all, and then it looks. */
  function CommitsUnseen(w: World, x: string): seq<Step>
    requires x in w.workers && w.workers[x].phase.Committing?
  {
    [Break(x), Deliver(Pending(x, w.workers[x]).value), Read(x)]
  }

  lemma CommitsLate(c: Config, w: World, x: string, m: Manifest) returns (w': World)
    requires AtCommit(w, x, BaseOf(w.bucket), m) && ManifestReads(w.bucket)
    ensures Leads(c, w, CommitsUnseen(w, x), w') && Settles(w, x, w', Confirmed(m)) && CommittedNow(w, w', m)
  {
    hide Leads;
    var w1 := LosesAnswer(c, w, x);
    var w2 := IsServed(c, w, w1, x);
    w' := ReadsBack(c, w2, x, m);
    var r := Pending(x, w.workers[x]).value;
    Also(c, w1, [Deliver(r)], w2, [Read(x)], w', [Deliver(r), Read(x)]);
    Also(c, w, [Break(x)], w1, [Deliver(r), Read(x)], w', CommitsUnseen(w, x));
  }

  lemma LosesAnswer(c: Config, w: World, x: string) returns (w': World)
    requires ValidBucket(w.bucket) && Active(w, x) && w.workers[x].phase.Committing?
    ensures Leads(c, w, [Break(x)], w') && w'.bucket == w.bucket && w'.manifests == w.manifests && w'.landings == w.landings
    ensures Active(w', x) && w'.workers[x] == w.workers[x].(phase := Confirming(w.workers[x].phase.manifest))
    ensures Pending(x, w.workers[x]).value in w'.late
  {
    LeadsOne(c, w, Break(x));
    w' := After(c, w, Break(x));
  }

  lemma IsServed(c: Config, w: World, w1: World, x: string) returns (w': World)
    requires ValidBucket(w.bucket) && Active(w, x) && w.workers[x].phase.Committing? && w.workers[x].phase.base == BaseOf(w.bucket)
    requires ManifestReads(w.bucket) && w1.bucket == w.bucket && w1.manifests == w.manifests && w1.landings == w.landings
    requires Pending(x, w.workers[x]).value in w1.late
    ensures Leads(c, w1, [Deliver(Pending(x, w.workers[x]).value)], w') && w'.workers == w1.workers && w'.alive == w1.alive
    ensures ValidBucket(w'.bucket) && CommittedNow(w, w', w.workers[x].phase.manifest)
  {
    var r := Pending(x, w.workers[x]).value;
    LeadsOne(c, w1, Deliver(r));
    w' := After(c, w1, Deliver(r));
  }

  lemma ReadsBack(c: Config, w: World, x: string, m: Manifest) returns (w': World)
    requires ValidBucket(w.bucket) && Active(w, x) && w.workers[x].phase == Confirming(m)
    requires CurrentManifest in w.bucket.objects && w.bucket.objects[CurrentManifest].content == ManifestBody(m)
    ensures Leads(c, w, [Read(x)], w') && Settles(w, x, w', Confirmed(m))
    ensures w'.bucket == w.bucket && w'.manifests == w.manifests && w'.landings == w.landings
  {
    LeadsOne(c, w, Read(x));
    w' := After(c, w, Read(x));
  }

  /** Someone else has committed since: the write is refused, and the read-back finds another manifest. */
  lemma IsRefused(c: Config, w: World, x: string, base: Option<Commit>, m: Manifest) returns (w': World)
    requires AtCommit(w, x, base, m)
    requires CurrentManifest in w.bucket.objects && w.bucket.objects[CurrentManifest].content != ManifestBody(m)
    requires base != None ==> 0 < base.value.generation != w.bucket.objects[CurrentManifest].generation
    ensures Leads(c, w, [Call(x), Read(x)], w') && Settles(w, x, w', Conflicted(m))
    ensures w'.bucket == w.bucket && SameHistory(w, w')
  {
    LeadsOne(c, w, Call(x));
    var w1 := After(c, w, Call(x));
    LeadsOne(c, w1, Read(x));
    w' := After(c, w1, Read(x));
    Also(c, w, [Call(x)], w1, [Read(x)], w', [Call(x), Read(x)]);
  }

  // ---- Recording and letting go ----

  predicate ReceiptsRead(b: Bucket) {
    SourceStatus in b.objects ==> b.objects[SourceStatus].content.ReceiptsBody?
  }

  function Recorded(x: string, current: set<Snapshot>, now: string): seq<Step> {
    [Read(x), Choose(x, Check(current, now)), Call(x), Call(x)]
  }

  lemma ReadsReceipts(c: Config, w: World, x: string) returns (w': World)
    requires ValidBucket(w.bucket) && Active(w, x) && w.workers[x].phase == Recording(0) && ReceiptsRead(w.bucket)
    ensures Turn(c, w, Read(x), w', x, {}) && w'.bucket == w.bucket
    ensures var prior := if SourceStatus in w.bucket.objects then Some(w.bucket.objects[SourceStatus].generation) else None;
            w'.workers[x] == w.workers[x].(phase := Merging(0, prior, SourcesIn(w.bucket)))
  {
    LeadsOne(c, w, Read(x));
    w' := After(c, w, Read(x));
  }

  lemma StoresReceipts(c: Config, w: World, x: string, current: set<Snapshot>, now: string) returns (w': World)
    requires ValidBucket(w.bucket) && Active(w, x) && ReceiptsRead(w.bucket)
    requires var prior := if SourceStatus in w.bucket.objects then Some(w.bucket.objects[SourceStatus].generation) else None;
             w.workers[x].phase == Storing(0, prior, SourcesIn(w.bucket), current, now)
    ensures var after := Merged(SourcesIn(w.bucket), w.workers[x].snapshots, current, w.workers[x].verdict.Confirmed?, now);
            && Leads(c, w, [Call(x)], w') && ValidBucket(w'.bucket) && Active(w', x) && SameBut(w, w', {SourceStatus})
            && w'.workers[x] == w.workers[x].(phase := Releasing(0)) && w'.manifests == w.manifests
            && SourceStatus in w'.bucket.objects && w'.bucket.objects[SourceStatus].content == ReceiptsBody(after)
  {
    LeadsOne(c, w, Call(x));
    w' := After(c, w, Call(x));
  }

  lemma LetsGo(c: Config, w: World, x: string) returns (w': World)
    requires ValidBucket(w.bucket) && Active(w, x) && w.workers[x].phase == Releasing(0)
    requires Lease in w.bucket.objects && w.bucket.objects[Lease].generation == w.workers[x].lease
    ensures Turn(c, w, Call(x), w', x, {Lease}) && Lease !in w'.bucket.objects
    ensures w'.workers[x] == w.workers[x].(phase := Finished)
  {
    LeadsOne(c, w, Call(x));
    w' := After(c, w, Call(x));
  }

  /** What the receipts object and the lease are after a run that knew its verdict. */
  ghost predicate Closed(w: World, w': World, x: string, current: set<Snapshot>, now: string)
    requires x in w.workers
  {
    var worker := w.workers[x];
    && SourceStatus in w'.bucket.objects && Lease !in w'.bucket.objects
    && w'.bucket.objects[SourceStatus].content
       == ReceiptsBody(Merged(SourcesIn(w.bucket), worker.snapshots, current, worker.verdict.Confirmed?, now))
    && x in w'.workers && w'.workers[x] == worker.(phase := Finished)
    && SameBut(w, w', {SourceStatus, Lease}) && w'.manifests == w.manifests
  }

  /** A run with a verdict whose calls are answered writes its receipts, and then gives the lease back. */
  lemma Records(c: Config, w: World, x: string, current: set<Snapshot>, now: string) returns (w': World)
    requires ValidBucket(w.bucket) && Active(w, x) && w.workers[x].phase == Recording(0) && ReceiptsRead(w.bucket)
    requires Lease in w.bucket.objects && w.bucket.objects[Lease].generation == w.workers[x].lease
    ensures Leads(c, w, Recorded(x, current, now), w') && Closed(w, w', x, current, now)
  {
    hide Leads, ValidBucket;
    var w1 := ReadsReceipts(c, w, x);
    var w2 := Chooses(c, w1, x, Check(current, now));
    var w3 := StoresReceipts(c, w2, x, current, now);
    w' := LetsGo(c, w3, x);
    Also(c, w2, [Call(x)], w3, [Call(x)], w', [Call(x), Call(x)]);
    Also(c, w1, [Choose(x, Check(current, now))], w2, [Call(x), Call(x)], w', Recorded(x, current, now)[1..]);
    Also(c, w, [Read(x)], w1, Recorded(x, current, now)[1..], w', Recorded(x, current, now));
  }

  // ---- The whole run ----

  function Prepared(w: World, x: string, state: Liveness, plan: Plan, files: seq<File>): seq<Step> {
    Acquiring(w, x, state) + Gathered(x, plan) + Calls(x, |plan.outputs|) + [Choose(x, Seal(files))]
  }

  /** The file list is the outputs' in order of their paths, each with its object. */
  ghost predicate FilesAre(c: Config, b: Bucket, id: string, files: seq<File>, outputs: seq<Output>) {
    && Sorted(files) && exists unsorted :: multiset(files) == multiset(unsorted) && Uploaded(c, b, id, unsorted, outputs, 0)
  }

  /** From idle to the last step before the commit. */
  lemma Prepares(c: Config, w: World, x: string, state: Liveness, plan: Plan) returns (w': World, files: seq<File>)
    requires ValidBucket(w.bucket) && x !in w.workers && Available(c, w, x, state) && ManifestReads(w.bucket)
    requires plan.id != "" && Fresh(w.bucket, plan.id, plan.outputs, 0)
    ensures Leads(c, w, Prepared(w, x, state, plan, files), w') && SameHistory(w, w') && ValidBucket(w'.bucket) && Active(w', x)
    ensures SameBut(w, w', {Lease} + NamesFrom(plan.id, plan.outputs, 0)) && FilesAre(c, w'.bucket, plan.id, files, plan.outputs)
    ensures Lease in w'.bucket.objects
    ensures w'.workers[x] == Worker(Committing(BaseOf(w.bucket), Draft(w.bucket, plan, files), plan.outputs),
                                    w'.bucket.objects[Lease].generation, plan.snapshots, Undecided)
  {
    hide Leads, ValidBucket, Fresh, Uploaded, SameBut, Sorted, BaseOf, CurrentID, ManifestReads, Available, ExecutionBelongsToJob,
         NamesFrom;
    var w1 := Acquires(c, w, x, state);
    LeaseIsApart(w, w1, plan.id, plan.outputs);
    var w2 := Gathers(c, w1, x, plan);
    var w3, unsorted := Uploads(c, w2, x);
    UploadsAreApart(w2, w3, plan.id, plan.outputs);
    files := CanBeSorted(unsorted);
    w' := Chooses(c, w3, x, Seal(files));
    SameStart(w1, w2, w3, NamesFrom(plan.id, plan.outputs, 0));
    SameButJoins(w, w1, w3, {Lease}, NamesFrom(plan.id, plan.outputs, 0), {Lease} + NamesFrom(plan.id, plan.outputs, 0));
    SameBucket(w, w3, w', {Lease} + NamesFrom(plan.id, plan.outputs, 0));
    assert FilesAre(c, w'.bucket, plan.id, files, plan.outputs);
    var acquired, gathered := Acquiring(w, x, state), Gathered(x, plan);
    Also(c, w, acquired, w1, gathered, w2, acquired + gathered);
    Also(c, w, acquired + gathered, w2, Calls(x, |plan.outputs|), w3, acquired + gathered + Calls(x, |plan.outputs|));
    Also(c, w, acquired + gathered + Calls(x, |plan.outputs|), w3, [Choose(x, Seal(files))], w', Prepared(w, x, state, plan, files));
  }

  lemma SameBucket(w: World, v: World, w': World, names: set<Name>)
    requires SameBut(w, v, names) && v.bucket == w'.bucket
    ensures SameBut(w, w', names)
  {
  }

  lemma SameStart(w: World, v: World, w': World, names: set<Name>)
    requires w.bucket == v.bucket && SameBut(v, w', names)
    ensures SameBut(w, w', names)
  {
  }

  lemma LeaseIsApart(w: World, w': World, id: string, outputs: seq<Output>)
    requires SameBut(w, w', {Lease})
    ensures Fresh(w.bucket, id, outputs, 0) ==> Fresh(w'.bucket, id, outputs, 0)
    ensures BaseOf(w'.bucket) == BaseOf(w.bucket) && CurrentID(w'.bucket) == CurrentID(w.bucket)
    ensures ManifestReads(w.bucket) ==> ManifestReads(w'.bucket)
  {
  }

  lemma UploadsAreApart(w: World, w': World, id: string, outputs: seq<Output>)
    requires SameBut(w, w', NamesFrom(id, outputs, 0))
    ensures Lease in w.bucket.objects ==> Lease in w'.bucket.objects && w'.bucket.objects[Lease] == w.bucket.objects[Lease]
  {
  }

  function Completed(x: string, base: Option<Commit>, m: Manifest, outputs: seq<Output>, lost: bool, current: set<Snapshot>, now: string):
    seq<Step>
  {
    (if lost then [Break(x), Deliver(Publish(x, m, base, outputs)), Read(x)] else [Call(x)]) + Recorded(x, current, now)
  }

  /**
   * A worker whose calls are answered, or whose manifest write is served although its answer is lost, publishes
   * its outputs, records its sources and gives the lease back; whether the lease was free or a dead worker's.
   */
  lemma UndisturbedRun(c: Config, w: World, x: string, state: Liveness, plan: Plan, lost: bool, current: set<Snapshot>, now: string)
    returns (w': World, files: seq<File>)
    requires ValidBucket(w.bucket) && x !in w.workers && Available(c, w, x, state)
    requires ManifestReads(w.bucket) && ReceiptsRead(w.bucket) && plan.id != "" && Fresh(w.bucket, plan.id, plan.outputs, 0)
    ensures var m := Manifest(plan.id, CurrentID(w.bucket), plan.createdAt, plan.inputFingerprint, files);
            && Leads(c, w, Prepared(w, x, state, plan, files)
                           + Completed(x, BaseOf(w.bucket), m, plan.outputs, lost, current, now), w')
            && FilesAre(c, w'.bucket, plan.id, files, plan.outputs)
            && CurrentManifest in w'.bucket.objects && w'.bucket.objects[CurrentManifest].content == ManifestBody(m)
            && w'.manifests == w.manifests + [Commit(m, w'.bucket.objects[CurrentManifest].generation)]
            && SourceStatus in w'.bucket.objects
            && w'.bucket.objects[SourceStatus].content == ReceiptsBody(Merged(SourcesIn(w.bucket), plan.snapshots, current, true, now))
            && Lease !in w'.bucket.objects
            && x in w'.workers && w'.workers[x].phase == Finished && w'.workers[x].verdict == Confirmed(m)
            && SameBut(w, w', {Lease, CurrentManifest, SourceStatus} + NamesFrom(plan.id, plan.outputs, 0))
  {
    hide Leads, ValidBucket, Fresh, SameBut, Sorted, Merged, Available, Uploaded, NamesFrom, FilesAre, CommittedNow;
    var w1;
    w1, files := Prepares(c, w, x, state, plan);
    var m := Draft(w.bucket, plan, files);
    var base, names := BaseOf(w.bucket), NamesFrom(plan.id, plan.outputs, 0);
    PreparingIsApart(w, w1, plan.id, plan.outputs);
    var w2;
    if lost {
      w2 := CommitsLate(c, w1, x, m);
    } else {
      w2 := Commits(c, w1, x, m);
    }
    CommittingIsApart(w1, w2, m);
    w' := Records(c, w2, x, current, now);
    ClosingIsApart(c, w1, w2, w', x, current, now, m, plan, files);
    SameButJoins(w1, w2, w', {CurrentManifest}, {SourceStatus, Lease}, {CurrentManifest, SourceStatus, Lease});
    SameButJoins(w, w1, w', {Lease} + names, {CurrentManifest, SourceStatus, Lease}, {Lease, CurrentManifest, SourceStatus} + names);
    var committing := if lost then [Break(x), Deliver(Publish(x, m, base, plan.outputs)), Read(x)] else [Call(x)];
    Also(c, w1, committing, w2, Recorded(x, current, now), w', Completed(x, base, m, plan.outputs, lost, current, now));
    LeadsOn(c, w, Prepared(w, x, state, plan, files), w1, Completed(x, base, m, plan.outputs, lost, current, now), w');
  }

  lemma PreparingIsApart(w: World, w': World, id: string, outputs: seq<Output>)
    requires SameBut(w, w', {Lease} + NamesFrom(id, outputs, 0))
    ensures BaseOf(w'.bucket) == BaseOf(w.bucket) && SourcesIn(w'.bucket) == SourcesIn(w.bucket)
    ensures ManifestReads(w.bucket) ==> ManifestReads(w'.bucket)
    ensures ReceiptsRead(w.bucket) ==> ReceiptsRead(w'.bucket)
  {
  }

  lemma CommittingIsApart(w: World, w': World, m: Manifest)
    requires CommittedNow(w, w', m)
    ensures SameBut(w, w', {CurrentManifest}) && SourcesIn(w'.bucket) == SourcesIn(w.bucket)
    ensures ReceiptsRead(w.bucket) ==> ReceiptsRead(w'.bucket)
    ensures Lease in w.bucket.objects ==> Lease in w'.bucket.objects && w'.bucket.objects[Lease] == w.bucket.objects[Lease]
  {
  }

  lemma ClosingIsApart(c: Config, w1: World, w2: World, w': World, x: string, current: set<Snapshot>, now: string, m: Manifest,
                       plan: Plan, files: seq<File>)
    requires CommittedNow(w1, w2, m) && x in w2.workers && Closed(w2, w', x, current, now)
    requires FilesAre(c, w1.bucket, plan.id, files, plan.outputs)
    ensures CurrentManifest in w'.bucket.objects && w'.bucket.objects[CurrentManifest].content == ManifestBody(m)
    ensures w'.manifests == w1.manifests + [Commit(m, w'.bucket.objects[CurrentManifest].generation)]
    ensures SameBut(w1, w2, {CurrentManifest}) && SameBut(w2, w', {SourceStatus, Lease})
    ensures FilesAre(c, w'.bucket, plan.id, files, plan.outputs)
  {
    hide Sorted, Merged;
    var unsorted :| multiset(files) == multiset(unsorted) && Uploaded(c, w1.bucket, plan.id, unsorted, plan.outputs, 0);
    StaysUploaded(c, w1, w2, plan.id, unsorted, plan.outputs, {CurrentManifest});
    StaysUploaded(c, w2, w', plan.id, unsorted, plan.outputs, {SourceStatus, Lease});
  }

  lemma StaysUploaded(c: Config, w: World, w': World, id: string, files: seq<File>, outputs: seq<Output>, names: set<Name>)
    requires Uploaded(c, w.bucket, id, files, outputs, 0) && SameBut(w, w', names)
    requires forall n :: n in names ==> !n.Generation?
    ensures Uploaded(c, w'.bucket, id, files, outputs, 0)
  {
  }

  /** A worker that someone else has overtaken is told so, records the failure and gives the lease back. */
  lemma OvertakenRun(c: Config, w: World, x: string, base: Option<Commit>, m: Manifest, current: set<Snapshot>, now: string)
    returns (w': World)
    requires AtCommit(w, x, base, m) && ReceiptsRead(w.bucket)
    requires CurrentManifest in w.bucket.objects && w.bucket.objects[CurrentManifest].content != ManifestBody(m)
    requires base != None ==> 0 < base.value.generation != w.bucket.objects[CurrentManifest].generation
    requires Lease in w.bucket.objects && w.bucket.objects[Lease].generation == w.workers[x].lease
    ensures Leads(c, w, [Call(x), Read(x)] + Recorded(x, current, now), w')
    ensures SourceStatus in w'.bucket.objects && w'.bucket.objects[SourceStatus].content
            == ReceiptsBody(Merged(SourcesIn(w.bucket), w.workers[x].snapshots, current, false, now))
    ensures Lease !in w'.bucket.objects && w'.manifests == w.manifests && SameBut(w, w', {SourceStatus, Lease})
    ensures x in w'.workers && w'.workers[x].phase == Finished && w'.workers[x].verdict == Conflicted(m)
  {
    hide Leads, Merged;
    var w1 := IsRefused(c, w, x, base, m);
    w' := Records(c, w1, x, current, now);
    LeadsOn(c, w, [Call(x), Read(x)], w1, Recorded(x, current, now), w');
  }

  // ---- Whom a contender replaces ----

  /**
   * A contender goes on to delete a lease exactly when it has decoded, is held by an execution of this job, and that
   * execution is reported as terminal or not found; when the lease is gone it tries once more to create one.
   */
  lemma ReclaimsExactly(c: Config, w: World, x: string, state: Liveness)
    requires Active(w, x) && w.workers[x].phase.Contending?
    ensures var w1 := After(c, w, Read(x));
            && (Lease !in w.bucket.objects <==> Pending(x, w1.workers[x]) == Some(CreateLease(x)))
            && (w1.workers[x].phase.Probing? <==>
                  && Lease in w.bucket.objects && w.bucket.objects[Lease].content.LeaseBody?
                  && var holder := w.bucket.objects[Lease].content.execution;
                     c.job != "" && holder != c.job && c.job + "-" <= holder)
            && (Enabled(c, w1, Probe(x, state)) ==>
                  var r := Pending(x, After(c, w1, Probe(x, state)).workers[x]);
                  var lease := w.bucket.objects[Lease];
                  if state == Terminal || state == ProbeNotFound
                  then r == Some(Reclaim(x, lease.generation, lease.content.execution)) else r == None)
  {
  }
}
