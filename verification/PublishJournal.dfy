/** The publish journal: what it records, when it is valid, and what undoing it means (cmd/olw_worker/workspace_publish.go). */
module PublishJournal {
  import opened Options
  import opened Texts

  /** A file, a whole tree moved as one, or a symbolic link. */
  datatype Content = File(data: string) | Tree(files: map<string, string>) | Symlink(target: string)

  type Outputs = map<string, Content>

  datatype Entry = Entry(destination: string, hadOld: bool, published: bool)

  datatype Journal = Journal(stage: string, backup: string, entries: seq<Entry>, phase: string)

  const COMMITTED := "committed"
  const STAGE_PREFIX := ".lwc-worker-stage-"
  const BACKUP_PREFIX := ".lwc-worker-backup-"
  const MAX_ENTRIES := 24

  /** The fixed destinations, in the order they are published. */
  const FIXED: seq<string> := [
    "wiki", "wiki.toml", "synto.toml", "cache/id_map.json", "cache/concepts.jsonl",
    "cache/dormant_concepts.jsonl", "cache/raw_status.json", "cache/suggested_queries.json",
    ".olw/state.db", ".synto/state.db", ".synto/INDEX.json"]

  predicate NameChar(c: char) {
    'a' <= c <= 'z' || 'A' <= c <= 'Z' || '0' <= c <= '9' || c == '-' || c == '_'
  }

  predicate ValidDirectory(name: string, prefix: string) {
    prefix < name && forall k :: |prefix| <= k < |name| ==> NameChar(name[k])
  }

  predicate DotsAt(s: string, k: nat) {
    k + 1 < |s| && s[k] == '.' && s[k + 1] == '.'
  }

  predicate ValidExecutionId(id: string) {
    var t := TrimSpace(id);
    t != "" && '/' !in t && '\\' !in t && '\0' !in t && t != "." && t != ".."
    && forall k :: 0 <= k < |t| ==> !DotsAt(t, k)
  }

  predicate IsPipelineLog(d: string) {
    var prefix, suffix := "cache/pipeline-", ".log";
    |prefix| + |suffix| <= |d| && prefix <= d && HasSuffix(d, suffix)
  }

  predicate ValidDestination(d: string) {
    d in FIXED || (IsPipelineLog(d) && ValidExecutionId(d[15..|d| - 4]))
  }

  predicate Distinct(entries: seq<Entry>) {
    forall i, j :: 0 <= i < j < |entries| ==> entries[i].destination != entries[j].destination
  }

  /** validatePublishJournal; an entry's stage and backup paths follow from its destination. */
  predicate ValidJournal(j: Journal) {
    && j.phase in ["", "uncommitted", COMMITTED]
    && ValidDirectory(j.stage, STAGE_PREFIX) && ValidDirectory(j.backup, BACKUP_PREFIX)
    && |j.entries| <= MAX_ENTRIES
    && (forall e :: e in j.entries ==> ValidDestination(e.destination))
    && Distinct(j.entries)
  }

  /** The staged pipeline logs that fit in one journal: few, different, and named after valid executions. */
  predicate LogsFit(logs: seq<string>) {
    |FIXED| + |logs| <= MAX_ENTRIES && Different(logs) && AfterExecutions(logs)
  }

  predicate Different(logs: seq<string>) {
    forall i, j :: 0 <= i < j < |logs| ==> logs[i] != logs[j]
  }

  predicate AfterExecutions(logs: seq<string>) {
    forall d :: d in logs ==> IsPipelineLog(d) && ValidExecutionId(d[15..|d| - 4])
  }

  lemma FixedApart()
    ensures forall i, j :: 0 <= i < j < |FIXED| ==> FIXED[i] != FIXED[j]
  {
    assert forall i :: 0 <= i < |FIXED| ==> |FIXED[i]| == [4, 9, 10, 17, 20, 28, 21, 28, 13, 15, 17][i];
    assert FIXED[3][0] == 'c' && FIXED[10][0] == '.' && FIXED[5][6] == 'd' && FIXED[7][6] == 's';
  }

  lemma FixedAreNoLogs(i: nat)
    requires i < |FIXED|
    ensures !IsPipelineLog(FIXED[i])
  {
    assert "cache/pipeline-"[6] == 'p';
    assert |FIXED[i]| >= 19 ==> FIXED[i][6] != 'p';
  }

  lemma FixedAreValid()
    ensures forall d :: d in FIXED ==> ValidDestination(d)
  {
    hide ValidExecutionId;
  }

  lemma DistinctLogs(e: seq<Entry>, fixed: seq<string>, logs: seq<string>)
    requires |e| == |fixed| + |logs| && forall i :: 0 <= i < |e| ==> e[i].destination == (fixed + logs)[i]
    requires forall i, j :: 0 <= i < j < |fixed| ==> fixed[i] != fixed[j]
    requires forall i :: 0 <= i < |fixed| ==> fixed[i] !in logs
    ensures Distinct(e) <==> Different(logs)
  {
    forall k | 0 <= k < |logs| ensures e[|fixed| + k].destination == logs[k] {
    }
    if Different(logs) {
      forall i, k | 0 <= i < k < |e| ensures e[i].destination != e[k].destination {
        if k >= |fixed| {
          assert e[k].destination == logs[k - |fixed|];
        }
      }
    }
    if Distinct(e) {
      forall i, k | 0 <= i < k < |logs| ensures logs[i] != logs[k] {
        assert e[|fixed| + i].destination != e[|fixed| + k].destination;
      }
    }
  }

  lemma ValidLogs(e: seq<Entry>, fixed: seq<string>, logs: seq<string>)
    requires |e| == |fixed| + |logs| && forall i :: 0 <= i < |e| ==> e[i].destination == (fixed + logs)[i]
    requires forall d :: d in fixed ==> ValidDestination(d)
    ensures (forall x :: x in e ==> ValidDestination(x.destination)) <==> forall d :: d in logs ==> ValidDestination(d)
  {
    hide ValidDestination;
    if forall x :: x in e ==> ValidDestination(x.destination) {
      forall d | d in logs ensures ValidDestination(d) {
        var i :| 0 <= i < |logs| && logs[i] == d;
        assert e[|fixed| + i] in e && e[|fixed| + i].destination == d;
      }
    }
    if forall d :: d in logs ==> ValidDestination(d) {
      forall x | x in e ensures ValidDestination(x.destination) {
        var i :| 0 <= i < |e| && e[i] == x;
        assert (fixed + logs)[i] in fixed || (fixed + logs)[i] in logs;
      }
    }
  }

  lemma ValidIsNamed(logs: seq<string>)
    requires forall d :: d in logs ==> IsPipelineLog(d) && d !in FIXED
    ensures (forall d :: d in logs ==> ValidDestination(d)) <==> AfterExecutions(logs)
  {
    hide ValidExecutionId;
  }

  /** When the journal that a publish starts with is valid. */
  lemma NewJournalFits(j: Journal, logs: seq<string>)
    requires j.phase == "" && ValidDirectory(j.stage, STAGE_PREFIX) && ValidDirectory(j.backup, BACKUP_PREFIX)
    requires forall d :: d in logs ==> IsPipelineLog(d)
    requires |j.entries| == |FIXED + logs|
    requires forall i :: 0 <= i < |j.entries| ==> j.entries[i].destination == (FIXED + logs)[i]
    ensures ValidJournal(j) <==> LogsFit(logs)
  {
    hide IsPipelineLog, ValidExecutionId, ValidDirectory, ValidDestination, Distinct, ValidJournal, LogsFit;
    FixedApart();
    forall i | 0 <= i < |FIXED| ensures FIXED[i] !in logs {
      FixedAreNoLogs(i);
    }
    FixedAreValid();
    DistinctLogs(j.entries, FIXED, logs);
    ValidLogs(j.entries, FIXED, logs);
    ValidIsNamed(logs);
    FitsByParts(j, logs);
  }

  lemma FitsByParts(j: Journal, logs: seq<string>)
    requires j.phase == "" && ValidDirectory(j.stage, STAGE_PREFIX) && ValidDirectory(j.backup, BACKUP_PREFIX)
    requires |j.entries| == |FIXED| + |logs|
    requires Distinct(j.entries) <==> Different(logs)
    requires (forall x :: x in j.entries ==> ValidDestination(x.destination)) <==> AfterExecutions(logs)
    ensures ValidJournal(j) <==> LogsFit(logs)
  {
    hide ValidDirectory, ValidDestination, Distinct, Different, AfterExecutions;
  }

  function Get(m: Outputs, d: string): Option<Content> {
    if d in m then Some(m[d]) else None
  }

  function Put(m: Outputs, d: string, c: Option<Content>): Outputs {
    if c.Some? then m[d := c.value] else m - {d}
  }

  // ---- Undoing ----

  /** What rolling back one entry leaves at its destination. */
  function UndoneAt(e: Entry, live: Outputs, backup: Outputs): Option<Content> {
    if e.hadOld && e.destination in backup then Some(backup[e.destination])
    else if e.published then None
    else Get(live, e.destination)
  }

  /** Live and backup outputs while a rollback runs. */
  datatype Trees = Trees(live: Outputs, backup: Outputs)

  /** Rolling back one entry: remove what was published, then move the old output back if there is one. */
  function UndoEntry(t: Trees, e: Entry): Trees {
    var live := if e.published then t.live - {e.destination} else t.live;
    if e.hadOld && e.destination in t.backup
    then Trees(live[e.destination := t.backup[e.destination]], t.backup - {e.destination})
    else Trees(live, t.backup)
  }

  /** Rolling back the entries from `k` on, last first. */
  function UndoFrom(t: Trees, entries: seq<Entry>, k: nat): Trees
    requires k <= |entries|
    decreases |entries|
  {
    if k == |entries| then t
    else UndoFrom(UndoEntry(t, entries[|entries| - 1]), entries[..|entries| - 1], k)
  }

  ghost predicate Untouched(entries: seq<Entry>, d: string) {
    forall i :: 0 <= i < |entries| ==> entries[i].destination != d
  }

  // ---- What is known of the outputs while a journal is there ----

  ghost predicate MarkedAt(e: Entry, live: Outputs, prior: Outputs) {
    if e.hadOld then e.destination in prior
    else if e.published then e.destination !in prior
    else Get(live, e.destination) == Get(prior, e.destination)
  }

  ghost predicate WholeAt(e: Entry, live: Outputs, backup: Outputs, prior: Outputs) {
    e.hadOld ==>
      && (e.destination in backup ==> Get(backup, e.destination) == Get(prior, e.destination))
      && (!e.published && e.destination in live ==> Get(live, e.destination) == Get(prior, e.destination))
  }

  /** A replaced output that was not yet marked as published is in the backup or still in its place. */
  predicate KeptAt(e: Entry, live: Outputs, backup: Outputs) {
    e.hadOld && !e.published ==> e.destination in backup || e.destination in live
  }

  predicate BackedUpAt(e: Entry, backup: Outputs) {
    e.hadOld && e.published ==> e.destination in backup
  }

  ghost predicate RestorableAt(e: Entry, live: Outputs, backup: Outputs, prior: Outputs) {
    e.hadOld ==>
      if e.destination in backup then Get(backup, e.destination) == Get(prior, e.destination)
      else !e.published && Get(live, e.destination) == Get(prior, e.destination)
  }

  /** The marks of the entries are true of `prior`, and nothing else was touched. */
  ghost predicate Marked(entries: seq<Entry>, live: Outputs, prior: Outputs) {
    && (forall i :: 0 <= i < |entries| ==> MarkedAt(entries[i], live, prior))
    && (forall d :: Untouched(entries, d) ==> Get(live, d) == Get(prior, d))
  }

  /** What is in the backup, or was not yet moved there, is as it was in `prior`. */
  ghost predicate Whole(entries: seq<Entry>, live: Outputs, backup: Outputs, prior: Outputs) {
    forall i :: 0 <= i < |entries| ==> WholeAt(entries[i], live, backup, prior)
  }

  predicate Kept(entries: seq<Entry>, live: Outputs, backup: Outputs) {
    forall i :: 0 <= i < |entries| ==> KeptAt(entries[i], live, backup)
  }

  /** No entry that is marked both published and replaced has lost its backup. */
  predicate BackedUp(entries: seq<Entry>, backup: Outputs) {
    forall i :: 0 <= i < |entries| ==> BackedUpAt(entries[i], backup)
  }

  ghost predicate Restorable(entries: seq<Entry>, live: Outputs, backup: Outputs, prior: Outputs) {
    forall i :: 0 <= i < |entries| ==> RestorableAt(entries[i], live, backup, prior)
  }

  /** All that a publish keeps until it is rolled back: the journal leads back to `prior`. */
  ghost predicate Undoes(entries: seq<Entry>, live: Outputs, backup: Outputs, prior: Outputs) {
    Marked(entries, live, prior) && Whole(entries, live, backup, prior) && Kept(entries, live, backup) && BackedUp(entries, backup)
  }

  lemma SameMap(a: Outputs, b: Outputs)
    requires forall d :: Get(a, d) == Get(b, d)
    ensures a == b
  {
    forall d ensures d in a <==> d in b {
      assert Get(a, d) == Get(b, d);
    }
    forall d | d in a ensures a[d] == b[d] {
      assert Get(a, d) == Get(b, d);
    }
  }

  lemma UndoEntryAt(t: Trees, e: Entry, d: string)
    ensures e.destination != d ==>
              Get(UndoEntry(t, e).live, d) == Get(t.live, d) && Get(UndoEntry(t, e).backup, d) == Get(t.backup, d)
    ensures e.destination == d ==>
              && Get(UndoEntry(t, e).live, d) == UndoneAt(e, t.live, t.backup)
              && Get(UndoEntry(t, e).backup, d) == if e.hadOld then None else Get(t.backup, d)
  {
  }

  /** Rolling back entry by entry has, at every destination, the effect of that destination's entry alone. */
  lemma {:induction false} UndoFromAt(t: Trees, entries: seq<Entry>, k: nat, d: string)
    requires k <= |entries| && Distinct(entries)
    ensures var r := UndoFrom(t, entries, k);
            && (forall i :: k <= i < |entries| && entries[i].destination == d ==>
                 && Get(r.live, d) == UndoneAt(entries[i], t.live, t.backup)
                 && Get(r.backup, d) == if entries[i].hadOld then None else Get(t.backup, d))
            && ((forall i :: k <= i < |entries| ==> entries[i].destination != d) ==>
                 Get(r.live, d) == Get(t.live, d) && Get(r.backup, d) == Get(t.backup, d))
    decreases |entries|
  {
    hide UndoEntry;
    if k < |entries| {
      var init, last := entries[..|entries| - 1], entries[|entries| - 1];
      UndoEntryAt(t, last, d);
      UndoFromAt(UndoEntry(t, last), init, k, d);
      assert forall i :: 0 <= i < |init| ==> init[i] == entries[i];
    }
  }

  /** Rolling the journal back gives `prior` exactly when each replaced output can still be had. */
  lemma RollbackRestores(t: Trees, entries: seq<Entry>, prior: Outputs)
    requires Distinct(entries) && Marked(entries, t.live, prior)
    ensures UndoFrom(t, entries, 0).live == prior <==> Restorable(entries, t.live, t.backup, prior)
  {
    var r := UndoFrom(t, entries, 0).live;
    if Restorable(entries, t.live, t.backup, prior) {
      forall d ensures Get(r, d) == Get(prior, d) {
        UndoFromAt(t, entries, 0, d);
        if i :| 0 <= i < |entries| && entries[i].destination == d {
          assert MarkedAt(entries[i], t.live, prior) && RestorableAt(entries[i], t.live, t.backup, prior);
        }
      }
      SameMap(r, prior);
    } else if r == prior {
      forall i | 0 <= i < |entries| ensures RestorableAt(entries[i], t.live, t.backup, prior) {
        UndoFromAt(t, entries, 0, entries[i].destination);
        assert MarkedAt(entries[i], t.live, prior);
      }
    }
  }

  /** While backups are whole, where the outputs are tells whether they can be had. */
  lemma RestorableByPlace(entries: seq<Entry>, live: Outputs, backup: Outputs, prior: Outputs)
    requires Marked(entries, live, prior) && Whole(entries, live, backup, prior)
    ensures Restorable(entries, live, backup, prior) <==> Kept(entries, live, backup) && BackedUp(entries, backup)
  {
    forall i | 0 <= i < |entries|
      ensures RestorableAt(entries[i], live, backup, prior) <==> KeptAt(entries[i], live, backup) && BackedUpAt(entries[i], backup)
    {
      assert MarkedAt(entries[i], live, prior) && WholeAt(entries[i], live, backup, prior);
    }
  }

  /** A journal that leads back to `prior` does so when it is rolled back. */
  lemma UndoRestores(t: Trees, entries: seq<Entry>, prior: Outputs)
    requires Distinct(entries) && Undoes(entries, t.live, t.backup, prior)
    ensures UndoFrom(t, entries, 0).live == prior
  {
    RollbackRestores(t, entries, prior);
    RestorableByPlace(entries, t.live, t.backup, prior);
  }

  // ---- Publishing ----

  predicate Owned(d: string) {
    d in FIXED || IsPipelineLog(d)
  }

  /** The staged outputs laid over the prior ones. */
  function Laid(prior: Outputs, staged: Outputs): Outputs {
    prior + map d | d in staged && Owned(d) :: staged[d]
  }

  predicate IsLink(outputs: Outputs, d: string) {
    d in outputs && outputs[d].Symlink?
  }

  /** A staged output would replace a symbolic link. */
  predicate Blocked(prior: Outputs, staged: Outputs, d: string) {
    d in staged && IsLink(prior, d)
  }

  /** Where a publish stands before entry `n`: what is behind is new, what is ahead is untouched. */
  ghost predicate Progress(entries: seq<Entry>, n: nat, live: Outputs, backup: Outputs, stage: Outputs,
                           prior: Outputs, staged: Outputs)
  {
    && Distinct(entries) && n <= |entries|
    && Undoes(entries, live, backup, prior)
    && (forall i :: 0 <= i < n ==> Behind(entries[i], live, prior, staged))
    && (forall i :: n <= i < |entries| ==> Ahead(entries[i], live, backup, stage, prior, staged))
  }

  /** The same while entry `n` itself is being worked on. */
  ghost predicate Midway(entries: seq<Entry>, n: nat, live: Outputs, backup: Outputs, stage: Outputs,
                         prior: Outputs, staged: Outputs)
  {
    && Distinct(entries) && n < |entries|
    && (forall i :: 0 <= i < n ==> Behind(entries[i], live, prior, staged))
    && (forall i :: n < i < |entries| ==> Ahead(entries[i], live, backup, stage, prior, staged))
  }

  ghost predicate Behind(e: Entry, live: Outputs, prior: Outputs, staged: Outputs) {
    Get(live, e.destination) == if e.destination in staged then Some(staged[e.destination]) else Get(prior, e.destination)
  }

  ghost predicate Ahead(e: Entry, live: Outputs, backup: Outputs, stage: Outputs, prior: Outputs, staged: Outputs) {
    && !e.hadOld && !e.published
    && Get(live, e.destination) == Get(prior, e.destination)
    && Get(stage, e.destination) == Get(staged, e.destination)
    && e.destination !in backup
  }

  ghost predicate SameBut(a: Outputs, b: Outputs, d: string) {
    forall x :: x != d ==> Get(a, x) == Get(b, x)
  }

  /** What is asked of an entry, and of its destination alone. */
  ghost predicate UndoesAt(e: Entry, live: Outputs, backup: Outputs, prior: Outputs) {
    MarkedAt(e, live, prior) && WholeAt(e, live, backup, prior) && KeptAt(e, live, backup) && BackedUpAt(e, backup)
  }

  /** One entry and its destination change together: the journal still leads back. */
  lemma Touch(entries: seq<Entry>, n: nat, e: Entry, live: Outputs, backup: Outputs,
              live': Outputs, backup': Outputs, prior: Outputs)
    requires n < |entries| && Distinct(entries) && e.destination == entries[n].destination
    requires Undoes(entries, live, backup, prior)
    requires SameBut(live, live', e.destination) && SameBut(backup, backup', e.destination)
    requires UndoesAt(e, live', backup', prior)
    ensures Distinct(entries[n := e])
    ensures Undoes(entries[n := e], live', backup', prior)
  {
    var entries' := entries[n := e];
    forall i | 0 <= i < |entries'| ensures UndoesAt(entries'[i], live', backup', prior) {
      var d := entries[i].destination;
      if i != n {
        assert Get(live, d) == Get(live', d) && Get(backup, d) == Get(backup', d);
        assert MarkedAt(entries[i], live, prior) && WholeAt(entries[i], live, backup, prior);
        assert KeptAt(entries[i], live, backup) && BackedUpAt(entries[i], backup);
      }
    }
    forall d | Untouched(entries', d) ensures Get(live', d) == Get(prior, d) {
      assert entries'[n].destination != d;
      assert Untouched(entries, d) by {
        forall i | 0 <= i < |entries| ensures entries[i].destination != d {
          assert entries'[i].destination != d;
        }
      }
      assert Get(live, d) == Get(live', d);
    }
  }

  lemma StaysMidway(entries: seq<Entry>, n: nat, e: Entry, live: Outputs, backup: Outputs, stage: Outputs,
                    live': Outputs, backup': Outputs, stage': Outputs, prior: Outputs, staged: Outputs)
    requires n < |entries| && e.destination == entries[n].destination
    requires Midway(entries, n, live, backup, stage, prior, staged)
    requires SameBut(live, live', e.destination) && SameBut(backup, backup', e.destination) && SameBut(stage, stage', e.destination)
    ensures Midway(entries[n := e], n, live', backup', stage', prior, staged)
  {
    var entries' := entries[n := e];
    forall i | 0 <= i < n ensures Behind(entries'[i], live', prior, staged) {
      var d := entries[i].destination;
      assert Behind(entries[i], live, prior, staged) && Get(live, d) == Get(live', d);
    }
    forall i | n < i < |entries'| ensures Ahead(entries'[i], live', backup', stage', prior, staged) {
      var d := entries[i].destination;
      assert Ahead(entries[i], live, backup, stage, prior, staged);
      assert Get(live, d) == Get(live', d) && Get(backup, d) == Get(backup', d) && Get(stage, d) == Get(stage', d);
    }
  }

  /** When every entry is behind, the live outputs are the staged ones laid over the prior ones. */
  lemma AllBehind(entries: seq<Entry>, live: Outputs, backup: Outputs, stage: Outputs, prior: Outputs, staged: Outputs)
    requires Progress(entries, |entries|, live, backup, stage, prior, staged)
    requires forall d :: d in staged && Owned(d) ==> !Untouched(entries, d)
    requires forall e :: e in entries ==> Owned(e.destination)
    ensures live == Laid(prior, staged)
  {
    forall d ensures Get(live, d) == Get(Laid(prior, staged), d) {
      if !Untouched(entries, d) {
        var i :| 0 <= i < |entries| && entries[i].destination == d;
        assert Behind(entries[i], live, prior, staged) && entries[i] in entries;
      }
    }
    SameMap(live, Laid(prior, staged));
  }

  lemma NamesDiffer(stage: string, backup: string)
    requires ValidDirectory(stage, STAGE_PREFIX) && ValidDirectory(backup, BACKUP_PREFIX)
    ensures stage != backup
  {
    assert stage[12] == STAGE_PREFIX[12] && backup[12] == BACKUP_PREFIX[12];
  }

  lemma DirectoriesDiffer(j: Journal)
    requires ValidJournal(j)
    ensures j.stage != j.backup
  {
    NamesDiffer(j.stage, j.backup);
  }
}
