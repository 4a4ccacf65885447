/** The journaled publish under the vault, its rollback and its crash recovery (cmd/olw_worker/workspace_publish.go). */
module WorkspacePublish {
  import opened Options
  import opened PublishJournal
  import opened RollbackPass

  datatype Status = Ok | Failed | Crashed

  /** How a publish ended; `undo` tells how the rollback ended, if one was started. */
  datatype Outcome = Outcome(status: Status, undo: Option<Status>)

  function StatusOf(fate: Fate): Status {
    if fate == Done then Ok else if fate == Died then Crashed else Failed
  }

  class Vault {
    var live: Outputs
    /** The stage and backup directories, by name. */
    var dirs: map<string, Outputs>
    var journal: Option<Journal>
    /** Counts file operations. */
    var clock: nat
    const fortune: Fortune
    /** Whether a committed journal has reached the disk during the current publish. */
    ghost var reached: bool
    /** Since the current publish began: whether a rollback has set about dropping the backups, and has torn one. */
    ghost var dropping: bool
    ghost var torn: bool

    constructor (live: Outputs, dirs: map<string, Outputs>, journal: Option<Journal>, fortune: Fortune)
      ensures this.live == live && this.dirs == dirs && this.journal == journal && this.fortune == fortune && clock == 0
      ensures !reached && !dropping && !torn
    {
      this.live, this.dirs, this.journal, this.fortune, clock := live, dirs, journal, fortune, 0;
      reached, dropping, torn := false, false, false;
    }

    function Dir(name: string): Outputs
      reads this`dirs
    {
      if name in dirs then dirs[name] else map[]
    }

    /** There is a journal that a recovery will roll back. */
    predicate Pending()
      reads this`journal
    {
      journal.Some? && ValidJournal(journal.value) && journal.value.phase != COMMITTED
    }

    /** The directories that an earlier publish has left behind. */
    function Left(): set<string>
      reads this`journal
    {
      if journal.Some? then {journal.value.stage, journal.value.backup} else {}
    }

    /** The live outputs that one undisturbed recovery will leave. */
    function Settled(): Outputs
      reads this`live, this`dirs, this`journal
    {
      if !Pending() then live
      else UndoFrom(Trees(live, Dir(journal.value.backup)), journal.value.entries, 0).live
    }

    /** Nothing goes wrong from operation `from` on. */
    ghost predicate Quiet(from: nat) {
      forall n: nat :: from <= n ==> fortune.fate(n) == Done
    }

    /** An operation whose effect, if any, lies outside the model. */
    method Attempt() returns (fate: Fate)
      modifies this`clock
      ensures fate == fortune.fate(old(clock)) && clock == old(clock) + 1
    {
      fate := fortune.fate(clock);
      clock := clock + 1;
    }

    method WriteJournal(j: Journal) returns (s: Status)
      modifies this`journal, this`clock, this`reached
      ensures s == Ok ==> journal == Some(j) && ValidJournal(j)
      ensures journal == old(journal) || (journal == Some(j) && ValidJournal(j))
      ensures s == Crashed ==> journal == old(journal)
      ensures reached == (old(reached) || (journal == Some(j) && journal != old(journal) && j.phase == COMMITTED))
      ensures clock >= old(clock) && (Quiet(old(clock)) && ValidJournal(j) ==> s == Ok)
    {
      if !ValidJournal(j) {
        return Failed;
      }
      var fate := Attempt();
      if Effective(fate) {
        reached := reached || (journal != Some(j) && j.phase == COMMITTED);
        journal := Some(j);
      }
      s := StatusOf(fate);
    }

    method RemoveJournal() returns (s: Status)
      modifies this`journal, this`clock
      ensures journal == old(journal) || journal == None
      ensures s == Ok ==> journal == None
      ensures clock >= old(clock) && (Quiet(old(clock)) ==> s == Ok)
    {
      var fate := Attempt();
      if Effective(fate) {
        journal := None;
      }
      s := StatusOf(fate);
    }

    method MakeDir(name: string) returns (s: Status)
      modifies this`dirs, this`clock
      ensures s == Ok ==> name !in old(dirs)
      ensures dirs == old(dirs) || (name !in old(dirs) && dirs == old(dirs)[name := map[]])
      ensures s == Ok ==> dirs == old(dirs)[name := map[]]
      ensures clock >= old(clock) && (Quiet(old(clock)) ==> s == if name in old(dirs) then Failed else Ok)
    {
      var fate := Attempt();
      if name in dirs {
        return if fate == Died then Crashed else Failed;
      }
      if Effective(fate) {
        dirs := dirs[name := map[]];
      }
      s := StatusOf(fate);
    }

    /** Removes a directory; when that fails or dies half-way, whatever remains of its outputs remains. */
    method RemoveDir(name: string) returns (s: Status)
      modifies this`dirs, this`clock
      ensures forall n :: n != name ==> (n in dirs <==> n in old(dirs)) && (n in dirs ==> dirs[n] == old(dirs)[n])
      ensures forall d :: d in Dir(name) ==> d in old(Dir(name))
      ensures s == Ok ==> name !in dirs
      ensures clock >= old(clock) && (Quiet(old(clock)) ==> s == Ok)
    {
      var fate := Attempt();
      if Effective(fate) {
        dirs := dirs - {name};
      } else if name in dirs {
        var remains := fortune.remains(clock - 1);
        dirs := dirs[name := map d | d in dirs[name] && d in remains :: remains[d]];
      }
      s := StatusOf(fate);
    }

    /** Removes a live output; when that fails or dies half-way, whatever remains of it remains. */
    method RemoveLive(d: string) returns (s: Status)
      modifies this`live, this`clock
      ensures clock == old(clock) + 1 && s == StatusOf(fortune.fate(old(clock)))
      ensures live == Removed(fortune, old(clock), old(live), d)
    {
      var fate := Attempt();
      if d in live {
        live := if Effective(fate) then live - {d} else Put(live, d, fortune.remnant(clock - 1));
      }
      s := StatusOf(fate);
    }

    /** Renames a live output into a directory. */
    method MoveAway(d: string, dir: string) returns (s: Status)
      requires d in live
      modifies this`live, this`dirs, this`clock
      ensures || (live == old(live) && dirs == old(dirs))
              || (live == old(live) - {d} && dirs == old(dirs)[dir := old(Dir(dir))[d := old(live)[d]]])
      ensures s == Ok ==> live == old(live) - {d} && dirs == old(dirs)[dir := old(Dir(dir))[d := old(live)[d]]]
      ensures clock >= old(clock) && (Quiet(old(clock)) ==> s == Ok)
    {
      var fate := Attempt();
      if Effective(fate) {
        dirs := dirs[dir := Dir(dir)[d := live[d]]];
        live := live - {d};
      }
      s := StatusOf(fate);
    }

    /** Renames an output from a directory to its live place. */
    method MoveIn(d: string, dir: string) returns (s: Status)
      requires d in Dir(dir)
      modifies this`live, this`dirs, this`clock
      ensures clock == old(clock) + 1 && s == StatusOf(fortune.fate(old(clock)))
      ensures if Effective(fortune.fate(old(clock)))
              then live == old(live)[d := old(Dir(dir))[d]] && dirs == old(dirs)[dir := old(Dir(dir)) - {d}]
              else live == old(live) && dirs == old(dirs)
    {
      var fate := Attempt();
      if Effective(fate) {
        live := live[d := Dir(dir)[d]];
        dirs := dirs[dir := Dir(dir) - {d}];
      }
      s := StatusOf(fate);
    }

    /** What a pass has to do with the vault: its trees are the live outputs and the backups. */
    ghost function Before(j: Journal): Pass
      reads this`live, this`dirs, this`clock
    {
      Pass(Trees(live, Dir(j.backup)), clock, false, false)
    }

    /**
     * What is known of the outputs before a publish, `prior`, while the journal on the disk is there. As long
     * as no backup was dropped none is missing, and as long as none was torn they are whole.
     */
    ghost predicate Remembers(prior: Outputs)
      reads this`live, this`dirs, this`journal, this`dropping, this`torn
    {
      if Pending() then
        Remembered(journal.value.entries, Trees(live, Dir(journal.value.backup)), prior, Lore(!torn, !dropping))
      else live == prior
    }

    /** Every replaced output can still be had as it was. */
    ghost predicate Intact(prior: Outputs)
      reads this`live, this`dirs, this`journal
    {
      Pending() ==> Restorable(journal.value.entries, live, Dir(journal.value.backup), prior)
    }

    /** Every replaced output is in the backup or, if it was not marked as published, in its place. */
    predicate AllThere()
      reads this`live, this`dirs, this`journal
    {
      Pending() ==>
        Kept(journal.value.entries, live, Dir(journal.value.backup)) && BackedUp(journal.value.entries, Dir(journal.value.backup))
    }

    /** No entry that is marked both published and replaced has had its backup moved back. */
    predicate NoneMovedBack()
      reads this`dirs, this`journal
    {
      Pending() ==> BackedUp(journal.value.entries, Dir(journal.value.backup))
    }

    /** One undisturbed recovery gives `prior` exactly under conditions that can be looked up before it. */
    ghost predicate Exact(prior: Outputs)
      reads this`live, this`dirs, this`journal, this`dropping, this`torn
    {
      && (Settled() == prior <==> Intact(prior))
      && (!torn ==> (Settled() == prior <==> AllThere()))
      && (!torn && !dropping ==> (Settled() == prior <==> NoneMovedBack()))
    }

    lemma RememberedIsExact(prior: Outputs)
      requires Remembers(prior)
      ensures Exact(prior)
    {
      if Pending() {
        var k := journal.value;
        RollbackIsExact(k.entries, Trees(live, Dir(k.backup)), prior, Lore(!torn, !dropping));
      }
    }

    /** The journal `j` in memory is the one on the disk, or at most one flag ahead of it. */
    predicate Follows(j: Journal)
      reads this`live, this`dirs, this`journal
    {
      Pending() && journal.value.backup == j.backup && Trails(j.entries, journal.value.entries, live, Dir(j.backup))
    }

    /** One entry: remove what was published, then move the old output back. */
    method UndoOne(j: Journal, e: Entry, failures: bool) returns (failed: bool, died: bool)
      modifies this`live, this`dirs, this`clock
      ensures Before(j).(failed := failed, died := died) == EntryStep(fortune, old(Before(j)).(failed := failures), e)
      ensures dirs.Keys == old(dirs.Keys)
    {
      failed, died := failures, false;
      if e.published {
        var f := RemoveLive(e.destination);
        failed := failed || f == Failed;
        if f == Crashed {
          died := true;
          return;
        }
      }
      if e.hadOld {
        var made := Attempt();
        if made == Died {
          died := true;
          return;
        }
        if made != Done {
          failed := true;
          return;
        }
        var f;
        if e.destination in Dir(j.backup) {
          f := MoveIn(e.destination, j.backup);
        } else {
          // The backup was never taken: the rename reports a missing file, which is no failure.
          var fate := Attempt();
          f := StatusOf(fate);
        }
        failed := failed || f == Failed;
        died := f == Crashed;
      }
    }

    /**
     * Undoes a journal, last entry first; failures are collected and the journal then stays. The outputs are
     * those of the pass, wherever it ends; and what the journal on the disk relies on is kept throughout.
     */
    method Rollback(j: Journal, ghost prior: Outputs) returns (s: Status)
      modifies this`live, this`dirs, this`journal, this`clock, this`dropping, this`torn
      ensures !ValidJournal(j) ==> s == Failed && live == old(live) && dirs == old(dirs) && journal == old(journal)
      ensures !ValidJournal(j) ==> dropping == old(dropping) && torn == old(torn)
      ensures ValidJournal(j) ==> live == Passed(fortune, old(Before(j)), j.entries).trees.live
      ensures ValidJournal(j) && Passed(fortune, old(Before(j)), j.entries).died ==>
                && s == Crashed && journal == old(journal) && dropping == old(dropping) && torn == old(torn)
                && Dir(j.backup) == Passed(fortune, old(Before(j)), j.entries).trees.backup
                && clock == Passed(fortune, old(Before(j)), j.entries).clock
      ensures journal == old(journal) || journal == None
      ensures s == Ok ==> ValidJournal(j) && journal == None
      ensures s == Ok || journal != old(journal) ==> live == old(UndoFrom(Trees(live, Dir(j.backup)), j.entries, 0).live)
      ensures old(Follows(j) && Remembers(prior)) && journal.Some? ==> Remembers(prior)
      ensures clock >= old(clock) && (ValidJournal(j) && Quiet(old(clock)) ==> s == Ok)
      ensures s == Ok ==> dirs.Keys == old(dirs.Keys) - {j.stage, j.backup}
    {
      if !ValidJournal(j) {
        return Failed;
      }
      hide EntryStep, Remembered, Trails, TrailsAt;
      var failed := false;
      var i := |j.entries|;
      if Quiet(clock) {
        QuietPass(fortune, Before(j), j.entries);
      }
      ghost var all := Passed(fortune, Before(j), j.entries);
      assert j.entries[..i] == j.entries;
      while i > 0
        invariant i <= |j.entries| && journal == old(journal) && dropping == old(dropping) && torn == old(torn)
        invariant all == Passed(fortune, Before(j).(failed := failed), j.entries[..i])
        invariant dirs.Keys == old(dirs.Keys) && clock >= old(clock)
      {
        i := i - 1;
        NextEntry(fortune, Before(j).(failed := failed), j.entries, i);
        StepTakesTime(fortune, Before(j).(failed := failed), j.entries[i]);
        var died;
        failed, died := UndoOne(j, j.entries[i], failed);
        if died {
          PassKept(j, all, old(live), old(Dir(j.backup)), old(clock), prior);
          return Crashed;
        }
      }
      PassKept(j, all, old(live), old(Dir(j.backup)), old(clock), prior);
      if !failed {
        QuietPassUndoes(fortune, old(Before(j)), j.entries);
      }
      s := Discard(j, failed, prior);
    }

    lemma PassKept(j: Journal, all: Pass, live0: Outputs, backup0: Outputs, clock0: nat, prior: Outputs)
      requires all == Passed(fortune, Pass(Trees(live0, backup0), clock0, false, false), j.entries)
      requires live == all.trees.live && Dir(j.backup) == all.trees.backup
      ensures Pending() && journal.value.backup == j.backup && Trails(j.entries, journal.value.entries, live0, backup0)
              && Remembered(journal.value.entries, Trees(live0, backup0), prior, Lore(!torn, !dropping))
              ==> Remembers(prior)
    {
      if Pending() && journal.value.backup == j.backup && Trails(j.entries, journal.value.entries, live0, backup0)
         && Remembered(journal.value.entries, Trees(live0, backup0), prior, Lore(!torn, !dropping)) {
        assert j.entries[..|j.entries|] == j.entries;
        PassKeeps(fortune, Pass(Trees(live0, backup0), clock0, false, false), j.entries, journal.value.entries, |j.entries|,
                  prior, Lore(!torn, !dropping));
      }
    }

    /** The end of a rollback: drop stage and backup, and the journal if nothing has failed. */
    method Discard(j: Journal, failures: bool, ghost prior: Outputs) returns (s: Status)
      requires ValidJournal(j)
      modifies this`dirs, this`journal, this`clock, this`dropping, this`torn
      ensures s == Ok ==> journal == None && !failures
      ensures journal == old(journal) || (journal == None && !failures)
      ensures old(Pending() && journal.value.backup == j.backup && Remembers(prior)) && journal.Some? ==> Remembers(prior)
      ensures clock >= old(clock) && (Quiet(old(clock)) && !failures ==> s == Ok)
      ensures s == Ok ==> dirs.Keys == old(dirs.Keys) - {j.stage, j.backup}
    {
      hide Remembered, ValidJournal;
      var failed := failures;
      DirectoriesDiffer(j);
      s := RemoveDir(j.stage);
      if s == Crashed {
        return;
      }
      failed := failed || s == Failed;
      s := DropBackups(j, prior);
      if s == Crashed {
        return;
      }
      failed := failed || s == Failed;
      if failed {
        return Failed;
      }
      s := RemoveJournal();
    }

    method DropBackups(j: Journal, ghost prior: Outputs) returns (s: Status)
      modifies this`dirs, this`clock, this`dropping, this`torn
      ensures old(Pending() && journal.value.backup == j.backup && Remembers(prior)) ==> Remembers(prior)
      ensures clock >= old(clock) && (Quiet(old(clock)) ==> s == Ok)
      ensures s == Ok ==> dirs.Keys == old(dirs.Keys) - {j.backup}
    {
      hide Remembered, ValidJournal;
      ghost var backup, lore := Dir(j.backup), Lore(!torn, !dropping);
      dropping := true;
      s := RemoveDir(j.backup);
      torn := torn || exists d :: d in Dir(j.backup) && Dir(j.backup)[d] != backup[d];
      LessIsRemembered(j, backup, prior, lore);
    }

    lemma LessIsRemembered(j: Journal, backup: Outputs, prior: Outputs, lore: Lore)
      requires dropping && forall d :: d in Dir(j.backup) ==> d in backup
      requires !torn ==> lore.whole && forall d :: d in Dir(j.backup) ==> Dir(j.backup)[d] == backup[d]
      ensures Pending() && journal.value.backup == j.backup ==>
                (Remembered(journal.value.entries, Trees(live, backup), prior, lore) ==> Remembers(prior))
    {
      if Pending() && !torn && Whole(journal.value.entries, live, backup, prior) {
        WholeWithLess(journal.value.entries, live, backup, Dir(j.backup), prior);
      }
    }

    /** After the commit: drop backup, stage and journal, stopping at the first failure. */
    method Cleanup(j: Journal) returns (s: Status)
      modifies this`dirs, this`journal, this`clock
      ensures s == Ok ==> journal == None
      ensures journal == old(journal) || journal == None
      ensures clock >= old(clock) && (Quiet(old(clock)) ==> s == Ok)
      ensures s == Ok ==> dirs.Keys == old(dirs.Keys) - {j.stage, j.backup}
    {
      s := RemoveDir(j.backup);
      if s != Ok {
        return;
      }
      s := RemoveDir(j.stage);
      if s != Ok {
        return;
      }
      s := RemoveJournal();
    }

    /**
     * What every run does first: finish or undo a publish that was interrupted. Wherever it stops, what is
     * known of the prior outputs stays known while the journal is there.
     */
    method Recover(ghost prior: Outputs) returns (s: Status)
      modifies this`live, this`dirs, this`journal, this`clock, this`dropping, this`torn
      ensures s == Ok ==> journal == None
      ensures journal == None ==> live == old(Settled())
      ensures journal == old(journal) || journal == None
      ensures old(Remembers(prior)) && journal.Some? ==> Remembers(prior) && Exact(prior)
      ensures s == Ok ==> old(journal == None || ValidJournal(journal.value))
      ensures clock >= old(clock) && (Quiet(old(clock)) ==> s == if old(journal == None || ValidJournal(journal.value)) then Ok else Failed)
      ensures s == Ok ==> dirs.Keys == old(dirs.Keys) - old(Left())
    {
      if Remembers(prior) {
        RememberedIsExact(prior);
      }
      var fate := Attempt();
      if fate != Done {
        return StatusOf(fate);
      }
      if journal == None {
        return Ok;
      }
      var j := journal.value;
      if !ValidJournal(j) {
        return Failed;
      }
      if j.phase == COMMITTED {
        s := Cleanup(j);
      } else {
        s := Rollback(j, prior);
      }
      if Remembers(prior) {
        RememberedIsExact(prior);
      }
    }

    /** The journal `k` belongs to the same publish as `j` and leads back to `prior`. */
    ghost predicate LeadsBack(j: Journal, k: Journal, prior: Outputs)
      reads this`live, this`dirs
    {
      && k == j.(entries := k.entries) && ValidJournal(k) && k.phase != COMMITTED
      && |k.entries| == |j.entries|
      && (forall i :: 0 <= i < |j.entries| ==> k.entries[i].destination == j.entries[i].destination)
      && Undoes(k.entries, live, Dir(j.backup), prior)
    }

    /** Rolling back leads to `prior`, whether by the journal in memory or by the one on disk. */
    ghost predicate Recoverable(j: Journal, after: Journal, prior: Outputs)
      reads this`live, this`dirs, this`journal
    {
      && LeadsBack(j, after, prior) && journal.Some? && LeadsBack(j, journal.value, prior)
      && Trails(after.entries, journal.value.entries, live, Dir(j.backup))
    }

    ghost predicate Stands(j: Journal, n: nat, prior: Outputs, staged: Outputs)
      reads this`live, this`dirs
    {
      Progress(j.entries, n, live, Dir(j.backup), Dir(j.stage), prior, staged)
    }

    ghost predicate Working(j: Journal, n: nat, prior: Outputs, staged: Outputs)
      reads this`live, this`dirs
    {
      Midway(j.entries, n, live, Dir(j.backup), Dir(j.stage), prior, staged)
    }

    /** Sets one entry's flags in the journal, in memory and then on disk. */
    method Mark(j: Journal, n: nat, e: Entry, ghost prior: Outputs, ghost staged: Outputs)
      returns (s: Status, after: Journal)
      requires n < |j.entries| && e.destination == j.entries[n].destination
      requires journal == Some(j) && LeadsBack(j, j, prior) && Working(j, n, prior, staged)
      requires UndoesAt(e, live, Dir(j.backup), prior) && TrailsAt(e, j.entries[n], live, Dir(j.backup))
      modifies this`journal, this`clock, this`reached
      ensures reached == old(reached) && after == j.(entries := j.entries[n := e])
      ensures Recoverable(j, after, prior) && Working(after, n, prior, staged)
      ensures s == Ok ==> journal == Some(after)
      ensures clock >= old(clock) && (Quiet(old(clock)) ==> s == Ok)
    {
      after := j.(entries := j.entries[n := e]);
      Touch(j.entries, n, e, live, Dir(j.backup), live, Dir(j.backup), prior);
      StaysMidway(j.entries, n, e, live, Dir(j.backup), Dir(j.stage), live, Dir(j.backup), Dir(j.stage), prior, staged);
      MarkedIsValid(j, n, e);
      s := WriteJournal(after);
    }

    lemma MarkedIsValid(j: Journal, n: nat, e: Entry)
      requires ValidJournal(j) && n < |j.entries| && e.destination == j.entries[n].destination
      ensures ValidJournal(j.(entries := j.entries[n := e]))
    {
      assert j.entries[n] in j.entries;
      forall x | x in j.entries[n := e] ensures ValidDestination(x.destination) {
        var i :| 0 <= i < |j.entries| && j.entries[n := e][i] == x;
        assert j.entries[i] in j.entries;
      }
    }

    /** Moves the live output of entry `n`, already marked as replaced, to the backup. */
    method TakeAway(j: Journal, n: nat, ghost prior: Outputs, ghost staged: Outputs) returns (s: Status)
      requires n < |j.entries| && journal == Some(j) && LeadsBack(j, j, prior) && Working(j, n, prior, staged)
      requires j.entries[n].hadOld && !j.entries[n].published
      requires j.entries[n].destination in live && j.entries[n].destination !in Dir(j.backup)
      modifies this`live, this`dirs, this`clock
      ensures LeadsBack(j, j, prior) && Working(j, n, prior, staged)
      ensures Dir(j.stage) == old(Dir(j.stage))
      ensures s == Ok ==> j.entries[n].destination in Dir(j.backup) && j.entries[n].destination !in live
      ensures clock >= old(clock) && (Quiet(old(clock)) ==> s == Ok)
    {
      var e := j.entries[n];
      ghost var live0, backup0, stage0 := live, Dir(j.backup), Dir(j.stage);
      assert MarkedAt(e, live, prior) && WholeAt(e, live, Dir(j.backup), prior) && KeptAt(e, live, Dir(j.backup));
      assert BackedUpAt(e, Dir(j.backup));
      DirectoriesDiffer(j);
      s := MoveAway(e.destination, j.backup);
      assert j.entries[n := e] == j.entries;
      Touch(j.entries, n, e, live0, backup0, live, Dir(j.backup), prior);
      StaysMidway(j.entries, n, e, live0, backup0, stage0, live, Dir(j.backup), Dir(j.stage), prior, staged);
    }

    /** Moves the staged output of entry `n`, already marked as published, to its live place. */
    method Install(j: Journal, n: nat, ghost prior: Outputs, ghost staged: Outputs) returns (s: Status)
      requires n < |j.entries| && journal == Some(j) && LeadsBack(j, j, prior) && Working(j, n, prior, staged)
      requires j.entries[n].published && (j.entries[n].hadOld <==> j.entries[n].destination in Dir(j.backup))
      requires j.entries[n].destination in Dir(j.stage)
      requires Get(Dir(j.stage), j.entries[n].destination) == Get(staged, j.entries[n].destination)
      modifies this`live, this`dirs, this`clock
      ensures LeadsBack(j, j, prior)
      ensures s == Ok ==> Stands(j, n + 1, prior, staged)
      ensures clock >= old(clock) && (Quiet(old(clock)) ==> s == Ok)
    {
      var e := j.entries[n];
      ghost var live0, backup0, stage0 := live, Dir(j.backup), Dir(j.stage);
      assert MarkedAt(e, live, prior) && WholeAt(e, live, Dir(j.backup), prior) && KeptAt(e, live, Dir(j.backup));
      assert BackedUpAt(e, Dir(j.backup));
      DirectoriesDiffer(j);
      s := MoveIn(e.destination, j.stage);
      assert j.entries[n := e] == j.entries;
      Touch(j.entries, n, e, live0, backup0, live, Dir(j.backup), prior);
      StaysMidway(j.entries, n, e, live0, backup0, stage0, live, Dir(j.backup), Dir(j.stage), prior, staged);
    }

    lemma ReplacedIsUndone(j: Journal, n: nat, prior: Outputs, staged: Outputs)
      requires n < |j.entries| && Ahead(j.entries[n], live, Dir(j.backup), Dir(j.stage), prior, staged)
      requires j.entries[n].destination in live
      ensures var e := j.entries[n].(hadOld := true);
              UndoesAt(e, live, Dir(j.backup), prior) && TrailsAt(e, j.entries[n], live, Dir(j.backup))
    {
    }

    /** Looks at a live output, which must not be a link, and makes room for it in the backup. */
    method Inspect(d: string) returns (s: Status)
      modifies this`clock
      ensures s == Ok ==> !IsLink(live, d)
      ensures clock >= old(clock) && (Quiet(old(clock)) ==> s == if IsLink(live, d) then Failed else Ok)
    {
      var fate := Attempt();
      if fate != Done || d !in live {
        return StatusOf(fate);
      }
      fate := Attempt();
      if fate != Done {
        return StatusOf(fate);
      }
      if live[d].Symlink? {
        return Failed;
      }
      fate := Attempt();
      s := StatusOf(fate);
    }

    /** The first half of a turn: an existing live output is marked as replaced and moved to the backup. */
    method SetAside(j: Journal, n: nat, ghost prior: Outputs, ghost staged: Outputs) returns (s: Status, after: Journal)
      requires n < |j.entries| && journal == Some(j) && LeadsBack(j, j, prior) && Working(j, n, prior, staged)
      requires Ahead(j.entries[n], live, Dir(j.backup), Dir(j.stage), prior, staged)
      modifies this`live, this`dirs, this`journal, this`clock, this`reached
      ensures reached == old(reached) && Recoverable(j, after, prior) && Working(after, n, prior, staged)
      ensures Dir(j.stage) == old(Dir(j.stage)) && !after.entries[n].published
      ensures s == Ok ==> journal == Some(after)
      ensures s == Ok ==> (after.entries[n].hadOld <==> after.entries[n].destination in Dir(after.backup))
      ensures s == Ok ==> after.entries[n].destination !in live
      ensures s == Ok ==> !IsLink(old(live), j.entries[n].destination)
      ensures clock >= old(clock) && (Quiet(old(clock)) ==> s == if IsLink(old(live), j.entries[n].destination) then Failed else Ok)
    {
      hide Undoes, Midway, UndoesAt, Whole, Marked;
      after := j;
      var d := j.entries[n].destination;
      s := Inspect(d);
      if s != Ok || d !in live {
        return;
      }
      ReplacedIsUndone(j, n, prior, staged);
      s, after := Mark(j, n, j.entries[n].(hadOld := true), prior, staged);
      if s != Ok {
        return;
      }
      s := TakeAway(after, n, prior, staged);
    }

    /** The second half of a turn: the staged output is marked as published and moved in. */
    method PutInPlace(j: Journal, n: nat, ghost prior: Outputs, ghost staged: Outputs) returns (s: Status, after: Journal)
      requires n < |j.entries| && journal == Some(j) && LeadsBack(j, j, prior) && Working(j, n, prior, staged)
      requires !j.entries[n].published && (j.entries[n].hadOld <==> j.entries[n].destination in Dir(j.backup))
      requires j.entries[n].destination in Dir(j.stage)
      requires Get(Dir(j.stage), j.entries[n].destination) == Get(staged, j.entries[n].destination)
      requires j.entries[n].destination !in live
      modifies this`live, this`dirs, this`journal, this`clock, this`reached
      ensures reached == old(reached) && Recoverable(j, after, prior)
      ensures s == Ok ==> journal == Some(after) && Stands(after, n + 1, prior, staged)
      ensures clock >= old(clock) && (Quiet(old(clock)) ==> s == Ok)
    {
      after := j;
      var fate := Attempt();
      if fate != Done {
        return StatusOf(fate), j;
      }
      assert MarkedAt(j.entries[n], live, prior) && WholeAt(j.entries[n], live, Dir(j.backup), prior);
      s, after := Mark(j, n, j.entries[n].(published := true), prior, staged);
      if s != Ok {
        return;
      }
      s := Install(after, n, prior, staged);
    }

    /** One turn of the publish loop. */
    method PublishEntry(j: Journal, n: nat, ghost prior: Outputs, ghost staged: Outputs)
      returns (s: Status, after: Journal)
      requires n < |j.entries| && journal == Some(j) && LeadsBack(j, j, prior) && Stands(j, n, prior, staged)
      modifies this`live, this`dirs, this`journal, this`clock, this`reached
      ensures reached == old(reached) && Recoverable(j, after, prior)
      ensures s == Ok ==> journal == Some(after) && Stands(after, n + 1, prior, staged)
      ensures s == Ok ==> !Blocked(prior, staged, j.entries[n].destination)
      ensures clock >= old(clock)
      ensures Quiet(old(clock)) ==> s == if Blocked(prior, staged, j.entries[n].destination) then Failed else Ok
    {
      hide Undoes, Trails, ValidJournal, Midway;
      after := j;
      StandsMidway(j, n, prior, staged);
      assert Ahead(j.entries[n], live, Dir(j.backup), Dir(j.stage), prior, staged);
      var fate := Attempt();
      if fate != Done {
        return StatusOf(fate), j;
      }
      if j.entries[n].destination !in Dir(j.stage) {
        StandsOn(j, n, prior, staged);
        return Ok, j;
      }
      s, after := SetAside(j, n, prior, staged);
      if s != Ok {
        return;
      }
      s, after := PutInPlace(after, n, prior, staged);
    }

    lemma StandsMidway(j: Journal, n: nat, prior: Outputs, staged: Outputs)
      requires n < |j.entries| && Stands(j, n, prior, staged)
      ensures Working(j, n, prior, staged) && Trails(j.entries, j.entries, live, Dir(j.backup))
    {
      hide Undoes;
    }

    /** Nothing is staged for an entry: it stays as it was. */
    lemma StandsOn(j: Journal, n: nat, prior: Outputs, staged: Outputs)
      requires n < |j.entries| && Stands(j, n, prior, staged) && j.entries[n].destination !in Dir(j.stage)
      ensures Stands(j, n + 1, prior, staged)
    {
      hide Undoes;
      assert Ahead(j.entries[n], live, Dir(j.backup), Dir(j.stage), prior, staged);
    }

    /**
     * The publish loop. Whatever it returns, both the journal in memory and the one on disk lead
     * back to the prior outputs; when it returns Ok, every staged output is in place.
     */
    method PublishEntries(j: Journal, ghost prior: Outputs, ghost staged: Outputs) returns (s: Status, after: Journal)
      requires journal == Some(j) && LeadsBack(j, j, prior) && Stands(j, 0, prior, staged)
      modifies this`live, this`dirs, this`journal, this`clock, this`reached
      ensures reached == old(reached) && Recoverable(j, after, prior)
      ensures s == Ok ==> journal == Some(after) && Stands(after, |after.entries|, prior, staged)
      ensures s == Ok ==> forall i :: 0 <= i < |j.entries| ==> !Blocked(prior, staged, j.entries[i].destination)
      ensures clock >= old(clock)
      ensures Quiet(old(clock)) ==>
                s == if exists i :: 0 <= i < |j.entries| && Blocked(prior, staged, j.entries[i].destination) then Failed else Ok
    {
      hide Undoes, Progress, Blocked, Trails, ValidJournal;
      s, after := Ok, j;
      for i := 0 to |j.entries|
        invariant s == Ok && reached == old(reached) && clock >= old(clock)
        invariant forall k :: 0 <= k < i ==> !Blocked(prior, staged, j.entries[k].destination)
        invariant journal == Some(after) && LeadsBack(j, after, prior) && Stands(after, i, prior, staged)
      {
        s, after := PublishEntry(after, i, prior, staged);
        if s != Ok {
          return;
        }
      }
      TrailsItself(after.entries, live, Dir(j.backup));
    }

    /** What a recovery would leave is `prior`, because the journal on disk leads back to it. */
    lemma SettlesOn(j: Journal, prior: Outputs)
      requires journal.Some? && LeadsBack(j, journal.value, prior)
      ensures Settled() == prior && Pending() && Remembers(prior)
    {
      UndoRestores(Trees(live, Dir(j.backup)), journal.value.entries, prior);
    }

    /** The end of a publish: once the committed journal is on disk, only cleaning up remains. */
    method Commit(j: Journal, ghost prior: Outputs) returns (s: Status)
      requires journal == Some(j) && LeadsBack(j, j, prior) && !reached
      modifies this`dirs, this`journal, this`clock, this`reached
      ensures s == Ok ==> journal == None && reached
      ensures Settled() == if reached then live else prior
      ensures Remembers(if reached then live else prior)
      ensures clock >= old(clock) && (Quiet(old(clock)) ==> s == Ok)
    {
      SettlesOn(j, prior);
      var committed := j.(phase := COMMITTED);
      s := WriteJournal(committed);
      if s == Ok {
        s := Cleanup(committed);
      }
    }

    /** The journal a publish starts with. */
    method NewJournal(stage: string, backup: string, logs: seq<string>) returns (j: Journal)
      requires forall d :: d in logs ==> IsPipelineLog(d)
      ensures j.stage == stage && j.backup == backup && j.phase == ""
      ensures forall e :: e in j.entries ==> !e.hadOld && !e.published && Owned(e.destination)
      ensures forall d :: d in FIXED || d in logs ==> !Untouched(j.entries, d)
      ensures |j.entries| == |FIXED + logs|
      ensures forall i :: 0 <= i < |j.entries| ==> j.entries[i].destination == (FIXED + logs)[i]
    {
      var destinations := FIXED + logs;
      var entries := seq(|destinations|, i requires 0 <= i < |destinations| => Entry(destinations[i], false, false));
      j := Journal(stage, backup, entries, "");
      forall d | d in FIXED || d in logs ensures !Untouched(entries, d) {
        assert d in destinations;
        var i :| 0 <= i < |destinations| && destinations[i] == d;
        assert entries[i].destination == d;
      }
    }

    /** Checks the stage and makes the backup directory. */
    method MakeRoom(stage: string, backup: string) returns (s: Status)
      requires ValidDirectory(backup, BACKUP_PREFIX)
      modifies this`dirs, this`clock
      ensures s == Ok ==> ValidDirectory(stage, STAGE_PREFIX)
      ensures s == Ok ==> Dir(backup) == map[] && Dir(stage) == old(Dir(stage))
      ensures s == Ok ==> old(stage in dirs && backup !in dirs)
      ensures clock >= old(clock)
      ensures Quiet(old(clock)) ==> s == if old(ValidDirectory(stage, STAGE_PREFIX) && stage in dirs && backup !in dirs) then Ok else Failed
    {
      if !ValidDirectory(stage, STAGE_PREFIX) || stage !in dirs {
        return Failed;
      }
      var fate := Attempt();
      if fate != Done {
        return StatusOf(fate);
      }
      NamesDiffer(stage, backup);
      s := MakeDir(backup);
    }

    /**
     * What a publish needs to go through: a stage, an unused backup name, logs that fit in the journal, and no
     * symbolic link where a staged output has to go.
     */
    predicate Publishable(stage: string, backup: string, logs: seq<string>)
      reads this`live, this`dirs
    {
      && ValidDirectory(stage, STAGE_PREFIX) && stage in dirs && backup !in dirs && LogsFit(logs)
      && forall d :: d in live && live[d].Symlink? && d in Dir(stage) ==> !Owned(d)
    }

    /**
     * Publishes a stage. `logs` lists the pipeline logs staged under "cache".
     *
     * Wherever it stops, also in its own rollback, one undisturbed recovery leaves all of the old outputs, or
     * all of the new ones if the commit reached the disk, exactly under the conditions that `Exact` gives; and
     * without conditions when no rollback was begun, or it went through.
     */
    method Publish(stage: string, backup: string, logs: seq<string>) returns (o: Outcome)
      requires journal == None && ValidDirectory(backup, BACKUP_PREFIX)
      requires forall d :: d in logs ==> IsPipelineLog(d)
      requires forall d :: d in Dir(stage) && IsPipelineLog(d) ==> d in logs
      modifies this
      ensures var aim := if reached then Laid(old(live), old(Dir(stage))) else old(live);
              Remembers(aim) && Exact(aim) && (o.undo == None || o.undo == Some(Ok) ==> Settled() == aim)
      ensures o.undo == Some(Ok) ==> live == old(live) && journal == None
      ensures o.undo.Some? ==> o.status == Failed && !reached
      ensures o.undo == None ==> !dropping && !torn
      ensures o.status == Ok ==> live == Laid(old(live), old(Dir(stage))) && journal == None && reached
      ensures o.status == Ok ==> old(Publishable(stage, backup, logs))
      ensures clock >= old(clock)
      ensures Quiet(old(clock)) ==> (o == Outcome(Ok, None) <==> old(Publishable(stage, backup, logs)))
      ensures Quiet(old(clock)) && o.status != Ok ==>
                o.status == Failed && (o.undo == None || o.undo == Some(Ok)) && live == old(live) && journal == None
    {
      hide Undoes, Progress, Trails, TrailsAt, Remembered, UndoFrom, Passed, Exact, ValidDirectory, ValidJournal, LogsFit, Owned;
      reached, dropping, torn := false, false, false;
      ghost var prior, staged := live, Dir(stage);
      var s := MakeRoom(stage, backup);
      if s != Ok {
        RememberedIsExact(prior);
        return Outcome(s, None);
      }
      var j := NewJournal(stage, backup, logs);
      NewJournalFits(j, logs);
      OwnedAreListed(staged, logs);
      NothingBlocked(j, prior, staged);
      if !ValidJournal(j) {
        RememberedIsExact(prior);
        return Outcome(Failed, None);
      }
      StartsClean(j, prior, staged);
      s := WriteJournal(j);
      if s != Ok {
        if journal.Some? {
          SettlesOn(j, prior);
        }
        RememberedIsExact(prior);
        return Outcome(s, None);
      }
      o := Proceed(j, prior, staged);
    }

    /** A publish once its journal is on disk: the loop, then the commit or the rollback. */
    method Proceed(j: Journal, ghost prior: Outputs, ghost staged: Outputs) returns (o: Outcome)
      requires journal == Some(j) && LeadsBack(j, j, prior) && Stands(j, 0, prior, staged) && !reached && !dropping && !torn
      requires forall e :: e in j.entries ==> Owned(e.destination)
      requires forall d :: d in staged && Owned(d) ==> !Untouched(j.entries, d)
      modifies this
      ensures var aim := if reached then Laid(prior, staged) else prior;
              Remembers(aim) && Exact(aim) && (o.undo == None || o.undo == Some(Ok) ==> Settled() == aim)
      ensures o.undo == Some(Ok) ==> live == prior && journal == None
      ensures o.undo.Some? ==> o.status == Failed && !reached
      ensures o.undo == None ==> !dropping && !torn
      ensures o.status == Ok ==> live == Laid(prior, staged) && journal == None && reached && o.undo == None
      ensures o.status == Ok ==> forall i :: 0 <= i < |j.entries| ==> !Blocked(prior, staged, j.entries[i].destination)
      ensures clock >= old(clock)
      ensures Quiet(old(clock)) ==>
                o == if exists i :: 0 <= i < |j.entries| && Blocked(prior, staged, j.entries[i].destination)
                     then Outcome(Failed, Some(Ok)) else Outcome(Ok, None)
    {
      hide Undoes, Progress, Trails, TrailsAt, Remembered, UndoFrom, Passed, Exact, ValidDirectory, Owned, Blocked;
      var s, after := PublishEntries(j, prior, staged);
      SettlesOn(j, prior);
      if s == Failed {
        UndoRestores(Trees(live, Dir(j.backup)), after.entries, prior);
        var undo := Rollback(after, prior);
        RememberedIsExact(prior);
        return Outcome(Failed, Some(undo));
      }
      if s == Crashed {
        RememberedIsExact(prior);
        return Outcome(Crashed, None);
      }
      EndsLaidOver(j, after, prior, staged);
      s := Commit(after, prior);
      RememberedIsExact(if reached then live else prior);
      o := Outcome(s, None);
    }

    lemma OwnedAreListed(staged: Outputs, logs: seq<string>)
      requires forall d :: d in staged && IsPipelineLog(d) ==> d in logs
      ensures forall d :: d in staged && Owned(d) ==> d in FIXED || d in logs
    {
      hide IsPipelineLog;
    }

    /** An entry is blocked when a link stands where a staged output of the publish has to go. */
    lemma NothingBlocked(j: Journal, prior: Outputs, staged: Outputs)
      requires forall e :: e in j.entries ==> Owned(e.destination)
      requires forall d :: d in staged && Owned(d) ==> !Untouched(j.entries, d)
      ensures (forall i :: 0 <= i < |j.entries| ==> !Blocked(prior, staged, j.entries[i].destination))
              <==> forall d :: d in prior && prior[d].Symlink? && d in staged ==> !Owned(d)
    {
      hide Owned;
      forall i | 0 <= i < |j.entries| ensures Owned(j.entries[i].destination) {
        assert j.entries[i] in j.entries;
      }
      forall d | d in staged && Owned(d) ensures exists i :: 0 <= i < |j.entries| && j.entries[i].destination == d {
        assert !Untouched(j.entries, d);
      }
    }

    lemma StartsClean(j: Journal, prior: Outputs, staged: Outputs)
      requires ValidJournal(j) && j.phase == "" && live == prior && Dir(j.backup) == map[] && Dir(j.stage) == staged
      requires forall e :: e in j.entries ==> !e.hadOld && !e.published
      ensures LeadsBack(j, j, prior) && Stands(j, 0, prior, staged)
    {
      assert j == j.(entries := j.entries);
      forall i | 0 <= i < |j.entries|
        ensures UndoneAt(j.entries[i], live, Dir(j.backup)) == Get(prior, j.entries[i].destination)
        ensures Ahead(j.entries[i], live, Dir(j.backup), Dir(j.stage), prior, staged)
      {
        assert j.entries[i] in j.entries;
      }
    }

    lemma EndsLaidOver(j: Journal, after: Journal, prior: Outputs, staged: Outputs)
      requires LeadsBack(j, after, prior) && Stands(after, |after.entries|, prior, staged)
      requires forall e :: e in j.entries ==> Owned(e.destination)
      requires forall d :: d in staged && Owned(d) ==> !Untouched(j.entries, d)
      ensures live == Laid(prior, staged)
    {
      forall e | e in after.entries ensures Owned(e.destination) {
        var i :| 0 <= i < |after.entries| && after.entries[i] == e;
        assert j.entries[i] in j.entries;
      }
      forall d | d in staged && Owned(d) ensures !Untouched(after.entries, d) {
        var i :| 0 <= i < |j.entries| && j.entries[i].destination == d;
        assert after.entries[i].destination == d;
      }
      AllBehind(after.entries, live, Dir(j.backup), Dir(j.stage), prior, staged);
    }

    /**
     * The file side of a whole run: recover first, then stage and publish. Run after any earlier
     * publish that died anywhere, it takes what that one settles on to itself or to the next generation;
     * and when its recovery fails, what is known of the outputs before that publish stays known.
     */
    method Run(stage: string, staged: Outputs, backup: string, logs: seq<string>, ghost prior: Outputs)
      returns (recovered: Status, o: Outcome)
      requires ValidDirectory(backup, BACKUP_PREFIX)
      requires forall d :: d in logs <==> d in staged && IsPipelineLog(d)
      modifies this
      ensures recovered == Ok ==>
                var aim := if reached then Laid(old(Settled()), staged) else old(Settled());
                Remembers(aim) && Exact(aim) && (o.undo == None || o.undo == Some(Ok) ==> Settled() == aim)
      ensures recovered == Ok && o.status == Ok ==> live == Laid(old(Settled()), staged) && reached
      ensures recovered != Ok && old(Remembers(prior)) && journal.Some? ==> Remembers(prior) && Exact(prior)
      ensures recovered != Ok && journal == None ==> live == old(Settled())
      ensures recovered == Ok ==> old(journal == None || ValidJournal(journal.value))
      ensures recovered == Ok && o.status == Ok ==> forall d :: d in staged && Owned(d) ==> !IsLink(old(Settled()), d)
      ensures Quiet(old(clock)) ==> recovered == if old(journal == None || ValidJournal(journal.value)) then Ok else Failed
      ensures Quiet(old(clock)) && recovered == Ok ==>
                (o == Outcome(Ok, None) <==>
                  && ValidDirectory(stage, STAGE_PREFIX) && backup !in old(dirs.Keys - Left()) && LogsFit(logs)
                  && forall d :: d in staged && Owned(d) ==> !IsLink(old(Settled()), d))
    {
      hide Exact, Remembered, UndoFrom, ValidJournal, LogsFit, Laid;
      reached := false;
      recovered := Recover(prior);
      o := Outcome(Failed, None);
      if recovered != Ok {
        return;
      }
      if ValidDirectory(stage, STAGE_PREFIX) {
        NamesDiffer(stage, backup);
      }
      dirs := dirs[stage := staged];
      o := Publish(stage, backup, logs);
    }
  }

  // ---- A rollback that loses an output ----

  const OLD_FILE := File("old")
  const NEW_FILE := File("new")
  const LOST_STAGE := ".lwc-worker-stage-1"
  const LOST_BACKUP := ".lwc-worker-backup-1"
  const LOST_PRIOR: Outputs := map["wiki.toml" := OLD_FILE]
  const LOST_LIVE: Outputs := map["wiki" := NEW_FILE, "wiki.toml" := NEW_FILE]
  const LOST_ENTRIES := [Entry("wiki", false, true), Entry("wiki.toml", true, true)]
  const LOST_JOURNAL := Journal(LOST_STAGE, LOST_BACKUP, LOST_ENTRIES, "")

  /** The process dies in its fourth operation, the removal of "wiki". */
  const LOST_FORTUNE := Fortune(n => if n == 3 then Died else Done, n => None, n => map[])

  lemma LosingJournalIsValid()
    ensures ValidJournal(LOST_JOURNAL) && Distinct(LOST_ENTRIES)
  {
    assert LOST_STAGE[|STAGE_PREFIX|..] == "1" && LOST_BACKUP[|BACKUP_PREFIX|..] == "1";
    assert NameChar('1');
    assert FIXED[0] == "wiki" && FIXED[1] == "wiki.toml";
    assert LOST_ENTRIES[0].destination == "wiki" && LOST_ENTRIES[1].destination == "wiki.toml" && |"wiki"| != |"wiki.toml"|;
  }

  lemma LosingPass()
    ensures var p := Passed(LOST_FORTUNE, Pass(Trees(LOST_LIVE, LOST_PRIOR), 0, false, false), LOST_ENTRIES);
            p.died && p.trees.live == LOST_PRIOR && p.trees.backup == map[]
  {
    var p0 := Pass(Trees(LOST_LIVE, LOST_PRIOR), 0, false, false);
    var p1 := EntryStep(LOST_FORTUNE, p0, LOST_ENTRIES[1]);
    assert p1.trees.live == map["wiki" := NEW_FILE, "wiki.toml" := OLD_FILE] && p1.trees.backup == map[] && p1.clock == 3 && !p1.died;
    assert LOST_ENTRIES[..1] == [LOST_ENTRIES[0]] && LOST_ENTRIES[..1][..0] == [];
    var p2 := EntryStep(LOST_FORTUNE, p1, LOST_ENTRIES[0]);
    assert p2.died && p2.trees.live == LOST_PRIOR;
    assert Passed(LOST_FORTUNE, p1, [LOST_ENTRIES[0]]) == p2;
  }

  /** One entry of the two is marked both published and replaced: rolled back again, it is gone. */
  lemma LosingAgain()
    ensures UndoFrom(Trees(LOST_LIVE, LOST_PRIOR), LOST_ENTRIES, 0).live == LOST_PRIOR
    ensures UndoFrom(Trees(LOST_PRIOR, map[]), LOST_ENTRIES, 0).live == map[]
  {
    var e, d := LOST_ENTRIES[1], LOST_ENTRIES[0];
    assert LOST_ENTRIES[..1] == [d] && [d][..0] == [];
    var t := UndoEntry(Trees(LOST_LIVE, LOST_PRIOR), e);
    assert t.live == map["wiki" := NEW_FILE, "wiki.toml" := OLD_FILE] && UndoEntry(t, d).live == LOST_PRIOR;
    assert UndoFrom(t, [d], 0) == UndoFrom(UndoEntry(t, d), [], 0);
    var u := UndoEntry(Trees(LOST_PRIOR, map[]), e);
    assert u.live == map[] && UndoEntry(u, d).live == map[];
    assert UndoFrom(u, [d], 0) == UndoFrom(UndoEntry(u, d), [], 0);
  }

  /**
   * A publish died with both outputs in place. A recovery would give back the old one; but the first recovery
   * dies after having done so, and from then on any recovery that succeeds leaves the vault without it.
   */
  method LosingRollback() returns (v: Vault, s: Status)
    ensures fresh(v) && s == Crashed
    ensures v.live == LOST_PRIOR && v.Remembers(LOST_PRIOR) && v.Settled() == map[]
  {
    LosingJournalIsValid();
    LosingPass();
    LosingAgain();
    v := new Vault(LOST_LIVE, map[LOST_BACKUP := LOST_PRIOR], Some(LOST_JOURNAL), LOST_FORTUNE);
    assert v.Settled() == LOST_PRIOR && v.Dir(LOST_BACKUP) == LOST_PRIOR;
    StartsRemembered(v);
    s := v.Rollback(LOST_JOURNAL, LOST_PRIOR);
  }

  lemma StartsRemembered(v: Vault)
    requires v.journal == Some(LOST_JOURNAL) && v.live == LOST_LIVE && v.Dir(LOST_BACKUP) == LOST_PRIOR
    ensures ValidJournal(LOST_JOURNAL) ==> v.Remembers(LOST_PRIOR) && v.Follows(LOST_JOURNAL)
  {
    var k := LOST_ENTRIES;
    assert k[0].destination == "wiki" && k[1].destination == "wiki.toml" && |"wiki"| != |"wiki.toml"|;
    forall i | 0 <= i < |k|
      ensures MarkedAt(k[i], LOST_LIVE, LOST_PRIOR) && WholeAt(k[i], LOST_LIVE, LOST_PRIOR, LOST_PRIOR)
      ensures KeptAt(k[i], LOST_LIVE, LOST_PRIOR)
    {
    }
    forall d | Untouched(k, d) ensures Get(LOST_LIVE, d) == Get(LOST_PRIOR, d) {
      assert k[0].destination != d && k[1].destination != d;
    }
  }
}
