/** One pass of the rollback loop, whatever befalls its file operations (cmd/olw_worker/workspace_publish.go). */
module RollbackPass {
  import opened Options
  import opened PublishJournal

  /**
   * What becomes of one file operation: it is done; it fails, without or with its effect; or the
   * process dies in it. Dying just after it is dying just before the next one.
   */
  datatype Fate = Done | Refused | Late | Died

  /**
   * The fate of the n-th operation; and, when that is a removal which does not go through, what it
   * leaves of an output, or of the outputs in a directory.
   */
  datatype Fortune = Fortune(fate: nat -> Fate, remnant: nat -> Option<Content>, remains: nat -> Outputs)

  predicate Effective(fate: Fate) {
    fate == Done || fate == Late
  }

  predicate Fails(fate: Fate) {
    fate == Refused || fate == Late
  }

  /** The outputs after the removal of one of them. */
  function Removed(f: Fortune, clock: nat, live: Outputs, d: string): Outputs {
    if d !in live then live
    else if Effective(f.fate(clock)) then live - {d}
    else Put(live, d, f.remnant(clock))
  }

  /** Where a pass stands: the trees, the operations so far, whether one has failed, whether the process has died. */
  datatype Pass = Pass(trees: Trees, clock: nat, failed: bool, died: bool)

  function RemoveStep(f: Fortune, p: Pass, d: string): Pass {
    var fate := f.fate(p.clock);
    Pass(p.trees.(live := Removed(f, p.clock, p.trees.live, d)), p.clock + 1, p.failed || Fails(fate), fate == Died)
  }

  /** Making the parent directory, then renaming; a missing backup is no failure. */
  function RestoreStep(f: Fortune, p: Pass, d: string): Pass {
    var made, fate := f.fate(p.clock), f.fate(p.clock + 1);
    if made == Died then p.(clock := p.clock + 1, died := true)
    else if made != Done then p.(clock := p.clock + 1, failed := true)
    else
      var t := p.trees;
      var moved := if Effective(fate) && d in t.backup then Trees(t.live[d := t.backup[d]], t.backup - {d}) else t;
      Pass(moved, p.clock + 2, p.failed || Fails(fate), fate == Died)
  }

  function EntryStep(f: Fortune, p: Pass, e: Entry): Pass {
    var removed := if e.published then RemoveStep(f, p, e.destination) else p;
    if removed.died || !e.hadOld then removed else RestoreStep(f, removed, e.destination)
  }

  /** The loop of a rollback over the entries, last first. */
  function Passed(f: Fortune, p: Pass, entries: seq<Entry>): Pass
    decreases |entries|
  {
    if entries == [] || p.died then p
    else Passed(f, EntryStep(f, p, entries[|entries| - 1]), entries[..|entries| - 1])
  }

  /** One round of the loop. */
  lemma NextEntry(f: Fortune, p: Pass, entries: seq<Entry>, n: nat)
    requires n < |entries| && !p.died
    ensures Passed(f, p, entries[..n + 1]) == Passed(f, EntryStep(f, p, entries[n]), entries[..n])
    ensures EntryStep(f, p, entries[n]).died ==> Passed(f, p, entries[..n + 1]) == EntryStep(f, p, entries[n])
  {
    assert entries[..n + 1][..n] == entries[..n];
  }

  /** A pass without any trouble undoes the entries. */
  lemma {:induction false} QuietPassUndoes(f: Fortune, p: Pass, entries: seq<Entry>)
    requires !Passed(f, p, entries).failed && !Passed(f, p, entries).died
    ensures !p.failed && !p.died && Passed(f, p, entries).trees == UndoFrom(p.trees, entries, 0)
    decreases |entries|
  {
    if entries != [] && !p.died {
      QuietPassUndoes(f, EntryStep(f, p, entries[|entries| - 1]), entries[..|entries| - 1]);
      QuietStepUndoes(f, p, entries[|entries| - 1]);
    }
  }

  lemma QuietStepUndoes(f: Fortune, p: Pass, e: Entry)
    requires !EntryStep(f, p, e).failed && !EntryStep(f, p, e).died
    ensures !p.failed && EntryStep(f, p, e).trees == UndoEntry(p.trees, e)
  {
    assert e.destination !in p.trees.live ==> p.trees.live - {e.destination} == p.trees.live;
  }

  lemma StepTakesTime(f: Fortune, p: Pass, e: Entry)
    ensures EntryStep(f, p, e).clock >= p.clock
  {
  }

  /** A pass in which every operation is done meets no trouble. */
  lemma {:induction false} QuietPass(f: Fortune, p: Pass, entries: seq<Entry>)
    requires !p.died && forall n: nat :: p.clock <= n ==> f.fate(n) == Done
    ensures Passed(f, p, entries).failed == p.failed && !Passed(f, p, entries).died
    decreases |entries|
  {
    if entries != [] {
      QuietPass(f, EntryStep(f, p, entries[|entries| - 1]), entries[..|entries| - 1]);
    }
  }

  // ---- What every pass keeps ----

  /**
   * The mark `m` that a pass goes by and the mark `k` on the disk: the same, or the disk is one flag
   * behind, and then the rename that the flag announces has not been tried.
   */
  predicate TrailsAt(m: Entry, k: Entry, live: Outputs, backup: Outputs) {
    || m == k
    || (m == k.(hadOld := true) && !k.published && k.destination !in backup)
    || (m == k.(published := true) && k.destination !in live)
  }

  predicate Trails(m: seq<Entry>, k: seq<Entry>, live: Outputs, backup: Outputs) {
    |m| == |k| && forall i :: 0 <= i < |m| ==> m[i].destination == k[i].destination && TrailsAt(m[i], k[i], live, backup)
  }

  lemma TrailsItself(k: seq<Entry>, live: Outputs, backup: Outputs)
    ensures Trails(k, k, live, backup)
  {
  }

  /** What may be known beside the marks: that backups are whole, and that none has been dropped. */
  datatype Lore = Lore(whole: bool, kept: bool)

  /** What rolling back by the disk's journal relies on. */
  ghost predicate Remembered(k: seq<Entry>, t: Trees, prior: Outputs, lore: Lore) {
    && Marked(k, t.live, prior)
    && (lore.whole ==> Whole(k, t.live, t.backup, prior))
    && (lore.kept ==> Kept(k, t.live, t.backup))
  }

  ghost predicate RememberedAt(k: Entry, t: Trees, prior: Outputs, lore: Lore) {
    && MarkedAt(k, t.live, prior)
    && (lore.whole ==> WholeAt(k, t.live, t.backup, prior))
    && (lore.kept ==> KeptAt(k, t.live, t.backup))
  }

  /** One entry's operations touch its destination only, and leave what is known of it. */
  lemma EntryStepKeeps(f: Fortune, p: Pass, m: Entry, k: Entry, prior: Outputs, lore: Lore)
    requires m.destination == k.destination && TrailsAt(m, k, p.trees.live, p.trees.backup)
    requires RememberedAt(k, p.trees, prior, lore)
    ensures var q := EntryStep(f, p, m);
            && RememberedAt(k, q.trees, prior, lore)
            && SameBut(p.trees.live, q.trees.live, k.destination) && SameBut(p.trees.backup, q.trees.backup, k.destination)
  {
  }

  lemma RememberedElsewhere(k: seq<Entry>, n: nat, t: Trees, t': Trees, prior: Outputs, lore: Lore)
    requires n < |k| && Distinct(k) && Remembered(k, t, prior, lore) && RememberedAt(k[n], t', prior, lore)
    requires SameBut(t.live, t'.live, k[n].destination) && SameBut(t.backup, t'.backup, k[n].destination)
    ensures Remembered(k, t', prior, lore)
  {
    forall i | 0 <= i < |k| ensures RememberedAt(k[i], t', prior, lore) {
      if i != n {
        var d := k[i].destination;
        assert d != k[n].destination;
        assert Get(t.live, d) == Get(t'.live, d) && Get(t.backup, d) == Get(t'.backup, d);
        RememberedIs(k, i, t, prior, lore);
      }
    }
    forall d | Untouched(k, d) ensures Get(t'.live, d) == Get(prior, d) {
      assert k[n].destination != d;
      assert Get(t.live, d) == Get(t'.live, d);
    }
  }

  lemma TrailsElsewhere(m: seq<Entry>, k: seq<Entry>, n: nat, t: Trees, t': Trees)
    requires n < |m| == |k| && Distinct(k) && SameBut(t.live, t'.live, k[n].destination)
    requires SameBut(t.backup, t'.backup, k[n].destination)
    requires forall i :: 0 <= i < n ==> TrailsAt(m[i], k[i], t.live, t.backup)
    ensures forall i :: 0 <= i < n ==> TrailsAt(m[i], k[i], t'.live, t'.backup)
  {
    forall i | 0 <= i < n ensures TrailsAt(m[i], k[i], t'.live, t'.backup) {
      var d := k[i].destination;
      assert d != k[n].destination && TrailsAt(m[i], k[i], t.live, t.backup);
      assert Get(t.live, d) == Get(t'.live, d) && Get(t.backup, d) == Get(t'.backup, d);
    }
  }

  /** Whatever befalls it, and wherever it dies, a pass keeps what the disk's journal relies on. */
  lemma {:induction false} PassKeeps(f: Fortune, p: Pass, m: seq<Entry>, k: seq<Entry>, n: nat, prior: Outputs, lore: Lore)
    requires n <= |m| == |k| && Distinct(k) && Remembered(k, p.trees, prior, lore)
    requires forall i :: 0 <= i < n ==> m[i].destination == k[i].destination
    requires forall i :: 0 <= i < n ==> TrailsAt(m[i], k[i], p.trees.live, p.trees.backup)
    ensures Remembered(k, Passed(f, p, m[..n]).trees, prior, lore)
    decreases n
  {
    hide Remembered, EntryStep, TrailsAt;
    if n > 0 && !p.died {
      var q := EntryStep(f, p, m[n - 1]);
      RememberedIs(k, n - 1, p.trees, prior, lore);
      EntryStepKeeps(f, p, m[n - 1], k[n - 1], prior, lore);
      RememberedElsewhere(k, n - 1, p.trees, q.trees, prior, lore);
      TrailsElsewhere(m, k, n - 1, p.trees, q.trees);
      assert m[..n][..n - 1] == m[..n - 1];
      PassKeeps(f, q, m, k, n - 1, prior, lore);
    }
  }

  lemma RememberedIs(k: seq<Entry>, n: nat, t: Trees, prior: Outputs, lore: Lore)
    requires n < |k| && Remembered(k, t, prior, lore)
    ensures RememberedAt(k[n], t, prior, lore)
  {
  }

  /** When a full rollback by the journal on the disk gives `prior`, in terms of what is known. */
  lemma RollbackIsExact(k: seq<Entry>, t: Trees, prior: Outputs, lore: Lore)
    requires Distinct(k) && Remembered(k, t, prior, lore)
    ensures UndoFrom(t, k, 0).live == prior <==> Restorable(k, t.live, t.backup, prior)
    ensures lore.whole ==> (UndoFrom(t, k, 0).live == prior <==> Kept(k, t.live, t.backup) && BackedUp(k, t.backup))
    ensures lore.whole && lore.kept ==> (UndoFrom(t, k, 0).live == prior <==> BackedUp(k, t.backup))
  {
    RollbackRestores(t, k, prior);
    if lore.whole {
      RestorableByPlace(k, t.live, t.backup, prior);
    }
  }

  /**
   * A pass that died anywhere or met failures, by a journal that may be one flag ahead of the disk's,
   * and then a full pass by the disk's journal: the prior outputs are back exactly when no entry marked
   * both published and replaced has had its backup moved back.
   */
  lemma RepeatedRollback(f: Fortune, p: Pass, m: seq<Entry>, k: seq<Entry>, prior: Outputs)
    requires Distinct(k) && Remembered(k, p.trees, prior, Lore(true, true)) && Trails(m, k, p.trees.live, p.trees.backup)
    ensures var cut := Passed(f, p, m).trees;
            UndoFrom(cut, k, 0).live == prior <==> BackedUp(k, cut.backup)
  {
    assert m[..|m|] == m;
    PassKeeps(f, p, m, k, |m|, prior, Lore(true, true));
    RollbackIsExact(k, Passed(f, p, m).trees, prior, Lore(true, true));
  }

  /** Backups that are dropped, each as a whole, do not make the remaining ones less whole. */
  lemma WholeWithLess(k: seq<Entry>, live: Outputs, backup: Outputs, less: Outputs, prior: Outputs)
    requires Whole(k, live, backup, prior) && forall d :: d in less ==> d in backup && less[d] == backup[d]
    ensures Whole(k, live, less, prior)
  {
    forall i | 0 <= i < |k| ensures WholeAt(k[i], live, less, prior) {
      assert WholeAt(k[i], live, backup, prior);
    }
  }
}
