// One field under a stack of rollbacks, newest run first, as values: which changes get undone, and when a field that
// nobody edited comes back. A run's entities are undone in the order the run recorded them, the first one first.

module RollbackUnwind {
  import opened RollbackFields

  /** What an entity of a run did to the field, and whether the rollback gets to look at it. */
  datatype Change = Change(before: Value, after: Value, honoured: bool)

  function Undone(v: Value, c: Change): Value { if c.honoured && v == c.after then c.before else v }

  /** One run, its changes in recorded order: the first is undone first. */
  function UndoRun(v: Value, run: seq<Change>): Value {
    if run == [] then v else Undone(UndoRun(v, run[..|run| - 1]), run[|run| - 1])
  }

  /** The newest (last) run is undone first. */
  function Unwind(v: Value, stack: seq<seq<Change>>): Value
    decreases |stack|
  {
    if stack == [] then v else Unwind(UndoRun(v, stack[|stack| - 1]), stack[..|stack| - 1])
  }

  /** The changes in the order they were made. */
  function History(stack: seq<seq<Change>>): seq<Change> {
    if stack == [] then [] else History(stack[..|stack| - 1]) + stack[|stack| - 1]
  }

  /** The value before changes that led to v. */
  function Start(history: seq<Change>, v: Value): Value { if history == [] then v else history[0].before }

  /** Nobody edited the field: each change found what the one before it had left, and v is what the last left. */
  predicate Unedited(v: Value, history: seq<Change>) {
    history != [] ==>
      && v == history[|history| - 1].after
      && forall i :: 0 < i < |history| ==> history[i].before == history[i - 1].after
  }

  /** Somebody edited the field: no change that a rollback looks at left this value. */
  predicate Edited(v: Value, history: seq<Change>) {
    forall i :: 0 <= i < |history| && history[i].honoured ==> history[i].after != v
  }

  /** The run left the field as it was. */
  predicate Idle(c: Change) { c.before == c.after }

  predicate AllIdle(history: seq<Change>) { forall i :: 0 <= i < |history| ==> Idle(history[i]) }

  /** Every change that no rollback looks at left the field as it was. */
  predicate DroppedAreIdle(history: seq<Change>) {
    forall i :: 0 <= i < |history| && !history[i].honoured ==> Idle(history[i])
  }

  /** At most one entity of the run changed the field. */
  predicate ChangedOnce(run: seq<Change>) { forall i, j :: 0 <= i < j < |run| ==> Idle(run[i]) || Idle(run[j]) }

  predicate ChangedOnceEach(stack: seq<seq<Change>>) { forall i :: 0 <= i < |stack| ==> ChangedOnce(stack[i]) }

  /** A value that replaced another one was not there at any earlier time. */
  predicate NeverReturns(history: seq<Change>) {
    forall i, j :: 0 <= j <= i < |history| && !Idle(history[i]) ==> history[j].before != history[i].after
  }

  // ----- one run -----

  lemma SplitUnedited(v: Value, older: seq<Change>, newer: seq<Change>)
    requires Unedited(v, older + newer)
    ensures Unedited(v, newer) && Unedited(Start(newer, v), older)
    ensures Start(older + newer, v) == Start(older, Start(newer, v))
  {
    var all := older + newer;
    forall i | 0 < i < |newer| ensures newer[i].before == newer[i - 1].after {
      assert newer[i] == all[|older| + i] && newer[i - 1] == all[|older| + i - 1];
    }
    forall i | 0 < i < |older| ensures older[i].before == older[i - 1].after {
      assert older[i] == all[i] && older[i - 1] == all[i - 1];
    }
    if older != [] && newer != [] { assert all[|older|].before == all[|older| - 1].after; }
  }

  lemma {:induction false} IdleRunKeeps(v: Value, run: seq<Change>)
    requires AllIdle(run)
    ensures UndoRun(v, run) == v
    ensures Unedited(v, run) ==> Start(run, v) == v
  {
    if run != [] {
      var front, last := run[..|run| - 1], run[|run| - 1];
      assert run == front + [last] && Idle(run[|run| - 1]);
      IdleRunKeeps(v, front);
      if Unedited(v, run) { SplitUnedited(v, front, [last]); }
    }
  }

  lemma {:induction false} EditedRunKeeps(v: Value, run: seq<Change>)
    requires Edited(v, run)
    ensures UndoRun(v, run) == v
  {
    if run != [] { EditedRunKeeps(v, run[..|run| - 1]); }
  }

  lemma OnlyLastChanges(front: seq<Change>, last: Change)
    requires ChangedOnce(front + [last]) && !Idle(last)
    ensures AllIdle(front)
  {
    var run := front + [last];
    assert run[|front|] == last;
    forall i | 0 <= i < |front| ensures Idle(front[i]) { assert run[i] == front[i]; }
  }

  /** A run that changed the field once, under an entity the rollback looks at, is undone. */
  lemma {:induction false} RunIsUndone(v: Value, run: seq<Change>)
    requires Unedited(v, run) && DroppedAreIdle(run) && ChangedOnce(run)
    ensures UndoRun(v, run) == Start(run, v)
  {
    if run != [] {
      var front, last := run[..|run| - 1], run[|run| - 1];
      assert run == front + [last];
      SplitUnedited(v, front, [last]);
      if Idle(last) {
        RunIsUndone(v, front);
      } else {
        OnlyLastChanges(front, last);
        IdleRunKeeps(v, front);
        IdleRunKeeps(last.before, front);
      }
    }
  }

  /** The value is one that a change of the history brought. */
  predicate Brought(u: Value, history: seq<Change>) {
    exists i :: 0 <= i < |history| && !Idle(history[i]) && history[i].after == u
  }

  lemma BroughtLater(u: Value, older: seq<Change>, newer: seq<Change>)
    ensures Brought(u, older) ==> Brought(u, older + newer)
    ensures Brought(u, newer) ==> Brought(u, older + newer)
  {
    if i :| 0 <= i < |older| && !Idle(older[i]) && older[i].after == u {
      assert !Idle((older + newer)[i]) && (older + newer)[i].after == u;
    }
    if i :| 0 <= i < |newer| && !Idle(newer[i]) && newer[i].after == u {
      assert !Idle((older + newer)[|older| + i]) && (older + newer)[|older| + i].after == u;
    }
  }

  lemma {:induction false} LastChangeBrought(v: Value, history: seq<Change>)
    requires Unedited(v, history) && !AllIdle(history)
    ensures Brought(v, history)
  {
    var front, last := history[..|history| - 1], history[|history| - 1];
    assert history == front + [last];
    SplitUnedited(v, front, [last]);
    if Idle(last) {
      var i :| 0 <= i < |history| && !Idle(history[i]);
      assert !Idle(front[i]);
      LastChangeBrought(v, front);
    }
    BroughtLater(v, front, [last]);
    assert !Idle(last) ==> [last][0].after == v && Brought(v, [last]);
  }

  /** What a change brought was not there before it, so nothing earlier puts it back. */
  lemma BroughtIsEdited(u: Value, older: seq<Change>, newer: seq<Change>, v: Value)
    requires NeverReturns(older + newer) && Unedited(v, older + newer) && Brought(u, newer)
    ensures Edited(u, older) && Start(older + newer, v) != u
  {
    var all := older + newer;
    var i :| 0 <= i < |newer| && !Idle(newer[i]) && newer[i].after == u;
    assert all[|older| + i] == newer[i];
    forall j | 0 <= j < |older| ensures older[j].after != u {
      assert all[j + 1].before == all[j].after && all[j + 1].before != all[|older| + i].after;
    }
    assert all[0].before != all[|older| + i].after;
  }

  lemma FrontNeverReturns(older: seq<Change>, newer: seq<Change>)
    requires NeverReturns(older + newer)
    ensures NeverReturns(older) && NeverReturns(newer)
  {
    var all := older + newer;
    forall i, j | 0 <= j <= i < |older| && !Idle(older[i]) ensures older[j].before != older[i].after {
      assert all[i] == older[i] && all[j] == older[j];
    }
    forall i, j | 0 <= j <= i < |newer| && !Idle(newer[i]) ensures newer[j].before != newer[i].after {
      assert all[|older| + i] == newer[i] && all[|older| + j] == newer[j];
    }
  }

  /**
   * A run that changed the field twice, or under an entity nobody looks at, stops at a value one of its changes left.
   */
  lemma {:induction false} RunIsStuck(v: Value, run: seq<Change>)
    requires Unedited(v, run) && NeverReturns(run) && !(DroppedAreIdle(run) && ChangedOnce(run))
    ensures Brought(UndoRun(v, run), run)
  {
    var front, last := run[..|run| - 1], run[|run| - 1];
    assert run == front + [last];
    SplitUnedited(v, front, [last]);
    FrontNeverReturns(front, [last]);
    if Idle(last) {
      FrontIsStuck(front, last);
      RunIsStuck(v, front);
      BroughtLater(UndoRun(v, front), front, [last]);
    } else {
      assert [last][0].after == v && Brought(v, [last]);
      BroughtIsEdited(v, front, [last], v);
      EditedRunKeeps(v, front);
      BroughtLater(v, front, [last]);
      if last.honoured {
        FrontHasChange(front, last);
        LastChangeBrought(last.before, front);
        BroughtLater(last.before, front, [last]);
      }
    }
  }

  lemma FrontIsStuck(front: seq<Change>, last: Change)
    requires Idle(last) && !(DroppedAreIdle(front + [last]) && ChangedOnce(front + [last]))
    ensures !(DroppedAreIdle(front) && ChangedOnce(front))
  {
    var run := front + [last];
    if i :| 0 <= i < |run| && !run[i].honoured && !Idle(run[i]) {
      assert run[i] == front[i];
    } else {
      var i, j :| 0 <= i < j < |run| && !Idle(run[i]) && !Idle(run[j]);
      assert !Idle(front[i]) && !Idle(front[j]);
    }
  }

  lemma FrontHasChange(front: seq<Change>, last: Change)
    requires !Idle(last) && last.honoured && !(DroppedAreIdle(front + [last]) && ChangedOnce(front + [last]))
    ensures !AllIdle(front)
  {
    var run := front + [last];
    if i :| 0 <= i < |run| && !run[i].honoured && !Idle(run[i]) {
      assert run[i] == front[i] && !Idle(front[i]);
    } else {
      var i, j :| 0 <= i < j < |run| && !Idle(run[i]) && !Idle(run[j]);
      assert !Idle(front[i]);
    }
  }

  // ----- the whole stack -----

  lemma {:induction false} UnwindKeepsEdited(v: Value, stack: seq<seq<Change>>)
    requires Edited(v, History(stack))
    ensures Unwind(v, stack) == v
    decreases |stack|
  {
    if stack != [] {
      var older, newest := stack[..|stack| - 1], stack[|stack| - 1];
      var all := History(older) + newest;
      assert forall i :: 0 <= i < |History(older)| ==> History(older)[i] == all[i];
      assert forall i :: 0 <= i < |newest| ==> newest[i] == all[|History(older)| + i];
      EditedRunKeeps(v, newest);
      UnwindKeepsEdited(v, older);
    }
  }

  /** What the newest run must be like, and the older ones. */
  lemma NewestAndOlder(stack: seq<seq<Change>>)
    requires stack != []
    ensures var older, newest := stack[..|stack| - 1], stack[|stack| - 1];
            DroppedAreIdle(History(stack)) && ChangedOnceEach(stack) <==>
              && DroppedAreIdle(History(older)) && ChangedOnceEach(older)
              && DroppedAreIdle(newest) && ChangedOnce(newest)
  {
    var older, newest := stack[..|stack| - 1], stack[|stack| - 1];
    assert stack == older + [newest] && History(stack) == History(older) + newest;
    DroppedSplit(History(older), newest);
    assert forall i :: 0 <= i < |older| ==> older[i] == stack[i];
  }

  lemma DroppedSplit(older: seq<Change>, newer: seq<Change>)
    ensures DroppedAreIdle(older + newer) <==> DroppedAreIdle(older) && DroppedAreIdle(newer)
  {
    var all := older + newer;
    assert forall i :: 0 <= i < |older| ==> all[i] == older[i];
    assert forall i :: 0 <= i < |newer| ==> all[|older| + i] == newer[i];
  }

  predicate AllHonoured(history: seq<Change>) { forall i :: 0 <= i < |history| ==> history[i].honoured }

  lemma HonouredIsNotDropped(history: seq<Change>)
    requires AllHonoured(history)
    ensures DroppedAreIdle(history)
  {
  }

  lemma {:induction false} HonouredHistory(stack: seq<seq<Change>>)
    requires forall i :: 0 <= i < |stack| ==> AllHonoured(stack[i])
    ensures AllHonoured(History(stack))
    decreases |stack|
  {
    if stack != [] { HonouredHistory(stack[..|stack| - 1]); }
  }

  /**
   * A field nobody edited comes back when every run that changed it did so once, under an entity the rollback looks
   * at; and only then, unless a value that was replaced returned.
   */
  lemma {:induction false} UneditedUnwinds(v: Value, stack: seq<seq<Change>>)
    requires Unedited(v, History(stack))
    ensures DroppedAreIdle(History(stack)) && ChangedOnceEach(stack) ==> Unwind(v, stack) == Start(History(stack), v)
    ensures NeverReturns(History(stack)) ==>
              (Unwind(v, stack) == Start(History(stack), v) <==>
               DroppedAreIdle(History(stack)) && ChangedOnceEach(stack))
    decreases |stack|
  {
    if stack != [] {
      var older, newest := stack[..|stack| - 1], stack[|stack| - 1];
      SplitUnedited(v, History(older), newest);
      NewestAndOlder(stack);
      if DroppedAreIdle(newest) && ChangedOnce(newest) {
        RunIsUndone(v, newest);
        UneditedUnwinds(Start(newest, v), older);
        if NeverReturns(History(stack)) { FrontNeverReturns(History(older), newest); }
      } else if NeverReturns(History(stack)) {
        FrontNeverReturns(History(older), newest);
        RunIsStuck(v, newest);
        BroughtIsEdited(UndoRun(v, newest), History(older), newest, v);
        UnwindKeepsEdited(UndoRun(v, newest), older);
      }
    }
  }

  /** Where a run brings back a value that an earlier one had replaced, the original can come back all the same. */
  lemma ReturnedValueComesBack(a: Value, b: Value)
    requires a != b
    ensures var stack := [[Change(a, b, true)], [Change(b, a, false)]];
            && Unedited(a, History(stack)) && !DroppedAreIdle(History(stack)) && !NeverReturns(History(stack))
            && Unwind(a, stack) == a
  {
    var there, back := Change(a, b, true), Change(b, a, false);
    var stack := [[there], [back]];
    UndoOne(a, back);
    UndoOne(a, there);
    assert stack[..1] == [[there]] && [[there]][..0] == [];
    assert History(stack) == History([[there]]) + [back] && History([[there]]) == History([]) + [there];
    assert History(stack) == [there, back];
    assert !History(stack)[1].honoured && !Idle(History(stack)[1])
        && History(stack)[0].before == History(stack)[1].after;
    assert Unwind(a, [[there]]) == Unwind(UndoRun(a, [there]), []);
  }

  lemma UndoOne(v: Value, c: Change)
    ensures UndoRun(v, [c]) == Undone(v, c)
  {
    assert [c][..0] == [];
    assert UndoRun(v, []) == v;
  }

  lemma {:induction false} NothingToUndo(v: Value, run: seq<Change>)
    requires forall i :: 0 <= i < |run| ==> !run[i].honoured
    ensures UndoRun(v, run) == v
  {
    if run != [] { NothingToUndo(v, run[..|run| - 1]); }
  }

  lemma {:induction false} NothingToUnwind(v: Value, stack: seq<seq<Change>>)
    requires forall i, j :: 0 <= i < |stack| && 0 <= j < |stack[i]| ==> !stack[i][j].honoured
    ensures Unwind(v, stack) == v
    decreases |stack|
  {
    if stack != [] {
      NothingToUndo(v, stack[|stack| - 1]);
      NothingToUnwind(v, stack[..|stack| - 1]);
    }
  }

  /** Where only the newest run is looked at, and changed the field by one entity, it alone is undone. */
  lemma OnlyNewestUnwinds(v: Value, stack: seq<seq<Change>>, c: Change)
    requires stack != [] && stack[|stack| - 1] == [c] && c.honoured && Unedited(v, History(stack))
    requires forall i, j :: 0 <= i < |stack| - 1 && 0 <= j < |stack[i]| ==> !stack[i][j].honoured
    ensures Unwind(v, stack) == c.before
  {
    SplitUnedited(v, History(stack[..|stack| - 1]), [c]);
    UndoOne(v, c);
    NothingToUnwind(c.before, stack[..|stack| - 1]);
  }
}
