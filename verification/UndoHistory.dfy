/** The undo and redo stacks (src/engine.cpp:1815-1850, 3150-3225, 4017-4025). */
module UndoHistories {
  import opened Wrappers
  import opened ListInserts
  import opened GroupPlanner
  import opened Documents
  import opened Changes
  import opened Replay
  import opened SmoothReplay
  import opened Engine
  import opened History
  import opened JointUpdates
  import Transactions
  import RadixSort

  /** `createsUndoStep`: several inserted table rows alone make no step. Computed columns
      are not modelled. */
  predicate CreatesUndoStep(changes: seq<Change>) {
    && changes != []
    && (|changes| > 1 ==> exists i :: 0 <= i < |changes| && !changes[i].ItemInserted?)
  }

  predicate Identified(changes: seq<Change>) {
    forall i :: 0 <= i < |changes| && (changes[i].ItemInserted? || Removes(changes[i])) ==> changes[i].id < RadixSort.IDS
  }

  /** The document after step `i`. */
  ghost function Next(docs: seq<Doc>, i: nat, at: Doc): Doc {
    if i + 1 < |docs| then docs[i + 1] else at
  }

  /** The steps lead through the documents up to `at`. */
  ghost predicate LeadUp(schema: Schema, past: seq<Doc>, steps: seq<seq<Change>>, at: Doc) {
    |past| == |steps| && forall i :: 0 <= i < |steps| ==> Identified(steps[i]) && Leads(schema, past[i], Next(past, i, at), steps[i])
  }

  /** The steps, last one first, lead on from `at`. */
  ghost predicate LeadOn(schema: Schema, future: seq<Doc>, steps: seq<seq<Change>>, at: Doc) {
    |future| == |steps| && forall i :: 0 <= i < |steps| ==> Identified(steps[i]) && Leads(schema, Next(future, i, at), future[i], steps[i])
  }

  lemma UpOneMore(schema: Schema, past: seq<Doc>, steps: seq<seq<Change>>, at: Doc, step: seq<Change>, next: Doc)
    requires LeadUp(schema, past, steps, at) && Identified(step) && Leads(schema, at, next, step)
    ensures LeadUp(schema, past + [at], steps + [step], next)
  {
    hide Leads, Identified;
    forall i | 0 <= i < |steps + [step]|
      ensures Identified((steps + [step])[i]) && Leads(schema, (past + [at])[i], Next(past + [at], i, next), (steps + [step])[i])
    {
      if i < |steps| {
        assert Next(past + [at], i, next) == Next(past, i, at);
      }
    }
  }

  lemma UpOneLess(schema: Schema, past: seq<Doc>, steps: seq<seq<Change>>, at: Doc)
    requires LeadUp(schema, past, steps, at) && steps != []
    ensures var last := |steps| - 1;
            && |past| == |steps| && Identified(steps[last]) && Leads(schema, past[last], at, steps[last])
            && LeadUp(schema, past[..last], steps[..last], past[last])
  {
    hide Leads, Identified;
    var last := |steps| - 1;
    assert Next(past, last, at) == at;
    forall i | 0 <= i < last
      ensures Leads(schema, past[..last][i], Next(past[..last], i, past[last]), steps[..last][i])
    {
      assert Next(past[..last], i, past[last]) == Next(past, i, at);
    }
  }

  lemma OnOneMore(schema: Schema, future: seq<Doc>, steps: seq<seq<Change>>, at: Doc, step: seq<Change>, before: Doc)
    requires LeadOn(schema, future, steps, at) && Identified(step) && Leads(schema, before, at, step)
    ensures LeadOn(schema, future + [at], steps + [step], before)
  {
    hide Leads, Identified;
    forall i | 0 <= i < |steps + [step]|
      ensures Identified((steps + [step])[i]) && Leads(schema, Next(future + [at], i, before), (future + [at])[i], (steps + [step])[i])
    {
      if i < |steps| {
        assert Next(future + [at], i, before) == Next(future, i, at);
      }
    }
  }

  lemma OnOneLess(schema: Schema, future: seq<Doc>, steps: seq<seq<Change>>, at: Doc)
    requires LeadOn(schema, future, steps, at) && steps != []
    ensures var last := |steps| - 1;
            && |future| == |steps| && Identified(steps[last]) && Leads(schema, at, future[last], steps[last])
            && LeadOn(schema, future[..last], steps[..last], future[last])
  {
    hide Leads, Identified;
    var last := |steps| - 1;
    assert Next(future, last, at) == at;
    forall i | 0 <= i < last
      ensures Leads(schema, Next(future[..last], i, future[last]), future[..last][i], steps[..last][i])
    {
      assert Next(future[..last], i, future[last]) == Next(future, i, at);
    }
  }

  /** Commits of several table rows make no step, so the step before them can be undone with
      the rows still there. If it inserted one row, that leaves a well-formed document
      exactly when no row has been put below it since. */
  lemma UndoneUnderRowsIff(schema: Schema, doc: Doc, id: ItemId, item: Item)
    requires WellFormed(schema, doc) && id in doc.items && doc.items[id] == item
    ensures var undone := Replayed(schema, doc, InverseAll([ItemInserted(id, item)]), []);
            undone.Some? && (WellFormed(schema, undone.value) <==> Childless(doc.items, id))
  {
    hide WellFormed, EraseItem, BatchOrdering;
    var changes := InverseAll([ItemInserted(id, item)]);
    assert changes == [ItemRemoved(id, item)];
    assert changes[1..] == [] && changes[..1] == changes;
    assert LeadingRemovals(changes) == 1 && LeadingInserts(changes) == 0;
    var next := EraseItem(schema, doc, id, item);
    assert Apply(schema, doc, changes[0]) == Some(next);
    assert ApplyChangeSet(schema, next, [], [], BatchOrdering(schema)) == Some(next);
    Transactions.RemoveAtKeepsWellFormedIff(schema, doc, id);
  }

  lemma InversesIdentified(step: seq<Change>)
    requires Identified(step)
    ensures forall i :: 0 <= i < |InverseAll(step)| && InverseAll(step)[i].ItemInserted? ==> InverseAll(step)[i].id < RadixSort.IDS
  {
  }

  class UndoHistory {
    const engine: DocumentEngine
    var undoStack: seq<seq<Change>>
    var redoStack: seq<seq<Change>>
    /** The documents before each step that can be undone, and after each that can be redone. */
    ghost var past: seq<Doc>
    ghost var future: seq<Doc>

    /** Every step on the stacks leads from one document to the next and back, and `at` is
        where they meet. */
    ghost predicate ValidAt(at: Doc)
      reads this
    {
      LeadUp(engine.schema, past, undoStack, at) && LeadOn(engine.schema, future, redoStack, at)
    }

    /** Every step names items by 64-bit ids. */
    predicate Named()
      reads this
    {
      (forall i :: 0 <= i < |undoStack| ==> Identified(undoStack[i])) && forall i :: 0 <= i < |redoStack| ==> Identified(redoStack[i])
    }

    constructor (engine: DocumentEngine)
      ensures Named() && this.engine == engine && undoStack == [] && redoStack == [] && past == [] && future == []
    {
      this.engine, undoStack, redoStack, past, future := engine, [], [], [], [];
    }

    /** What a commit leaves on the stacks. A change set that makes no step is forgotten
        and leaves the stacks as they are. */
    method Commit(changes: seq<Change>, ghost before: Doc) returns (created: bool)
      modifies this
      ensures created == CreatesUndoStep(changes)
      ensures |changes| == 1 || (exists i :: 0 <= i < |changes| && !changes[i].ItemInserted?) ==> created
      ensures changes == [] || (|changes| >= 2 && forall i :: 0 <= i < |changes| ==> changes[i].ItemInserted?) ==> !created
      ensures created ==> undoStack == old(undoStack) + [changes] && redoStack == [] && past == old(past) + [before]
      ensures !created ==> undoStack == old(undoStack) && redoStack == old(redoStack)
      ensures old(Named()) && Identified(changes) ==> Named()
      ensures created && old(ValidAt(before)) && Identified(changes) && Leads(engine.schema, before, engine.State(), changes)
              ==> ValidAt(engine.State())
    {
      hide Leads, LeadUp, Identified;
      created := CreatesUndoStep(changes);
      if created {
        if ValidAt(before) && Identified(changes) && Leads(engine.schema, before, engine.State(), changes) {
          UpOneMore(engine.schema, past, undoStack, before, changes, engine.State());
        }
        undoStack, past := undoStack + [changes], past + [before];
        redoStack, future := [], [];
      }
    }

    /** `undo`: back to the document before the last step, if the steps lead from one document
        to the next. If not, it goes back as far as the replay of the inverse does; an undo
        that fails on the way leaves the stacks as they were, but not the document: a step of
        updates stays taken back up to the one that is refused. */
    method Undo() returns (ok: bool)
      requires Named()
      modifies this, engine
      ensures Named() && (old(undoStack) == [] ==> !ok && engine.State() == old(engine.State()))
      ensures old(ValidAt(engine.State())) ==>
                && (ok <==> old(undoStack) != []) && ValidAt(engine.State())
                && (ok ==> engine.State() == old(past[|past| - 1]) && past == old(past[..|past| - 1]) && future == old(future) + [old(engine.State())])
      ensures ok ==> undoStack == old(undoStack[..|undoStack| - 1]) && redoStack == old(redoStack) + [old(undoStack[|undoStack| - 1])]
      ensures !ok ==> undoStack == old(undoStack) && redoStack == old(redoStack) && past == old(past) && future == old(future)
      ensures old(undoStack) != [] && AllUpdates(old(undoStack[|undoStack| - 1])) ==>
                var inverse := InverseAll(old(undoStack[|undoStack| - 1]));
                && (ok <==> ApplyAll(engine.schema, old(engine.State()), inverse).Some?)
                && engine.State() == Stopped(engine.schema, old(engine.State()), inverse)
    {
      hide Smooth, Replayed, LeadUp, LeadOn, Identified, AllUpdates, Stopped, ApplyAll, InverseAll;
      if undoStack == [] {
        return false;
      }
      ghost var at, valid := engine.State(), ValidAt(engine.State());
      var last := |undoStack| - 1;
      var step := undoStack[last];
      if valid {
        UpOneLess(engine.schema, past, undoStack, at);
        OnOneMore(engine.schema, future, redoStack, at, step, past[last]);
      }
      var inverse := Invert(step);
      InversesIdentified(step);
      if AllUpdates(step) {
        InversesUpdate(step);
        UpdatesReplay(engine.schema, at, inverse);
      }
      ok := engine.ApplyChangeSet(inverse);
      if ok {
        undoStack, redoStack := undoStack[..last], redoStack + [step];
        if valid {
          past, future := past[..last], future + [at];
        }
      }
    }

    /** `redo`: forward to the document after the step undone last, likewise. */
    method Redo() returns (ok: bool)
      requires Named()
      modifies this, engine
      ensures Named() && (old(redoStack) == [] ==> !ok && engine.State() == old(engine.State()))
      ensures old(ValidAt(engine.State())) ==>
                && (ok <==> old(redoStack) != []) && ValidAt(engine.State())
                && (ok ==> engine.State() == old(future[|future| - 1]) && future == old(future[..|future| - 1]) && past == old(past) + [old(engine.State())])
      ensures ok ==> redoStack == old(redoStack[..|redoStack| - 1]) && undoStack == old(undoStack) + [old(redoStack[|redoStack| - 1])]
      ensures !ok ==> undoStack == old(undoStack) && redoStack == old(redoStack) && past == old(past) && future == old(future)
      ensures old(redoStack) != [] && AllUpdates(old(redoStack[|redoStack| - 1])) ==>
                var step := old(redoStack[|redoStack| - 1]);
                && (ok <==> ApplyAll(engine.schema, old(engine.State()), step).Some?)
                && engine.State() == Stopped(engine.schema, old(engine.State()), step)
    {
      hide Smooth, Replayed, LeadUp, LeadOn, AllUpdates, Stopped, ApplyAll;
      if redoStack == [] {
        return false;
      }
      ghost var at, valid := engine.State(), ValidAt(engine.State());
      var last := |redoStack| - 1;
      var step := redoStack[last];
      if valid {
        OnOneLess(engine.schema, future, redoStack, at);
        UpOneMore(engine.schema, past, undoStack, at, step, future[last]);
      }
      if AllUpdates(step) {
        UpdatesReplay(engine.schema, at, step);
      }
      ok := engine.ApplyChangeSet(step);
      if ok {
        redoStack, undoStack := redoStack[..last], undoStack + [step];
        if valid {
          future, past := future[..last], past + [at];
        }
      }
    }
  }

  /** A request that has been performed by itself is a step of its own, and undoing it goes
      back to the document before it. */
  method CommitThenUndo(history: UndoHistory, ghost before: Doc, ghost request: Request, changes: seq<Change>) returns (created: bool, undone: bool)
    requires WellFormed(history.engine.schema, before) && history.ValidAt(before) && history.Named() && Identified(changes)
    requires Perform(history.engine.schema, before, request) == Some(history.engine.State())
    requires changes == [Recorded(history.engine.schema, before, request)]
    modifies history, history.engine
    ensures created && undone && history.engine.State() == before
    ensures history.undoStack == old(history.undoStack) && history.redoStack == [changes] && history.ValidAt(before)
  {
    hide Perform, Recorded, WellFormed, Walks, Leads, Identified, LeadUp, LeadOn;
    ghost var schema, after := history.engine.schema, history.engine.State();
    NoSteps(schema, before);
    WalkOn(schema, before, before, [], request);
    assert [] + changes == changes;
    WalksLead(schema, before, after, changes);
    created := history.Commit(changes, before);
    undone := history.Undo();
  }
}
