/**
 * The undo/redo history: two bounded stacks of states, each state holding
 * the command that undoes a change and the command that redoes it. A
 * command's effect on the scene is modelled as a function on a world value
 * of type W, passed in and returned by the operations that run commands.
 */
module UndoRedo {
  import opened Wrappers
  import opened LimitedStacks

  /** One history entry: what Undo runs and what Redo runs. */
  datatype UndoRedoState<!W> = UndoRedoState(undo: W -> W, redo: W -> W)

  /** The stack limit used when none is configured. */
  const DefaultStackLimit: int := 20

  /**
   * The generic AddUndoHistory overload's entry: both commands invoke the
   * same action, undo with the previous value and redo with the new one.
   */
  function ValueChange<W, T>(action: (W, T) -> W, previousValue: T, newValue: T): UndoRedoState<W> {
    UndoRedoState(w => action(w, previousValue), w => action(w, newValue))
  }

  /** Undoing a value change re-applies the previous value; redoing it applies the new value. */
  lemma ValueChangeRuns<W, T>(action: (W, T) -> W, previousValue: T, newValue: T, world: W)
    ensures ValueChange(action, previousValue, newValue).undo(world) == action(world, previousValue)
    ensures ValueChange(action, previousValue, newValue).redo(world) == action(world, newValue)
  {
  }

  /** The contents of both stacks (tops last). */
  datatype History<!W> = History(undo: seq<UndoRedoState<W>>, redo: seq<UndoRedoState<W>>)

  /** Both stacks within the limit. */
  predicate Bounded<W>(h: History<W>, limit: int) {
    |h.undo| <= Capacity(limit) && |h.redo| <= Capacity(limit)
  }

  /** After AddUndoHistory: the state is pushed onto the undo stack and the redo stack is emptied. */
  function Added<W>(h: History<W>, limit: int, state: UndoRedoState<W>): History<W> {
    History(Pushed(h.undo, limit, state), [])
  }

  /** After Undo: the undo top moves onto the redo stack. */
  function Undone<W>(h: History<W>, limit: int): History<W>
    requires |h.undo| > 0
  {
    History(h.undo[..|h.undo| - 1], Pushed(h.redo, limit, h.undo[|h.undo| - 1]))
  }

  /** After Redo: the redo top moves back onto the undo stack. */
  function Redone<W>(h: History<W>, limit: int): History<W>
    requires |h.redo| > 0
  {
    History(Pushed(h.undo, limit, h.redo[|h.redo| - 1]), h.redo[..|h.redo| - 1])
  }

  /** Every operation keeps both stacks within the limit. */
  lemma OperationsBounded<W>(h: History<W>, limit: int, state: UndoRedoState<W>)
    requires Bounded(h, limit)
    ensures Bounded(Added(h, limit, state), limit)
    ensures |h.undo| > 0 ==> Bounded(Undone(h, limit), limit)
    ensures |h.redo| > 0 ==> Bounded(Redone(h, limit), limit)
  {
    PushedBounded(h.undo, limit, state);
    if |h.undo| > 0 {
      PushedBounded(h.redo, limit, h.undo[|h.undo| - 1]);
    }
    if |h.redo| > 0 {
      PushedBounded(h.undo, limit, h.redo[|h.redo| - 1]);
    }
  }

  /**
   * Below the limit, Undo followed by Redo restores both stacks, and the
   * world goes through the entry's undo and then its redo command.
   */
  lemma UndoThenRedo<W>(h: History<W>, limit: int)
    requires |h.undo| > 0 && |h.redo| < limit && Bounded(h, limit)
    ensures |Undone(h, limit).redo| > 0
    ensures Redone(Undone(h, limit), limit) == h
  {
    var top := h.undo[|h.undo| - 1];
    PushThenPop(h.redo, limit, top);
    var u := Undone(h, limit);
    PushThenPop(u.undo, limit, top);
    assert u.undo + [top] == h.undo;
  }

  /** Mirror image: below the limit, Redo followed by Undo restores both stacks. */
  lemma RedoThenUndo<W>(h: History<W>, limit: int)
    requires |h.redo| > 0 && |h.undo| < limit && Bounded(h, limit)
    ensures |Redone(h, limit).undo| > 0
    ensures Undone(Redone(h, limit), limit) == h
  {
    var top := h.redo[|h.redo| - 1];
    PushThenPop(h.undo, limit, top);
    var r := Redone(h, limit);
    PushThenPop(r.redo, limit, top);
    assert r.redo + [top] == h.redo;
  }

  class UndoRedoSystem<W> {
    const stackLimit: int
    const undoStack: LimitedStack<UndoRedoState<W>>
    const redoStack: LimitedStack<UndoRedoState<W>>

    predicate Valid()
      reads this, undoStack, redoStack
    {
      undoStack != redoStack && undoStack.limit == stackLimit && redoStack.limit == stackLimit &&
      undoStack.Valid() && redoStack.Valid()
    }

    function Value(): History<W>
      reads this, undoStack, redoStack
    {
      History(undoStack.stack, redoStack.stack)
    }

    /** Awake: two empty stacks bounded by the configured limit. */
    constructor (stackLimit: int)
      ensures this.stackLimit == stackLimit && Valid() && Value() == History([], [])
      ensures fresh(undoStack) && fresh(redoStack)
    {
      this.stackLimit := stackLimit;
      undoStack := new LimitedStack(stackLimit);
      redoStack := new LimitedStack(stackLimit);
    }

    method AddUndoHistory(state: UndoRedoState<W>)
      requires Valid()
      modifies undoStack, redoStack
      ensures Valid() && Value() == Added(old(Value()), stackLimit, state)
    {
      undoStack.Push(state);
      redoStack.Clear();
    }

    /** The generic overload: records a change of a value from previousValue to newValue. */
    method AddValueHistory<T>(action: (W, T) -> W, previousValue: T, newValue: T)
      requires Valid()
      modifies undoStack, redoStack
      ensures Valid() && Value() == Added(old(Value()), stackLimit, ValueChange(action, previousValue, newValue))
    {
      AddUndoHistory(ValueChange(action, previousValue, newValue));
    }

    method ClearHistory()
      requires Valid()
      modifies undoStack, redoStack
      ensures Valid() && Value() == History([], [])
    {
      undoStack.Clear();
      redoStack.Clear();
    }

    /** CanUndo: some state is on the undo stack. */
    predicate CanUndo(): (r: bool)
      reads this, undoStack, redoStack
      ensures r <==> |Value().undo| > 0
    {
      undoStack.Count() > 0
    }

    /** CanRedo: some state is on the redo stack. */
    predicate CanRedo(): (r: bool)
      reads this, undoStack, redoStack
      ensures r <==> |Value().redo| > 0
    {
      redoStack.Count() > 0
    }

    /** Pops the undo top (the undo stack must not be empty), runs its undo command and pushes it onto the redo stack. */
    method Undo(world: W) returns (world': W)
      requires Valid() && CanUndo()
      modifies undoStack, redoStack
      ensures Valid() && Value() == Undone(old(Value()), stackLimit)
      ensures world' == old(undoStack.stack[|undoStack.stack| - 1]).undo(world)
    {
      var current := undoStack.Pop();
      world' := current.undo(world);
      redoStack.Push(current);
    }

    /** Pops the redo top (the redo stack must not be empty), runs its redo command and pushes it onto the undo stack. */
    method Redo(world: W) returns (world': W)
      requires Valid() && CanRedo()
      modifies undoStack, redoStack
      ensures Valid() && Value() == Redone(old(Value()), stackLimit)
      ensures world' == old(redoStack.stack[|redoStack.stack| - 1]).redo(world)
    {
      var current := redoStack.Pop();
      world' := current.redo(world);
      undoStack.Push(current);
    }

    /** The undo top, or None on an empty history; nothing changes. */
    method GetCurrentState() returns (r: Option<UndoRedoState<W>>)
      requires Valid()
      ensures r.None? <==> !CanUndo()
      ensures r.Some? ==> r.value == undoStack.stack[|undoStack.stack| - 1]
    {
      var ok, state := undoStack.SafePeek();
      r := if ok then state else None;
    }
  }
}
