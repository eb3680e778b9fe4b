/**
 * The desktop app's undo/redo history: a stack of done actions, a stack
 * of undone ones, and a flag that refuses a second operation while one
 * is running.  Each action's callbacks are external; whether the awaited
 * callback resolves is a parameter, and the calls made are logged.
 */
module UndoRedo {
  import opened Wrappers

  /** An undoable action; `hasRedo` says whether it brings its own `redo`. */
  datatype Action = Action(id: string, kind: string, description: string, hasRedo: bool)

  /** A callback invoked on an action. */
  datatype Call = DoCall(id: string) | UndoCall(id: string) | RedoCall(id: string)

  /** The two stacks: `past` with the latest action last, `future` with the next one to redo first. */
  datatype Stacks = Stacks(past: seq<Action>, future: seq<Action>)

  /** After a successful undo: the latest done action moves to the front of `future`. */
  function Undone(st: Stacks): (r: Stacks)
    requires st.past != []
    ensures |r.past| == |st.past| - 1 && |r.future| == |st.future| + 1
    ensures r.past + [r.future[0]] == st.past && r.future[1..] == st.future
  {
    Stacks(st.past[..|st.past| - 1], [st.past[|st.past| - 1]] + st.future)
  }

  /** After a successful redo: the first undone action moves to the end of `past`. */
  function Redone(st: Stacks): (r: Stacks)
    requires st.future != []
    ensures |r.past| == |st.past| + 1 && |r.future| == |st.future| - 1
    ensures r.past == st.past + [st.future[0]] && [st.future[0]] + r.future == st.future
  {
    Stacks(st.past + [st.future[0]], st.future[1..])
  }

  /** Redoing what was just undone restores both stacks. */
  lemma RedoAfterUndo(st: Stacks)
    requires st.past != []
    ensures Undone(st).future != [] && Redone(Undone(st)) == st
  {
    var u := Undone(st);
    assert u.past + [u.future[0]] == st.past;
    assert u.future[1..] == st.future;
  }

  /** Undoing what was just redone restores both stacks. */
  lemma UndoAfterRedo(st: Stacks)
    requires st.future != []
    ensures Redone(st).past != [] && Undone(Redone(st)) == st
  {
    var r := Redone(st);
    assert [st.future[0]] + st.future[1..] == st.future;
  }

  /** Actions are never lost: undo and redo only move one between the stacks. */
  lemma MovesKeepActions(st: Stacks)
    ensures st.past != [] ==> Undone(st).past + Undone(st).future == st.past + st.future
    ensures st.future != [] ==> Redone(st).past + Redone(st).future == st.past + st.future
  {
    if st.past != [] {
      var n := |st.past|;
      var init, last := st.past[..n - 1], st.past[n - 1];
      assert init + [last] == st.past;
      assert init + ([last] + st.future) == (init + [last]) + st.future;
    }
    if st.future != [] {
      var first, rest := st.future[0], st.future[1..];
      assert [first] + rest == st.future;
      assert (st.past + [first]) + rest == st.past + ([first] + rest);
    }
  }

  /** The history of `useUndoRedo`. */
  class History {
    var past: seq<Action>
    var future: seq<Action>
    var executing: bool
    /** The callbacks invoked so far, oldest first. */
    var calls: seq<Call>

    function State(): Stacks
      reads this
    {
      Stacks(past, future)
    }

    constructor()
      ensures past == [] && future == [] && !executing && calls == []
    {
      past, future, executing, calls := [], [], false, [];
    }

    /** `canUndo` */
    function CanUndo(): (b: bool)
      reads this
      ensures b <==> |past| > 0
    {
      |past| > 0
    }

    /** `canRedo` */
    function CanRedo(): (b: bool)
      reads this
      ensures b <==> |future| > 0
    {
      |future| > 0
    }

    /**
     * `execute`: refused (raising, nothing touched) while another
     * operation runs; otherwise `do` is called, and only when it resolves
     * is the action pushed and the redo stack emptied.  The flag is clear
     * again afterwards.
     */
    method Execute(action: Action, resolves: bool) returns (r: Outcome<()>)
      modifies this
      ensures old(executing) ==> r.Raised? && past == old(past) && future == old(future) && executing && calls == old(calls)
      ensures !old(executing) ==> !executing && calls == old(calls) + [DoCall(action.id)]
      ensures !old(executing) && resolves ==> r.Done? && past == old(past) + [action] && future == []
      ensures !old(executing) && !resolves ==> r.Raised? && past == old(past) && future == old(future)
    {
      if executing {
        return Raised;
      }
      executing := true;
      calls := calls + [DoCall(action.id)];
      if resolves {
        past := past + [action];
        future := [];
        r := Done(());
      } else {
        r := Raised;
      }
      executing := false;
    }

    /**
     * `undo`: nothing when there is nothing to undo or an operation runs;
     * otherwise the latest action's `undo` is called and, when it
     * resolves, the action moves to the redo stack.
     */
    method Undo(resolves: bool) returns (r: Outcome<()>)
      modifies this
      ensures old(past) == [] || old(executing) ==> r.Done? && State() == old(State()) && executing == old(executing) && calls == old(calls)
      ensures old(past) != [] && !old(executing) ==>
        !executing && calls == old(calls) + [UndoCall(old(past)[|old(past)| - 1].id)]
        && (resolves ==> r.Done? && State() == Undone(old(State())))
        && (!resolves ==> r.Raised? && State() == old(State()))
    {
      if past == [] || executing {
        return Done(());
      }
      executing := true;
      var action := past[|past| - 1];
      calls := calls + [UndoCall(action.id)];
      if resolves {
        past := past[..|past| - 1];
        future := [action] + future;
        r := Done(());
      } else {
        r := Raised;
      }
      executing := false;
    }

    /**
     * `redo`: nothing when there is nothing to redo or an operation runs;
     * otherwise the first undone action's `redo` (or, lacking one, its
     * `do`) is called and, when it resolves, the action moves back to the
     * done stack.
     */
    method Redo(resolves: bool) returns (r: Outcome<()>)
      modifies this
      ensures old(future) == [] || old(executing) ==> r.Done? && State() == old(State()) && executing == old(executing) && calls == old(calls)
      ensures old(future) != [] && !old(executing) ==>
        !executing
        && calls == old(calls) + [if old(future)[0].hasRedo then RedoCall(old(future)[0].id) else DoCall(old(future)[0].id)]
        && (resolves ==> r.Done? && State() == Redone(old(State())))
        && (!resolves ==> r.Raised? && State() == old(State()))
    {
      if future == [] || executing {
        return Done(());
      }
      executing := true;
      var action := future[0];
      if action.hasRedo {
        calls := calls + [RedoCall(action.id)];
      } else {
        calls := calls + [DoCall(action.id)];
      }
      if resolves {
        past := past + [action];
        future := future[1..];
        r := Done(());
      } else {
        r := Raised;
      }
      executing := false;
    }

    /** `clear` */
    method Clear()
      modifies this
      ensures past == [] && future == [] && executing == old(executing) && calls == old(calls)
    {
      past, future := [], [];
    }
  }
}
