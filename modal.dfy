/**
 * The modal stack controller: a last-in first-out stack of views, and the
 * dialog that always displays the top of the stack, or is hidden when the
 * stack is empty.
 */
module ModalStack {
  import opened Wrappers

  /** The stack after a pop; popping an empty stack leaves it empty. */
  function Pop<V>(stack: seq<V>): (r: seq<V>)
    ensures stack == [] ==> r == []
    ensures stack != [] ==> r + [stack[|stack| - 1]] == stack
  {
    if stack == [] then [] else stack[..|stack| - 1]
  }

  /** The top view, if any. */
  function Top<V>(stack: seq<V>): Option<V> {
    if stack == [] then None else Some(stack[|stack| - 1])
  }

  /** Showing a view and hiding it again restores the stack below it. */
  lemma ShowThenHide<V>(stack: seq<V>, v: V)
    ensures Pop(stack + [v]) == stack
    ensures Top(stack + [v]) == Some(v)
  {
    assert (stack + [v])[..|stack|] == stack;
  }

  class Modal<V> {
    var stack: seq<V>
    /** Whether the dialog is on screen. */
    var visible: bool
    /** The view attached to the dialog's content area; it stays attached when the dialog is hidden. */
    var content: Option<V>

    /** The dialog shows the top of the stack, and is hidden exactly when the stack is empty. */
    ghost predicate Valid()
      reads this
    {
      visible == (stack != []) && (stack != [] ==> content == Top(stack))
    }

    /** What the user sees: the attached view while visible, nothing otherwise. */
    function Displayed(): Option<V>
      reads this
    {
      if visible then content else None
    }

    constructor ()
      ensures Valid() && stack == [] && Displayed() == None
    {
      stack := [];
      visible := false;
      content := None;
    }

    /** Redraws the dialog from the stack: hides it when empty, else attaches the top view. */
    method Render()
      modifies this`visible, this`content
      ensures Valid() && Displayed() == Top(stack)
      ensures stack == [] ==> content == old(content)
    {
      if stack == [] {
        visible := false;
      } else {
        content := Some(stack[|stack| - 1]);
        visible := true;
      }
    }

    method IsShowing() returns (showing: bool)
      requires Valid()
      ensures showing <==> stack != []
      ensures showing <==> Displayed().Some?
    {
      showing := |stack| > 0;
    }

    /** Pushes a view and displays it. */
    method Show(v: V)
      requires Valid()
      modifies this
      ensures Valid() && stack == old(stack) + [v] && Displayed() == Some(v)
    {
      stack := stack + [v];
      Render();
    }

    /** Pops the top view and displays the one below it, or nothing. */
    method Hide()
      requires Valid()
      modifies this
      ensures Valid() && stack == Pop(old(stack)) && Displayed() == Top(stack)
    {
      stack := Pop(stack);
      Render();
    }
  }
}
