/**
 The undo stack. A command is any pair of document changes of which the second takes back the first
 on the document it was applied to.
 */
module CommandStack {

  datatype Command<!S> = Command(redo: S -> S, undo: S -> S)

  ghost predicate TakesBack<S(!new)>(cmd: Command<S>, doc: S) { cmd.undo(cmd.redo(doc)) == doc }

  /** The document after applying the commands in order. */
  function Replay<S>(base: S, cmds: seq<Command<S>>): S {
    if cmds == [] then base else cmds[|cmds| - 1].redo(Replay(base, cmds[..|cmds| - 1]))
  }

  // ---- one state and its steps -----------------------------------------------------------------------------------------------

  /** `base` is the document when the stack was last empty. */
  datatype History<!S> = History(base: S, stack: seq<Command<S>>, index: nat, doc: S)

  datatype Op<!S> = Push(cmd: Command<S>) | Undo | Redo | Clear

  /** Commands that can each be taken back where they stand. */
  ghost predicate Reversible<S(!new)>(base: S, cmds: seq<Command<S>>) {
    forall i :: 0 <= i < |cmds| ==> TakesBack(cmds[i], Replay(base, cmds[..i]))
  }

  /** The document is the replay of the first `index` commands, each of which can be taken back where it stands. */
  ghost predicate Consistent<S(!new)>(h: History<S>) {
    && h.index <= |h.stack|
    && h.doc == Replay(h.base, h.stack[..h.index])
    && Reversible(h.base, h.stack)
  }

  function Step<S>(h: History<S>, op: Op<S>): History<S> {
    match op
    case Push(cmd) =>
      var kept := if h.index < |h.stack| then h.stack[..h.index] else h.stack;
      h.(stack := kept + [cmd], index := |kept| + 1, doc := cmd.redo(h.doc))
    case Undo =>
      if 0 < h.index <= |h.stack| then h.(index := h.index - 1, doc := h.stack[h.index - 1].undo(h.doc)) else h
    case Redo =>
      if h.index < |h.stack| then h.(index := h.index + 1, doc := h.stack[h.index].redo(h.doc)) else h
    case Clear =>
      History(h.doc, [], 0, h.doc)
  }

  lemma ReplaySnoc<S>(base: S, cmds: seq<Command<S>>, i: nat)
    requires i < |cmds|
    ensures Replay(base, cmds[..i + 1]) == cmds[i].redo(Replay(base, cmds[..i]))
  {
    assert cmds[..i + 1][..i] == cmds[..i];
  }

  lemma PushKeeps<S(!new)>(base: S, stack: seq<Command<S>>, kept: seq<Command<S>>, cmd: Command<S>)
    requires Reversible(base, stack) && kept <= stack && TakesBack(cmd, Replay(base, kept))
    ensures Reversible(base, kept + [cmd]) && Replay(base, kept + [cmd]) == cmd.redo(Replay(base, kept))
  {
    hide TakesBack;
    var longer := kept + [cmd];
    assert longer[..|kept|] == kept;
    forall i | 0 <= i < |longer| ensures TakesBack(longer[i], Replay(base, longer[..i])) {
      if i < |kept| { assert longer[..i] == stack[..i] && longer[i] == stack[i]; }
    }
  }

  lemma StepKeepsConsistent<S(!new)>(h: History<S>, op: Op<S>)
    requires Consistent(h) && (op.Push? ==> TakesBack(op.cmd, h.doc))
    ensures Consistent(Step(h, op))
  {
    hide Replay;
    match op
    case Push(cmd) =>
      var kept := h.stack[..h.index];
      PushKeeps(h.base, h.stack, kept, cmd);
      assert (kept + [cmd])[..h.index + 1] == kept + [cmd];
      assert h.index == |h.stack| ==> kept == h.stack;
    case Undo =>
      if h.index > 0 {
        ReplaySnoc(h.base, h.stack, h.index - 1);
        assert TakesBack(h.stack[h.index - 1], Replay(h.base, h.stack[..h.index - 1]));
      }
    case Redo =>
      if h.index < |h.stack| { ReplaySnoc(h.base, h.stack, h.index); }
    case Clear =>
      ReplayNothing(h.doc);
  }

  /** What each operation does to the document and to the commands that can be undone and redone. */
  lemma StepEffects<S(!new)>(h: History<S>, cmd: Command<S>)
    requires Consistent(h)
    ensures var p := Step(h, Push(cmd));
            p.doc == cmd.redo(h.doc) && p.stack == h.stack[..h.index] + [cmd] && p.index == h.index + 1
    ensures var u := Step(h, Undo);
            u.stack == h.stack && if h.index == 0 then u == h else u.index == h.index - 1 && u.doc == h.stack[h.index - 1].undo(h.doc)
    ensures var r := Step(h, Redo);
            r.stack == h.stack && if h.index == |h.stack| then r == h else r.index == h.index + 1 && r.doc == h.stack[h.index].redo(h.doc)
    ensures Step(h, Clear).doc == h.doc && Step(h, Clear).stack == []
  {
    hide Replay, Reversible;
    assert h.index == |h.stack| ==> h.stack[..h.index] == h.stack;
  }

  lemma ReplayNothing<S>(base: S)
    ensures Replay(base, []) == base
  {
  }

  lemma IndexBounded<S(!new)>(h: History<S>)
    requires Consistent(h)
    ensures h.index <= |h.stack|
  {
  }

  // ---- whole runs ------------------------------------------------------------------------------------------------------------------

  /** Every command of a run can be taken back from the document it is pushed on. */
  ghost predicate FairRun<S(!new)>(h: History<S>, ops: seq<Op<S>>)
    decreases |ops|
  {
    ops == [] || ((ops[0].Push? ==> TakesBack(ops[0].cmd, h.doc)) && FairRun(Step(h, ops[0]), ops[1..]))
  }

  function Run<S>(h: History<S>, ops: seq<Op<S>>): History<S>
    decreases |ops|
  {
    if ops == [] then h else Run(Step(h, ops[0]), ops[1..])
  }

  /** Over any run of pushes, undos, redos and clears the document is the replay of the first `index` commands. */
  lemma {:induction false} RunIsReplay<S(!new)>(h: History<S>, ops: seq<Op<S>>)
    requires Consistent(h) && FairRun(h, ops)
    ensures Consistent(Run(h, ops))
    decreases |ops|
  {
    if ops != [] {
      StepKeepsConsistent(h, ops[0]);
      RunIsReplay(Step(h, ops[0]), ops[1..]);
    }
  }

  function Times<S>(h: History<S>, op: Op<S>, n: nat): History<S> {
    if n == 0 then h else Step(Times(h, op, n - 1), op)
  }

  /** The history with another number of commands in force. */
  function At<S>(h: History<S>, index: nat): History<S>
    requires index <= |h.stack|
  {
    h.(index := index, doc := Replay(h.base, h.stack[..index]))
  }

  lemma StepsMoveIndex<S(!new)>(h: History<S>, i: nat)
    requires Consistent(h) && i < |h.stack|
    ensures Step(At(h, i), Redo) == At(h, i + 1) && Step(At(h, i + 1), Undo) == At(h, i)
  {
    ReplaySnoc(h.base, h.stack, i);
    assert TakesBack(h.stack[i], Replay(h.base, h.stack[..i]));
  }

  /** After `n` undos the document is the one before the last `n` commands that were in force. */
  lemma {:induction false} UndosGoBack<S(!new)>(h: History<S>, n: nat)
    requires Consistent(h) && n <= h.index
    ensures Times(h, Undo, n) == At(h, h.index - n)
  {
    hide Replay, Step;
    if n > 0 {
      UndosGoBack(h, n - 1);
      StepsMoveIndex(h, h.index - n);
    }
  }

  lemma {:induction false} RedosGoForward<S(!new)>(h: History<S>, i: nat, m: nat)
    requires Consistent(h) && i + m <= |h.stack|
    ensures Times(At(h, i), Redo, m) == At(h, i + m)
  {
    hide Replay, Step;
    if m > 0 {
      RedosGoForward(h, i, m - 1);
      StepsMoveIndex(h, i + m - 1);
    }
  }

  lemma UndosThenRedos<S(!new)>(h: History<S>, n: nat)
    requires Consistent(h) && n <= h.index
    ensures Times(Times(h, Undo, n), Redo, n) == h
    ensures Times(h, Undo, h.index).doc == h.base
  {
    hide Step, Times, Replay;
    UndosGoBack(h, n);
    RedosGoForward(h, h.index - n, n);
    UndosGoBack(h, h.index);
    ReplayNothing(h.base);
    assert h.stack[..0] == [];
  }

  /**
   After any run, undoing `n` commands and redoing them restores document, stack and position, and
   undoing all of them gives back the document as it was when the stack was last empty.
   */
  lemma RunUndone<S(!new)>(h: History<S>, ops: seq<Op<S>>, n: nat)
    requires Consistent(h) && FairRun(h, ops) && n <= Run(h, ops).index
    ensures Times(Times(Run(h, ops), Undo, n), Redo, n) == Run(h, ops)
    ensures Times(Run(h, ops), Undo, Run(h, ops).index).doc == Run(h, ops).base
  {
    hide Step, Times, Consistent, FairRun, Run;
    RunIsReplay(h, ops);
    UndosThenRedos(Run(h, ops), n);
  }

  // ---- the stack as an object -------------------------------------------------------------------------------------------------

  class Stack<S(!new)> {
    var stack: seq<Command<S>>
    var index: nat
    var executing: bool
    var doc: S
    ghost var base: S

    ghost function State(): History<S>
      reads this
    {
      History(base, stack, index, doc)
    }

    ghost predicate Valid()
      reads this
    {
      Consistent(State()) && !executing
    }

    constructor (doc: S)
      ensures Valid() && State() == History(doc, [], 0, doc)
    {
      stack, index, executing, this.doc, base := [], 0, false, doc, doc;
    }

    method Clear()
      requires Valid()
      modifies this
      ensures Valid() && State() == Step(old(State()), Op.Clear)
    {
      hide Consistent;
      IndexBounded(State());
      StepKeepsConsistent(State(), Op.Clear);
      stack, index := [], 0;
      base := doc;
    }

    method TruncateRedo()
      requires index <= |stack|
      modifies `stack
      ensures stack == old(stack)[..index]
    {
      if index >= |stack| {
        assert stack[..index] == stack;
        return;
      }
      stack := stack[..index];
    }

    /** The command has been carried out already, on the document `before`. */
    method PushApplied(cmd: Command<S>, ghost before: S)
      requires Consistent(State().(doc := before)) && !executing
      requires doc == cmd.redo(before) && TakesBack(cmd, before)
      modifies this
      ensures Valid() && State() == Step(old(State()).(doc := before), Push(cmd))
    {
      hide Consistent;
      IndexBounded(State().(doc := before));
      StepKeepsConsistent(State().(doc := before), Push(cmd));
      assert index == |stack| ==> stack[..index] == stack;
      TruncateRedo();
      stack := stack + [cmd];
      index := |stack|;
    }

    method PushAndRedo(cmd: Command<S>)
      requires Valid() && TakesBack(cmd, doc)
      modifies this
      ensures Valid() && State() == Step(old(State()), Push(cmd))
    {
      hide Consistent;
      IndexBounded(State());
      StepKeepsConsistent(State(), Push(cmd));
      assert index == |stack| ==> stack[..index] == stack;
      TruncateRedo();
      executing := true;
      doc := cmd.redo(doc);
      executing := false;
      stack := stack + [cmd];
      index := |stack|;
    }

    function CanUndo(): bool
      reads this
    {
      0 < index <= |stack|
    }

    function CanRedo(): bool
      reads this
    {
      index < |stack|
    }

    method Undo()
      requires Valid()
      modifies this
      ensures Valid() && State() == Step(old(State()), Op.Undo)
    {
      hide Consistent;
      IndexBounded(State());
      StepKeepsConsistent(State(), Op.Undo);
      if !CanUndo() { return; }
      executing := true;
      index := index - 1;
      doc := stack[index].undo(doc);
      executing := false;
    }

    method Redo()
      requires Valid()
      modifies this
      ensures Valid() && State() == Step(old(State()), Op.Redo)
    {
      hide Consistent;
      IndexBounded(State());
      StepKeepsConsistent(State(), Op.Redo);
      if !CanRedo() { return; }
      executing := true;
      doc := stack[index].redo(doc);
      index := index + 1;
      executing := false;
    }
  }
}
