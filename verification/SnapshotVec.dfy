/** The snapshot vector and its undo log (src/ena/snapshot_vec.rs, src/ena/undo_log.rs). */
module SnapshotVec {
  import opened Options

  /** How to take back one change. */
  datatype UndoLog<V, U> =
    | NewElem(index: nat)
    | SetElem(index: nat, value: V)
    | Other(action: U)

  /** The delegate that takes back the changes the vector does not know. */
  type Delegate<!V, !U> = (seq<V>, U) -> seq<V>

  /** Takes one change back; `None` is a failed assertion or an index out of range. */
  function Reverse<V, U>(delegate: Delegate<V, U>, values: seq<V>, undo: UndoLog<V, U>): Option<seq<V>> {
    match undo
    case NewElem(i) =>
      var popped := if values == [] then [] else values[..|values| - 1];
      if |popped| == i then Some(popped) else None
    case SetElem(i, v) => if i < |values| then Some(values[i := v]) else None
    case Other(u) => Some(delegate(values, u))
  }

  /** Takes back the changes of the log down to length `n`, the latest first. */
  function Undo<V, U>(delegate: Delegate<V, U>, values: seq<V>, log: seq<UndoLog<V, U>>, n: nat): Option<seq<V>>
    decreases |log|
  {
    if |log| <= n then Some(values)
    else
      var last := |log| - 1;
      match Reverse(delegate, values, log[last])
      case None => None
      case Some(before) => Undo(delegate, before, log[..last], n)
  }

  /** A change and its undo entry cancel out. */
  lemma {:induction false} UndoPush<V, U>(delegate: Delegate<V, U>, before: seq<V>, after: seq<V>,
                                          log: seq<UndoLog<V, U>>, undo: UndoLog<V, U>, n: nat)
    requires Reverse(delegate, after, undo) == Some(before) && n <= |log|
    ensures Undo(delegate, after, log + [undo], n) == Undo(delegate, before, log, n)
  {
    assert (log + [undo])[..|log|] == log;
  }

  /** Taking back to `m` and then to `n` is taking back to `n`. */
  lemma {:induction false} UndoInTwo<V, U>(delegate: Delegate<V, U>, values: seq<V>, log: seq<UndoLog<V, U>>, m: nat,
                                           n: nat)
    requires n <= m <= |log| && Undo(delegate, values, log, m).Some?
    ensures Undo(delegate, values, log, n) == Undo(delegate, Undo(delegate, values, log, m).value, log[..m], n)
    decreases |log|
  {
    if |log| == m {
      assert log[..m] == log;
    } else {
      var last := |log| - 1;
      var before := Reverse(delegate, values, log[last]).value;
      UndoInTwo(delegate, before, log[..last], m, n);
      assert log[..last][..m] == log[..m];
    }
  }

  /** The token of a snapshot. */
  datatype Snapshot = Snapshot(valueCount: nat, undoLen: nat)

  /** What an open snapshot must be able to restore. */
  datatype Saved<V> = Saved(token: Snapshot, values: seq<V>)

  /** Every open snapshot can be restored: taking back the log down to its length never
      fails and gives its values. The log is empty when nothing is open. */
  ghost predicate Restorable<V, U>(delegate: Delegate<V, U>, values: seq<V>, log: seq<UndoLog<V, U>>,
                                   open: seq<Saved<V>>) {
    && (open == [] ==> log == [])
    && (open != [] ==> open[0].token.undoLen == 0)
    && (forall i, j :: 0 <= i < j < |open| ==> open[i].token.undoLen <= open[j].token.undoLen)
    && (forall i :: 0 <= i < |open| ==>
          && open[i].token.undoLen <= |log|
          && Undo(delegate, values, log, open[i].token.undoLen) == Some(open[i].values))
  }

  /** A logged change keeps every open snapshot restorable. */
  lemma ChangeKeeps<V, U>(delegate: Delegate<V, U>, before: seq<V>, after: seq<V>, log: seq<UndoLog<V, U>>,
                          undo: UndoLog<V, U>, open: seq<Saved<V>>)
    requires Restorable(delegate, before, log, open) && open != []
    requires Reverse(delegate, after, undo) == Some(before)
    ensures Restorable(delegate, after, log + [undo], open)
  {
    forall i | 0 <= i < |open|
      ensures Undo(delegate, after, log + [undo], open[i].token.undoLen) == Some(open[i].values)
    {
      UndoPush(delegate, before, after, log, undo, open[i].token.undoLen);
    }
  }

  /** Rolling the innermost snapshot back keeps the outer ones restorable. */
  lemma RollbackKeeps<V, U>(delegate: Delegate<V, U>, values: seq<V>, log: seq<UndoLog<V, U>>, open: seq<Saved<V>>)
    requires Restorable(delegate, values, log, open) && open != []
    ensures var top := open[|open| - 1];
            Restorable(delegate, top.values, log[..top.token.undoLen], open[..|open| - 1])
  {
    var outer, top := open[..|open| - 1], open[|open| - 1];
    forall i | 0 <= i < |outer|
      ensures outer[i].token.undoLen <= top.token.undoLen
      ensures Undo(delegate, top.values, log[..top.token.undoLen], outer[i].token.undoLen) == Some(outer[i].values)
    {
      assert outer[i] == open[i];
      UndoInTwo(delegate, values, log, top.token.undoLen, open[i].token.undoLen);
    }
  }

  /** The undo log: the entries and the number of open snapshots. */
  class VecLog<V, U> {
    var log: seq<UndoLog<V, U>>
    var numOpenSnapshots: nat

    constructor ()
      ensures log == [] && numOpenSnapshots == 0
    {
      log, numOpenSnapshots := [], 0;
    }

    predicate InSnapshot()
      reads this
    {
      numOpenSnapshots > 0
    }

    method Push(undo: UndoLog<V, U>)
      modifies this`log
      ensures log == old(log) + [undo]
    {
      log := log + [undo];
    }

    method StartSnapshot() returns (undoLen: nat)
      modifies this`numOpenSnapshots
      ensures undoLen == |log| && numOpenSnapshots == old(numOpenSnapshots) + 1
    {
      numOpenSnapshots := numOpenSnapshots + 1;
      undoLen := |log|;
    }

    /** Pops the entries above the snapshot and takes them back. The requirements are
        the assertions on open snapshots and those inside `reverse`. */
    method RollbackTo(delegate: Delegate<V, U>, values: seq<V>, undoLen: nat) returns (r: seq<V>)
      requires |log| >= undoLen && numOpenSnapshots > 0
      requires Undo(delegate, values, log, undoLen).Some?
      modifies this
      ensures Undo(delegate, values, old(log), undoLen) == Some(r)
      ensures log == old(log)[..undoLen] && numOpenSnapshots == old(numOpenSnapshots) - 1
    {
      r := values;
      while |log| > undoLen
        invariant undoLen <= |log| <= |old(log)| && log == old(log)[..|log|]
        invariant numOpenSnapshots == old(numOpenSnapshots)
        invariant Undo(delegate, r, log, undoLen) == Undo(delegate, values, old(log), undoLen)
        decreases |log|
      {
        var undo := log[|log| - 1];
        r := Reverse(delegate, r, undo).value;
        log := log[..|log| - 1];
      }
      numOpenSnapshots := numOpenSnapshots - 1;
    }

    /** The root commit clears the log; the requirements are the assertions. */
    method Commit(undoLen: nat)
      requires |log| >= undoLen && numOpenSnapshots > 0
      requires numOpenSnapshots == 1 ==> undoLen == 0
      modifies this
      ensures log == (if old(numOpenSnapshots) == 1 then [] else old(log))
      ensures numOpenSnapshots == old(numOpenSnapshots) - 1
    {
      if numOpenSnapshots == 1 {
        log := [];
      }
      numOpenSnapshots := numOpenSnapshots - 1;
    }
  }

  /** The vector. `open` is the stack of open snapshots with the values they saw. */
  class Vector<V, U> {
    const delegate: Delegate<V, U>
    const undoLog: VecLog<V, U>
    var values: seq<V>
    ghost var open: seq<Saved<V>>

    ghost predicate Valid()
      reads this, undoLog
    {
      undoLog.numOpenSnapshots == |open| && Restorable(delegate, values, undoLog.log, open)
    }

    constructor (delegate: Delegate<V, U>)
      ensures Valid() && values == [] && open == [] && fresh(undoLog) && this.delegate == delegate
    {
      this.delegate := delegate;
      values, open := [], [];
      undoLog := new VecLog<V, U>();
    }

    method Push(elem: V) returns (index: nat)
      requires Valid()
      modifies this`values, undoLog
      ensures Valid()
      ensures index == |old(values)| && values == old(values) + [elem]
    {
      index := |values|;
      values := values + [elem];
      if undoLog.InSnapshot() {
        assert values[..index] == old(values);
        ChangeKeeps(delegate, old(values), values, undoLog.log, NewElem(index), open);
        undoLog.Push(NewElem(index));
      }
    }

    method Set(index: nat, newElem: V)
      requires Valid() && index < |values|
      modifies this`values, undoLog
      ensures Valid() && values == old(values)[index := newElem]
      ensures undoLog.numOpenSnapshots == old(undoLog.numOpenSnapshots)
    {
      var oldElem := values[index];
      values := values[index := newElem];
      if undoLog.InSnapshot() {
        assert values[index := oldElem] == old(values);
        ChangeKeeps(delegate, old(values), values, undoLog.log, SetElem(index, oldElem), open);
        undoLog.Push(SetElem(index, oldElem));
      }
    }

    /** Replaces every element, one `set` at a time while a snapshot is open. */
    method SetAll(newElems: nat -> V)
      requires Valid()
      modifies this`values, undoLog
      ensures Valid() && values == seq(|old(values)|, i requires 0 <= i => newElems(i))
    {
      ghost var n := |values|;
      if !undoLog.InSnapshot() {
        values := seq(|values|, i requires 0 <= i => newElems(i));
      } else {
        for i := 0 to |values|
          invariant Valid() && |values| == n
          invariant forall j :: 0 <= j < i ==> values[j] == newElems(j)
        {
          Set(i, newElems(i));
        }
      }
    }

    /** Changes one element in place. */
    method Update(index: nat, op: V -> V)
      requires Valid() && index < |values|
      modifies this`values, undoLog
      ensures Valid() && values == old(values)[index := op(old(values)[index])]
    {
      var oldElem := values[index];
      var changed := values[index := op(oldElem)];
      if undoLog.InSnapshot() {
        assert changed[index := oldElem] == values;
        ChangeKeeps(delegate, values, changed, undoLog.log, SetElem(index, oldElem), open);
        undoLog.Push(SetElem(index, oldElem));
      }
      values := changed;
    }

    /** Appends first, then logs every new element. */
    method Extend(elems: seq<V>)
      requires Valid()
      modifies this`values, undoLog
      ensures Valid() && values == old(values) + elems
    {
      var initialLen := |values|;
      values := values + elems;
      if undoLog.InSnapshot() {
        assert values[..initialLen] == old(values);
        for len := initialLen to |values|
          invariant values == old(values) + elems && undoLog.numOpenSnapshots == |open|
          invariant len <= |values| && Restorable(delegate, values[..len], undoLog.log, open)
        {
          assert values[..len + 1][..len] == values[..len];
          ChangeKeeps(delegate, values[..len], values[..len + 1], undoLog.log, NewElem(len), open);
          undoLog.Push(NewElem(len));
        }
        assert values[..|values|] == values;
      }
    }

    /** A change through `get_mut` together with its `record`: the delegate must be able
        to take it back. */
    method ChangeAndRecord(changed: seq<V>, action: U)
      requires Valid() && delegate(changed, action) == values
      modifies this`values, undoLog
      ensures Valid() && values == changed
    {
      if undoLog.InSnapshot() {
        ChangeKeeps(delegate, values, changed, undoLog.log, Other(action), open);
        undoLog.Push(Other(action));
      }
      values := changed;
    }

    method StartSnapshot() returns (s: Snapshot)
      requires Valid()
      modifies this`open, undoLog
      ensures Valid() && open == old(open) + [Saved(s, values)]
    {
      var undoLen := undoLog.StartSnapshot();
      s := Snapshot(|values|, undoLen);
      open := open + [Saved(s, values)];
    }

    /** Restores exactly the values at the start of the innermost open snapshot; the
        outer ones stay open and restorable. */
    method RollbackTo(s: Snapshot)
      requires Valid() && open != [] && open[|open| - 1].token == s
      modifies this, undoLog
      ensures Valid() && open == old(open)[..|old(open)| - 1]
      ensures values == old(open)[|old(open)| - 1].values
    {
      RollbackKeeps(delegate, values, undoLog.log, open);
      values := undoLog.RollbackTo(delegate, values, s.undoLen);
      open := open[..|open| - 1];
    }

    /** Keeps the values and gives up the innermost snapshot; an outer rollback still
        restores what it saw. */
    method Commit(s: Snapshot)
      requires Valid() && open != [] && open[|open| - 1].token == s
      modifies this`open, undoLog
      ensures Valid() && open == old(open)[..|old(open)| - 1]
      ensures open == [] ==> undoLog.log == []
    {
      undoLog.Commit(s.undoLen);
      open := open[..|open| - 1];
    }
  }

  // ----- whole runs -----

  /** One step of a client. */
  datatype Step<!V, !U> =
    | PushStep(elem: V)
    | SetStep(index: nat, elem: V)
    | SetAllStep(elems: nat -> V)
    | UpdateStep(target: nat, op: V -> V)
    | ExtendStep(more: seq<V>)
    | ChangeStep(change: seq<V> -> seq<V>, action: U)
    | Scope(body: seq<Step<V, U>>, keep: bool)

  /** What a run means without any log: a scope that is not kept leaves no trace. */
  function Meaning<V, U>(values: seq<V>, steps: seq<Step<V, U>>): seq<V>
    decreases steps, 0
  {
    if steps == [] then values else Meaning(StepMeaning(values, steps[0]), steps[1..])
  }

  function StepMeaning<V, U>(values: seq<V>, step: Step<V, U>): seq<V>
    decreases step, 1
  {
    match step
    case PushStep(elem) => values + [elem]
    case SetStep(i, elem) => if i < |values| then values[i := elem] else values
    case SetAllStep(elems) => seq(|values|, i requires 0 <= i => elems(i))
    case UpdateStep(i, op) => if i < |values| then values[i := op(values[i])] else values
    case ExtendStep(more) => values + more
    case ChangeStep(change, _) => change(values)
    case Scope(body, keep) => if keep then Meaning(values, body) else values
  }

  /** The steps without scopes: those of a kept scope stand for themselves, those of any
      other are gone. */
  function Kept<V, U>(steps: seq<Step<V, U>>): (r: seq<Step<V, U>>)
    ensures forall i :: 0 <= i < |r| ==> !r[i].Scope?
    decreases steps, 0
  {
    if steps == [] then [] else KeptOf(steps[0]) + Kept(steps[1..])
  }

  function KeptOf<V, U>(step: Step<V, U>): (r: seq<Step<V, U>>)
    ensures forall i :: 0 <= i < |r| ==> !r[i].Scope?
    decreases step, 1
  {
    if !step.Scope? then [step] else if step.keep then Kept(step.body) else []
  }

  /** A run means the same as its kept steps alone, without any scope. */
  lemma {:induction false} ScopesVanish<V, U>(values: seq<V>, steps: seq<Step<V, U>>)
    ensures Meaning(values, steps) == Meaning(values, Kept(steps))
    decreases steps, 0
  {
    if steps != [] {
      ScopeVanishes(values, steps[0]);
      var next := StepMeaning(values, steps[0]);
      ScopesVanish(next, steps[1..]);
      MeaningConcat(values, KeptOf(steps[0]), Kept(steps[1..]));
    }
  }

  lemma {:induction false} ScopeVanishes<V, U>(values: seq<V>, step: Step<V, U>)
    ensures StepMeaning(values, step) == Meaning(values, KeptOf(step))
    decreases step, 1
  {
    if !step.Scope? {
      assert [step][1..] == [];
      assert Meaning<V, U>(StepMeaning(values, step), []) == StepMeaning(values, step);
    } else if step.keep {
      ScopesVanish(values, step.body);
    }
  }

  lemma {:induction false} MeaningConcat<V, U>(values: seq<V>, a: seq<Step<V, U>>, b: seq<Step<V, U>>)
    ensures Meaning(values, a + b) == Meaning(Meaning(values, a), b)
    decreases |a|
  {
    if a == [] {
      assert a + b == b;
    } else {
      assert (a + b)[1..] == a[1..] + b;
      MeaningConcat(StepMeaning(values, a[0]), a[1..], b);
    }
  }

  /** What one step outside a scope leaves at each index. */
  lemma StepAt<V, U>(values: seq<V>, step: Step<V, U>)
    requires !step.Scope? && !step.ChangeStep?
    ensures var after := Meaning(values, [step]);
            && |after| == |values| + (if step.PushStep? then 1 else if step.ExtendStep? then |step.more| else 0)
            && forall i :: 0 <= i < |after| ==>
                 after[i] == (if step.PushStep? && i == |values| then step.elem
                              else if step.ExtendStep? && i >= |values| then step.more[i - |values|]
                              else if step.SetStep? && i == step.index then step.elem
                              else if step.SetAllStep? then step.elems(i)
                              else if step.UpdateStep? && i == step.target then step.op(values[i])
                              else values[i])
  {
    assert [step][1..] == [];
    assert Meaning(values, [step]) == Meaning<V, U>(StepMeaning(values, step), []);
  }

  /** Every recorded change is one the delegate can take back: what the source asks of a
      client that changes elements on its own. */
  ghost predicate Undoable<V, U>(delegate: Delegate<V, U>, values: seq<V>, steps: seq<Step<V, U>>)
    decreases steps, 0
  {
    steps == [] || (StepUndoable(delegate, values, steps[0])
        && Undoable(delegate, StepMeaning(values, steps[0]), steps[1..]))
  }

  ghost predicate StepUndoable<V, U>(delegate: Delegate<V, U>, values: seq<V>, step: Step<V, U>)
    decreases step, 1
  {
    match step
    case ChangeStep(change, action) => delegate(change(values), action) == values
    case Scope(body, _) => Undoable(delegate, values, body)
    case _ => true
  }

  /** Runs the steps on the vector, scopes as snapshots. */
  method Run<V, U>(vector: Vector<V, U>, steps: seq<Step<V, U>>)
    requires vector.Valid() && Undoable(vector.delegate, vector.values, steps)
    modifies vector, vector.undoLog
    ensures vector.Valid() && vector.open == old(vector.open)
    ensures vector.values == Meaning(old(vector.values), steps)
    ensures vector.values == Meaning(old(vector.values), Kept(steps))
    decreases steps, 0
  {
    ScopesVanish(vector.values, steps);
    if steps != [] {
      RunStep(vector, steps[0]);
      Run(vector, steps[1..]);
    }
  }

  method RunStep<V, U>(vector: Vector<V, U>, step: Step<V, U>)
    requires vector.Valid() && StepUndoable(vector.delegate, vector.values, step)
    modifies vector, vector.undoLog
    ensures vector.Valid() && vector.open == old(vector.open)
    ensures vector.values == StepMeaning(old(vector.values), step)
    decreases step, 1
  {
    match step
    case PushStep(elem) =>
      var _ := vector.Push(elem);
    case SetStep(i, elem) =>
      if i < |vector.values| {
        vector.Set(i, elem);
      }
    case SetAllStep(elems) =>
      vector.SetAll(elems);
    case UpdateStep(i, op) =>
      if i < |vector.values| {
        vector.Update(i, op);
      }
    case ExtendStep(more) =>
      vector.Extend(more);
    case ChangeStep(change, action) =>
      vector.ChangeAndRecord(change(vector.values), action);
    case Scope(body, keep) =>
      ghost var outer := vector.open;
      var s := vector.StartSnapshot();
      Run(vector, body);
      assert vector.open[..|vector.open| - 1] == outer;
      if keep {
        vector.Commit(s);
      } else {
        vector.RollbackTo(s);
      }
  }
}
