/**
 * USIInputDirectorComponent and USIActionExecuter: the component that, on each
 * bind, namespaces its puzzle actions, replaces their stale key mappings, and
 * creates one executor per matching receiver; and the executor that forwards
 * a pressed action to its receiver.
 */
module InputDirector {
  import opened Wrappers
  import opened EngineInput
  import opened InputDirectorSpec

  /** The director's owner: a visual puzzle (its name and receiver components), or anything else. */
  datatype Owner = VisualPuzzle(puzzleName: string, receivers: seq<Receiver>) | OtherOwner

  /** A call of ReceiveInput on a receiver with an action label. */
  datatype ReceiveInputCall = ReceiveInput(receiver: Receiver, actionName: string)

  /** Pairs one action label with one receiver (USIActionExecuter). */
  class ActionExecuter {
    var actionName: string
    var receiver: Option<Receiver>
    /** Set by MarkPendingKill; reclamation itself is the engine's business. */
    var disposed: bool

    /** NewObject: an executor with no label and no receiver yet. */
    constructor ()
      ensures actionName == "" && receiver == None && !disposed
    {
      actionName := "";
      receiver := None;
      disposed := false;
    }

    /** Stores the label and the receiver, nothing else. */
    method Initialize(inActionName: string, inReceiver: Receiver)
      modifies this`actionName, this`receiver
      ensures actionName == inActionName && receiver == Some(inReceiver)
    {
      actionName := inActionName;
      receiver := Some(inReceiver);
    }

    /** The call the executor makes when its action fires: ReceiveInput(receiver, label). */
    method ExecuteAction() returns (call: ReceiveInputCall)
      requires receiver.Some?
      ensures call.receiver == receiver.value && call.actionName == actionName
    {
      call := ReceiveInput(receiver.value, actionName);
    }

    /** MarkPendingKill: flags the executor for disposal. */
    method MarkPendingKill()
      modifies this`disposed
      ensures disposed
    {
      disposed := true;
    }
  }

  /**
   * The executors `es`, bound as `log` on the input component, are exactly
   * the wires `ws`: same label, same receiver, live, and each bound under its
   * wire's id in the pressed phase.
   */
  ghost predicate Realizes(es: seq<ActionExecuter>, log: seq<ActionBinding>, ws: seq<Wire>)
    reads es
  {
    |es| == |ws| && |log| == |ws|
    && forall k :: 0 <= k < |ws| ==> Attached(es[k], log[k], ws[k])
  }

  /** One live executor carries the wire's label and receiver, and is bound under the wire's id. */
  ghost predicate Attached(e: ActionExecuter, b: ActionBinding, w: Wire)
    reads e
  {
    e.actionName == w.actionName && e.receiver == Some(w.receiver)
    && !e.disposed && b == ActionBinding(w.actionId, Pressed, e)
  }

  lemma RealizesSnoc(es: seq<ActionExecuter>, log: seq<ActionBinding>, ws: seq<Wire>,
                     e: ActionExecuter, b: ActionBinding, w: Wire)
    requires Realizes(es, log, ws) && Attached(e, b, w)
    ensures Realizes(es + [e], log + [b], ws + [w])
  {
    assert forall k :: 0 <= k < |ws| ==> (es + [e])[k] == es[k] && (log + [b])[k] == log[k] && (ws + [w])[k] == ws[k];
  }

  lemma RealizesConcat(es1: seq<ActionExecuter>, log1: seq<ActionBinding>, ws1: seq<Wire>,
                       es2: seq<ActionExecuter>, log2: seq<ActionBinding>, ws2: seq<Wire>)
    requires Realizes(es1, log1, ws1) && Realizes(es2, log2, ws2)
    ensures Realizes(es1 + es2, log1 + log2, ws1 + ws2)
  {
    var es, log, ws := es1 + es2, log1 + log2, ws1 + ws2;
    forall k | 0 <= k < |ws|
      ensures Attached(es[k], log[k], ws[k])
    {
      if k >= |ws1| {
        var k2 := k - |ws1|;
        assert es[k] == es2[k2] && log[k] == log2[k2] && ws[k] == ws2[k2];
      }
    }
  }

  /** Appending one attached executor and its binding to suffixes that realize `ws`. */
  lemma RealizesSnocAt(es: seq<ActionExecuter>, log: seq<ActionBinding>, n0: nat, l0: nat, ws: seq<Wire>,
                       e: ActionExecuter, b: ActionBinding, w: Wire)
    requires n0 <= |es| && l0 <= |log| && Realizes(es[n0..], log[l0..], ws) && Attached(e, b, w)
    ensures Realizes((es + [e])[n0..], (log + [b])[l0..], ws + [w])
  {
    assert (es + [e])[n0..] == es[n0..] + [e];
    assert (log + [b])[l0..] == log[l0..] + [b];
    RealizesSnoc(es[n0..], log[l0..], ws, e, b, w);
  }

  /**
   * Executors and bindings that extend ones realizing `ws1` by a part
   * realizing `ws2` realize `ws1 + ws2`.
   */
  lemma RealizesExtend(es: seq<ActionExecuter>, log: seq<ActionBinding>, l0: nat,
                       es1: seq<ActionExecuter>, log1: seq<ActionBinding>, ws1: seq<Wire>, ws2: seq<Wire>)
    requires l0 <= |log| && |es| <= |es1| && es1[..|es|] == es && |log| <= |log1| && log1[..|log|] == log
    requires Realizes(es, log[l0..], ws1) && Realizes(es1[|es|..], log1[|log|..], ws2)
    ensures Realizes(es1, log1[l0..], ws1 + ws2)
  {
    SplitAt(es1, es);
    SplitAfter(log1, log, l0);
    RealizesConcat(es, log[l0..], ws1, es1[|es|..], log1[|log|..], ws2);
  }

  /**
   * One iteration of the bind loop: entry `i`, bound in place against the
   * mapping table the first `i` entries left, extends the bound prefix, the
   * mapping table and the realized wiring by one entry.
   */
  lemma BindEachStep(puzzleName: string, receivers: seq<Receiver>, acts0: seq<PuzzleAction>,
                     store0: seq<ActionKeyMapping>, acts: seq<PuzzleAction>, i: nat, b: PuzzleAction, l0: nat,
                     es: seq<ActionExecuter>, log: seq<ActionBinding>, es1: seq<ActionExecuter>, log1: seq<ActionBinding>)
    requires |acts| == |acts0| && i < |acts0| && acts[i..] == acts0[i..]
    requires acts[..i] == BindAll(puzzleName, acts0[..i], store0).actions
    requires b == BoundAction(puzzleName, acts[i], BindAll(puzzleName, acts0[..i], store0).mappings)
    requires l0 <= |log| && |es| <= |es1| && es1[..|es|] == es && |log| <= |log1| && log1[..|log|] == log
    requires Realizes(es, log[l0..], Wiring(acts[..i], receivers))
    requires Realizes(es1[|es|..], log1[|log|..], WiresOf(b, receivers))
    ensures acts[i := b][i + 1..] == acts0[i + 1..]
    ensures acts[i := b][..i + 1] == BindAll(puzzleName, acts0[..i + 1], store0).actions
    ensures StoreAfter(BindAll(puzzleName, acts0[..i], store0).mappings, b.action)
            == BindAll(puzzleName, acts0[..i + 1], store0).mappings
    ensures Realizes(es1, log1[l0..], Wiring(acts[i := b][..i + 1], receivers))
  {
    BindStep(puzzleName, acts0, store0, acts, i, b);
    WiringSnoc(acts[..i], b, receivers);
    RealizesExtend(es, log, l0, es1, log1, Wiring(acts[..i], receivers), WiresOf(b, receivers));
  }

  /** A sequence that starts with `p` is `p` followed by the rest. */
  lemma SplitAt<T>(s: seq<T>, p: seq<T>)
    requires |p| <= |s| && s[..|p|] == p
    ensures s == p + s[|p|..]
  {
    assert s == s[..|p|] + s[|p|..];
  }

  /** A suffix of an extension of `p`, cut before the end of `p`. */
  lemma SplitAfter<T>(s: seq<T>, p: seq<T>, a: nat)
    requires a <= |p| <= |s| && s[..|p|] == p
    ensures s[a..] == p[a..] + s[|p|..]
  {
    assert s[a..] == s[a..|p|] + s[|p|..];
  }

  /** The input director component. */
  class InputDirectorComponent {
    /** GetOwner(), fixed for the component's lifetime. */
    const owner: Owner
    var puzzleEdgeActions: seq<PuzzleAction>
    var actionExecutors: seq<ActionExecuter>
    var bindInputs: bool

    /** A fresh component binds inputs by default and holds no executors. */
    constructor (owner: Owner, puzzleEdgeActions: seq<PuzzleAction>)
      ensures this.owner == owner && this.puzzleEdgeActions == puzzleEdgeActions
      ensures actionExecutors == [] && bindInputs
    {
      this.owner := owner;
      this.puzzleEdgeActions := puzzleEdgeActions;
      actionExecutors := [];
      bindInputs := true;
    }

    /**
     * Rebinds every puzzle action. A no-op unless the owner is a visual puzzle
     * and bindInputs is set; otherwise the old executors are marked for
     * disposal, and the table, the mapping table, the executors and the
     * bindings become those the value-level BindAll and Wiring describe.
     */
    method BindPuzzleActions(inputComponent: InputComponent, settings: InputSettings)
      modifies this, inputComponent, settings, actionExecutors
      ensures bindInputs == old(bindInputs)
      ensures forall e :: e in old(actionExecutors) ==>
                e.actionName == old(e.actionName) && e.receiver == old(e.receiver)
      ensures !(owner.VisualPuzzle? && old(bindInputs)) ==>
                unchanged(this, inputComponent, settings)
                && forall e :: e in old(actionExecutors) ==> unchanged(e)
      ensures owner.VisualPuzzle? && old(bindInputs) ==>
                var r := BindAll(owner.puzzleName, old(puzzleEdgeActions), old(settings.actionMappings));
                var l0 := |old(inputComponent.bindings)|;
                (forall e :: e in old(actionExecutors) ==> e.disposed)
                && puzzleEdgeActions == r.actions
                && settings.actionMappings == r.mappings
                && (forall e :: e in actionExecutors ==> fresh(e))
                && l0 <= |inputComponent.bindings|
                && inputComponent.bindings[..l0] == old(inputComponent.bindings)
                && Realizes(actionExecutors, inputComponent.bindings[l0..], Wiring(r.actions, owner.receivers))
    {
      if owner.VisualPuzzle? && bindInputs {
        DestroyExecutors();
        actionExecutors := [];
        BindEachAction(owner, inputComponent, settings);
      }
    }

    /** The loop of BindPuzzleActions: BindPuzzleAction on every entry, in declaration order. */
    method BindEachAction(puzzle: Owner, inputComponent: InputComponent, settings: InputSettings)
      requires puzzle.VisualPuzzle? && actionExecutors == []
      modifies this`puzzleEdgeActions, this`actionExecutors, inputComponent, settings
      ensures var r := BindAll(puzzle.puzzleName, old(puzzleEdgeActions), old(settings.actionMappings));
              var l0 := |old(inputComponent.bindings)|;
              puzzleEdgeActions == r.actions
              && settings.actionMappings == r.mappings
              && (forall e :: e in actionExecutors ==> fresh(e))
              && l0 <= |inputComponent.bindings|
              && inputComponent.bindings[..l0] == old(inputComponent.bindings)
              && Realizes(actionExecutors, inputComponent.bindings[l0..], Wiring(r.actions, puzzle.receivers))
    {
      ghost var acts0, store0, log0 := puzzleEdgeActions, settings.actionMappings, inputComponent.bindings;
      ghost var pn := puzzle.puzzleName;
      assert acts0[..0] == [];
      assert inputComponent.bindings[|log0|..] == [];
      var i := 0;
      while i < |puzzleEdgeActions|
        invariant |puzzleEdgeActions| == |acts0| && i <= |acts0|
        invariant puzzleEdgeActions[i..] == acts0[i..]
        invariant puzzleEdgeActions[..i] == BindAll(pn, acts0[..i], store0).actions
        invariant settings.actionMappings == BindAll(pn, acts0[..i], store0).mappings
        invariant |log0| <= |inputComponent.bindings| && inputComponent.bindings[..|log0|] == log0
        invariant Realizes(actionExecutors, inputComponent.bindings[|log0|..],
                           Wiring(puzzleEdgeActions[..i], puzzle.receivers))
        invariant forall e :: e in actionExecutors ==> fresh(e)
      {
        ghost var es, log, acts := actionExecutors, inputComponent.bindings, puzzleEdgeActions;
        BindPuzzleAction(puzzle, i, inputComponent, settings);
        BindEachStep(pn, puzzle.receivers, acts0, store0, acts, i, puzzleEdgeActions[i], |log0|,
                     es, log, actionExecutors, inputComponent.bindings);
        i := i + 1;
      }
      assert puzzleEdgeActions[..i] == puzzleEdgeActions;
      assert acts0[..i] == acts0;
    }

    /** Marks every held executor for disposal. */
    method DestroyExecutors()
      modifies actionExecutors
      ensures forall e :: e in actionExecutors ==> e.disposed
      ensures forall e :: e in actionExecutors ==>
                e.actionName == old(e.actionName) && e.receiver == old(e.receiver)
    {
      var j := 0;
      while j < |actionExecutors|
        invariant j <= |actionExecutors|
        invariant forall k :: 0 <= k < j ==> actionExecutors[k].disposed
        invariant forall e :: e in actionExecutors ==>
                    e.actionName == old(e.actionName) && e.receiver == old(e.receiver)
      {
        actionExecutors[j].MarkPendingKill();
        j := j + 1;
      }
    }

    /**
     * Binds one table entry, passed by reference: its id becomes the namespaced
     * id, its stale mappings are replaced by one mapping carrying the preserved
     * key, and one executor per matching receiver is created, bound and appended.
     */
    method BindPuzzleAction(puzzle: Owner, i: nat, inputComponent: InputComponent, settings: InputSettings)
      requires puzzle.VisualPuzzle? && i < |puzzleEdgeActions|
      modifies this`puzzleEdgeActions, this`actionExecutors, inputComponent, settings
      ensures var b := BoundAction(puzzle.puzzleName, old(puzzleEdgeActions[i]), old(settings.actionMappings));
              puzzleEdgeActions == old(puzzleEdgeActions)[i := b]
              && settings.actionMappings == StoreAfter(old(settings.actionMappings), b.action)
      ensures var n0, l0 := |old(actionExecutors)|, |old(inputComponent.bindings)|;
              n0 <= |actionExecutors| && actionExecutors[..n0] == old(actionExecutors)
              && l0 <= |inputComponent.bindings| && inputComponent.bindings[..l0] == old(inputComponent.bindings)
              && Realizes(actionExecutors[n0..], inputComponent.bindings[l0..], WiresOf(puzzleEdgeActions[i], puzzle.receivers))
              && forall e :: e in actionExecutors ==> e in old(actionExecutors) || fresh(e)
    {
      var puzzleAction := SetActionName(puzzle, puzzleEdgeActions[i]);
      puzzleAction := RemoveDuplicateActions(puzzleAction, settings);
      settings.AddActionMapping(puzzleAction.action);
      puzzleEdgeActions := puzzleEdgeActions[i := puzzleAction];
      BindReceivers(puzzleAction, puzzle.receivers, inputComponent);
    }

    /**
     * The receiver loop of BindPuzzleAction: for each receiver of the puzzle,
     * in order, whose name is the entry's edge name, one executor is attached.
     */
    method BindReceivers(a: PuzzleAction, components: seq<Receiver>, inputComponent: InputComponent)
      modifies this`actionExecutors, inputComponent
      ensures var n0, l0 := |old(actionExecutors)|, |old(inputComponent.bindings)|;
              n0 <= |actionExecutors| && actionExecutors[..n0] == old(actionExecutors)
              && l0 <= |inputComponent.bindings| && inputComponent.bindings[..l0] == old(inputComponent.bindings)
              && Realizes(actionExecutors[n0..], inputComponent.bindings[l0..], WiresOf(a, components))
              && forall e :: e in actionExecutors ==> e in old(actionExecutors) || fresh(e)
    {
      ghost var n0, l0 := |actionExecutors|, |inputComponent.bindings|;
      assert components[..0] == [];
      var j := 0;
      while j < |components|
        invariant j <= |components|
        invariant n0 <= |actionExecutors| && actionExecutors[..n0] == old(actionExecutors)
        invariant l0 <= |inputComponent.bindings| && inputComponent.bindings[..l0] == old(inputComponent.bindings)
        invariant Realizes(actionExecutors[n0..], inputComponent.bindings[l0..], WiresOf(a, components[..j]))
        invariant forall e :: e in actionExecutors ==> e in old(actionExecutors) || fresh(e)
      {
        var receiver := components[j];
        assert components[..j + 1] == components[..j] + [receiver];
        WiresOfSnoc(a, components[..j], receiver);
        ghost var es, log := actionExecutors, inputComponent.bindings;
        if receiver.receiverName == a.edgeName {
          var actionExecutor := AttachExecutor(a, receiver, inputComponent);
          RealizesSnocAt(es, log, n0, l0, WiresOf(a, components[..j]), actionExecutor,
                         ActionBinding(a.action.actionName, Pressed, actionExecutor),
                         Wire(a.action.actionName, a.actionName, receiver));
        }
        j := j + 1;
      }
      assert components[..j] == components;
    }

    /**
     * The body of the receiver loop for a matching receiver: a new executor
     * takes the entry's label and the receiver, is bound to the pressed event
     * of the entry's id, and is kept.
     */
    method AttachExecutor(a: PuzzleAction, receiver: Receiver, inputComponent: InputComponent)
      returns (actionExecutor: ActionExecuter)
      modifies this`actionExecutors, inputComponent
      ensures fresh(actionExecutor)
      ensures Attached(actionExecutor, ActionBinding(a.action.actionName, Pressed, actionExecutor),
                       Wire(a.action.actionName, a.actionName, receiver))
      ensures actionExecutors == old(actionExecutors) + [actionExecutor]
      ensures inputComponent.bindings == old(inputComponent.bindings)
                                         + [ActionBinding(a.action.actionName, Pressed, actionExecutor)]
    {
      actionExecutor := new ActionExecuter();
      actionExecutor.Initialize(a.actionName, receiver);
      inputComponent.BindAction(a.action.actionName, Pressed, actionExecutor);
      actionExecutors := actionExecutors + [actionExecutor];
    }

    /** The entry's mapping is renamed to the puzzle name, "_", then the entry's label. */
    method SetActionName(puzzle: Owner, puzzleAction: PuzzleAction) returns (updated: PuzzleAction)
      requires puzzle.VisualPuzzle?
      ensures updated.actionName == puzzleAction.actionName && updated.edgeName == puzzleAction.edgeName
      ensures updated.action.key == puzzleAction.action.key
      ensures updated.action.actionName == ActionId(puzzle.puzzleName, puzzleAction.actionName)
    {
      var actionName := puzzle.puzzleName;
      var actionSubName := "_" + puzzleAction.actionName;
      actionName := actionName + actionSubName;
      updated := puzzleAction.(action := puzzleAction.action.(actionName := actionName));
    }

    /**
     * Removes every mapping stored under the entry's id, and gives the entry
     * the key of the last one found (its authored key when none is found).
     */
    method RemoveDuplicateActions(puzzleAction: PuzzleAction, settings: InputSettings) returns (updated: PuzzleAction)
      modifies settings
      ensures var id := puzzleAction.action.actionName;
              settings.actionMappings == WithoutName(old(settings.actionMappings), id)
              && updated == puzzleAction.(action := ActionKeyMapping(id,
                   CarriedKey(MappingsNamed(old(settings.actionMappings), id), puzzleAction.action.key)))
    {
      updated := puzzleAction;
      var outMappings := settings.GetActionMappingByName(updated.action.actionName);
      ghost var store0 := settings.actionMappings;
      ghost var id := puzzleAction.action.actionName;
      assert outMappings[..0] == [];
      RemoveEachNothing(store0);
      var j := 0;
      while j < |outMappings|
        invariant j <= |outMappings|
        invariant settings.actionMappings == RemoveEach(store0, outMappings[..j])
        invariant updated == puzzleAction.(action := ActionKeyMapping(id, CarriedKey(outMappings[..j], puzzleAction.action.key)))
      {
        var duplicatedMapping := outMappings[j];
        assert duplicatedMapping.actionName == id by {
          assert duplicatedMapping in outMappings;
          MappingsNamedMembers(store0, id, duplicatedMapping);
        }
        RemoveDuplicateStep(store0, outMappings, j, puzzleAction.action.key);
        if duplicatedMapping.actionName == updated.action.actionName {
          updated := updated.(action := updated.action.(key := duplicatedMapping.key));
          settings.RemoveActionMapping(duplicatedMapping);
        }
        j := j + 1;
      }
      assert outMappings[..j] == outMappings;
      forall x | x in store0
        ensures x in outMappings <==> x.actionName == id
      {
        MappingsNamedMembers(store0, id, x);
      }
      RemoveEachByName(store0, outMappings, id);
    }
  }
}
