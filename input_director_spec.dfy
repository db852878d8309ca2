/**
 * Value-level specification of USIInputDirectorComponent::BindPuzzleActions:
 * what one bind does to the action table and to the mapping table (BindAll),
 * which executors it creates (Wiring), and the properties of both.
 */
module InputDirectorSpec {
  import opened EngineInput

  /**
   * A puzzle action as authored (FPuzzleAction): its label, the name of the
   * edge whose receivers should get it, and the key mapping it is bound under.
   */
  datatype PuzzleAction = PuzzleAction(actionName: string, edgeName: string, action: ActionKeyMapping)

  /** A component implementing the input-receiver interface: its receiver name and identity. */
  datatype Receiver = Receiver(receiverName: string, component: nat)

  /** What one executor stands for: bound under `actionId`, delivers `actionName` to `receiver`. */
  datatype Wire = Wire(actionId: string, actionName: string, receiver: Receiver)

  /** The action table and the mapping table after a bind. */
  datatype Bound = Bound(actions: seq<PuzzleAction>, mappings: seq<ActionKeyMapping>)

  /** The namespaced action id: puzzle name, an underscore, then the action label. */
  function ActionId(puzzleName: string, actionName: string): (id: string)
    ensures |id| == |puzzleName| + 1 + |actionName|
    ensures id[..|puzzleName|] == puzzleName && id[|puzzleName|] == '_'
    ensures id[|puzzleName| + 1..] == actionName
  {
    puzzleName + "_" + actionName
  }

  /** Within one puzzle, distinct labels give distinct ids. */
  lemma ActionIdInjective(puzzleName: string, a: string, b: string)
    requires ActionId(puzzleName, a) == ActionId(puzzleName, b)
    ensures a == b
  {
    assert a == ActionId(puzzleName, a)[|puzzleName| + 1..];
  }

  /** The key an action ends up with: that of the last mapping found, else the authored one. */
  function CarriedKey(found: seq<ActionKeyMapping>, authored: Key): Key
  {
    if found == [] then authored else found[|found| - 1].key
  }

  /**
   * Key preservation, stated on the table itself: with no mapping under `id`
   * the authored key stays; otherwise the key is that of the last mapping
   * stored under `id`.
   */
  lemma {:induction false} CarriedKeyIsLastStored(s: seq<ActionKeyMapping>, id: string, authored: Key)
    ensures (forall k :: 0 <= k < |s| ==> s[k].actionName != id) ==>
              CarriedKey(MappingsNamed(s, id), authored) == authored
    ensures (exists k :: 0 <= k < |s| && s[k].actionName == id) ==>
              exists k :: 0 <= k < |s| && s[k].actionName == id
                && CarriedKey(MappingsNamed(s, id), authored) == s[k].key
                && forall j :: k < j < |s| ==> s[j].actionName != id
  {
    if s != [] {
      var n := |s| - 1;
      var init, x := s[..n], s[n];
      assert s == init + [x];
      MappingsNamedConcat(init, [x], id);
      CarriedKeyIsLastStored(init, id, authored);
      if x.actionName == id {
        assert MappingsNamed(s, id) == MappingsNamed(init, id) + [x];
        assert CarriedKey(MappingsNamed(s, id), authored) == s[n].key;
      } else {
        assert MappingsNamed(s, id) == MappingsNamed(init, id);
        assert forall k :: 0 <= k < n ==> s[k] == init[k];
        if exists k :: 0 <= k < |s| && s[k].actionName == id {
          var k0 :| 0 <= k0 < |s| && s[k0].actionName == id;
          assert init[k0].actionName == id;
          var k :| 0 <= k < |init| && init[k].actionName == id
            && CarriedKey(MappingsNamed(init, id), authored) == init[k].key
            && forall j :: k < j < |init| ==> init[j].actionName != id;
          assert s[k] == init[k];
        }
      }
    }
  }

  /**
   * One iteration of the removal loop over the mappings `found`: removing
   * `found[j]` extends the removed batch by one, and its key is the one carried.
   */
  lemma RemoveDuplicateStep(store: seq<ActionKeyMapping>, found: seq<ActionKeyMapping>, j: nat, authored: Key)
    requires j < |found|
    ensures RemoveAll(RemoveEach(store, found[..j]), found[j]) == RemoveEach(store, found[..j + 1])
    ensures CarriedKey(found[..j + 1], authored) == found[j].key
  {
    assert found[..j + 1] == found[..j] + [found[j]];
    RemoveAllAfterEach(store, found[..j], found[j]);
  }

  /** One action after SetActionName and RemoveDuplicateActions against table `store`. */
  function BoundAction(puzzleName: string, a: PuzzleAction, store: seq<ActionKeyMapping>): PuzzleAction
  {
    var id := ActionId(puzzleName, a.actionName);
    a.(action := ActionKeyMapping(id, CarriedKey(MappingsNamed(store, id), a.action.key)))
  }

  /** The table after the stale mappings under `m`'s name are removed and `m` is added. */
  function StoreAfter(store: seq<ActionKeyMapping>, m: ActionKeyMapping): seq<ActionKeyMapping>
  {
    WithoutName(store, m.actionName) + [m]
  }

  /** After one action is bound its id has exactly one mapping; other names are untouched. */
  lemma StoreAfterLookup(store: seq<ActionKeyMapping>, m: ActionKeyMapping, name: string)
    ensures MappingsNamed(StoreAfter(store, m), name)
         == if name == m.actionName then [m] else MappingsNamed(store, name)
  {
    var w := WithoutName(store, m.actionName);
    MappingsNamedConcat(w, [m], name);
    assert MappingsNamed([m], name) == if m.actionName == name then [m] else [];
    if name == m.actionName {
      MappingsNamedWithoutSelf(store, name);
    } else {
      MappingsNamedWithout(store, m.actionName, name);
    }
  }

  /** BindPuzzleActions on values: every action in declaration order, threading the table. */
  function BindAll(puzzleName: string, actions: seq<PuzzleAction>, store: seq<ActionKeyMapping>): (r: Bound)
    ensures |r.actions| == |actions|
    decreases |actions|
  {
    if actions == [] then Bound([], store)
    else
      var b := BoundAction(puzzleName, actions[0], store);
      var rest := BindAll(puzzleName, actions[1..], StoreAfter(store, b.action));
      Bound([b] + rest.actions, rest.mappings)
  }

  /**
   * Each bound entry keeps its label and edge name, and its id is the
   * namespaced id built from its own label.
   */
  lemma {:induction false} BindAllEntries(puzzleName: string, actions: seq<PuzzleAction>,
                                          store: seq<ActionKeyMapping>, i: nat)
    requires i < |actions|
    ensures var r := BindAll(puzzleName, actions, store);
            r.actions[i].actionName == actions[i].actionName
            && r.actions[i].edgeName == actions[i].edgeName
            && r.actions[i].action.actionName == ActionId(puzzleName, actions[i].actionName)
    decreases |actions|
  {
    if i > 0 {
      var b := BoundAction(puzzleName, actions[0], store);
      BindAllEntries(puzzleName, actions[1..], StoreAfter(store, b.action), i - 1);
    }
  }

  /**
   * Binding one more entry after a table: the entry is bound against the
   * mapping table the earlier entries left, and that table then gets its mapping.
   */
  lemma {:induction false} BindAllSnoc(puzzleName: string, actions: seq<PuzzleAction>, a: PuzzleAction,
                                       store: seq<ActionKeyMapping>)
    ensures var r := BindAll(puzzleName, actions, store);
            var b := BoundAction(puzzleName, a, r.mappings);
            BindAll(puzzleName, actions + [a], store) == Bound(r.actions + [b], StoreAfter(r.mappings, b.action))
    decreases |actions|
  {
    if actions == [] {
      assert actions + [a] == [a];
      assert [a][1..] == [];
    } else {
      var b0 := BoundAction(puzzleName, actions[0], store);
      var store1 := StoreAfter(store, b0.action);
      assert (actions + [a])[0] == actions[0];
      assert (actions + [a])[1..] == actions[1..] + [a];
      BindAllSnoc(puzzleName, actions[1..], a, store1);
      var r1 := BindAll(puzzleName, actions[1..], store1);
      var b := BoundAction(puzzleName, a, r1.mappings);
      assert [b0] + (r1.actions + [b]) == ([b0] + r1.actions) + [b];
    }
  }

  /**
   * One step of the in-place bind: the table holds the bound first `i`
   * entries and the untouched rest, and entry `i` is replaced by its binding
   * against the mapping table the first `i` left.
   */
  lemma BindStep(puzzleName: string, acts0: seq<PuzzleAction>, store0: seq<ActionKeyMapping>,
                 acts: seq<PuzzleAction>, i: nat, b: PuzzleAction)
    requires |acts| == |acts0| && i < |acts0| && acts[i..] == acts0[i..]
    requires acts[..i] == BindAll(puzzleName, acts0[..i], store0).actions
    requires b == BoundAction(puzzleName, acts[i], BindAll(puzzleName, acts0[..i], store0).mappings)
    ensures acts[i := b][i + 1..] == acts0[i + 1..]
    ensures acts[i := b][..i + 1] == acts[..i] + [b]
    ensures acts[i := b][..i + 1] == BindAll(puzzleName, acts0[..i + 1], store0).actions
    ensures StoreAfter(BindAll(puzzleName, acts0[..i], store0).mappings, b.action)
            == BindAll(puzzleName, acts0[..i + 1], store0).mappings
  {
    assert acts[i] == acts[i..][0] == acts0[i];
    assert acts0[..i + 1] == acts0[..i] + [acts0[i]];
    BindAllSnoc(puzzleName, acts0[..i], acts0[i], store0);
    assert acts[i := b][..i + 1] == acts[..i] + [b];
    assert acts[i := b][i + 1..] == acts[i + 1..] == acts[i..][1..];
  }

  /** Binding one more entry extends the wiring of the entries before it. */
  lemma WiringSnoc(done: seq<PuzzleAction>, b: PuzzleAction, receivers: seq<Receiver>)
    ensures Wiring(done + [b], receivers) == Wiring(done, receivers) + WiresOf(b, receivers)
  {
    assert (done + [b])[..|done|] == done;
  }

  /** Binding more actions keeps a name that already has the single mapping `m` consistent. */
  lemma {:induction false} BindAllKeepsSingle(puzzleName: string, actions: seq<PuzzleAction>,
                                              store: seq<ActionKeyMapping>, m: ActionKeyMapping)
    requires MappingsNamed(store, m.actionName) == [m]
    ensures MappingsNamed(BindAll(puzzleName, actions, store).mappings, m.actionName) == [m]
    decreases |actions|
  {
    if actions != [] {
      var b := BoundAction(puzzleName, actions[0], store);
      StoreAfterLookup(store, b.action, m.actionName);
      BindAllKeepsSingle(puzzleName, actions[1..], StoreAfter(store, b.action), m);
    }
  }

  /**
   * After a bind, each action's id has exactly one mapping in the table, and it
   * is the mapping stored back into that action's table entry.
   */
  lemma {:induction false} OneMappingPerAction(puzzleName: string, actions: seq<PuzzleAction>,
                                               store: seq<ActionKeyMapping>, i: nat)
    requires i < |actions|
    ensures var r := BindAll(puzzleName, actions, store);
            MappingsNamed(r.mappings, r.actions[i].action.actionName) == [r.actions[i].action]
    decreases |actions|
  {
    var b := BoundAction(puzzleName, actions[0], store);
    var s1 := StoreAfter(store, b.action);
    if i == 0 {
      StoreAfterLookup(store, b.action, b.action.actionName);
      BindAllKeepsSingle(puzzleName, actions[1..], s1, b.action);
    } else {
      OneMappingPerAction(puzzleName, actions[1..], s1, i - 1);
    }
  }

  /** Mappings under names that are no action's id are exactly as before the bind. */
  lemma {:induction false} OtherNamesUntouched(puzzleName: string, actions: seq<PuzzleAction>,
                                               store: seq<ActionKeyMapping>, name: string)
    requires forall i :: 0 <= i < |actions| ==> ActionId(puzzleName, actions[i].actionName) != name
    ensures MappingsNamed(BindAll(puzzleName, actions, store).mappings, name) == MappingsNamed(store, name)
    decreases |actions|
  {
    if actions != [] {
      var b := BoundAction(puzzleName, actions[0], store);
      StoreAfterLookup(store, b.action, name);
      OtherNamesUntouched(puzzleName, actions[1..], StoreAfter(store, b.action), name);
    }
  }

  /** An already-bound table whose ids each have their own single mapping binds to itself. */
  lemma {:induction false} RebindStable(puzzleName: string, actions: seq<PuzzleAction>, store: seq<ActionKeyMapping>)
    requires forall i :: 0 <= i < |actions| ==>
               actions[i].action.actionName == ActionId(puzzleName, actions[i].actionName)
               && MappingsNamed(store, actions[i].action.actionName) == [actions[i].action]
    ensures BindAll(puzzleName, actions, store).actions == actions
    decreases |actions|
  {
    if actions != [] {
      var a := actions[0];
      var b := BoundAction(puzzleName, a, store);
      assert MappingsNamed(store, a.action.actionName) == [a.action];
      assert b == a;
      var s1 := StoreAfter(store, a.action);
      forall i | 0 <= i < |actions[1..]|
        ensures MappingsNamed(s1, actions[1..][i].action.actionName) == [actions[1..][i].action]
      {
        var x := actions[1..][i];
        assert x == actions[i + 1];
        StoreAfterLookup(store, a.action, x.action.actionName);
      }
      RebindStable(puzzleName, actions[1..], s1);
    }
  }

  /**
   * Rebinding an unchanged table is idempotent: the table comes back the same,
   * and every action id maps to the same single key mapping as after the first bind.
   */
  lemma RebindIdempotent(puzzleName: string, actions: seq<PuzzleAction>, store: seq<ActionKeyMapping>)
    ensures var r1 := BindAll(puzzleName, actions, store);
            var r2 := BindAll(puzzleName, r1.actions, r1.mappings);
            r2.actions == r1.actions
            && forall i :: 0 <= i < |r1.actions| ==>
                 MappingsNamed(r2.mappings, r1.actions[i].action.actionName)
                 == MappingsNamed(r1.mappings, r1.actions[i].action.actionName)
  {
    var r1 := BindAll(puzzleName, actions, store);
    forall i | 0 <= i < |r1.actions|
      ensures r1.actions[i].action.actionName == ActionId(puzzleName, r1.actions[i].actionName)
      ensures MappingsNamed(r1.mappings, r1.actions[i].action.actionName) == [r1.actions[i].action]
    {
      BindAllEntries(puzzleName, actions, store, i);
      OneMappingPerAction(puzzleName, actions, store, i);
    }
    RebindStable(puzzleName, r1.actions, r1.mappings);
    var r2 := BindAll(puzzleName, r1.actions, r1.mappings);
    forall i | 0 <= i < |r1.actions|
      ensures MappingsNamed(r2.mappings, r1.actions[i].action.actionName)
           == MappingsNamed(r1.mappings, r1.actions[i].action.actionName)
    {
      OneMappingPerAction(puzzleName, r1.actions, r1.mappings, i);
    }
  }

  /** The receiver names in enumeration order. */
  function ReceiverNames(receivers: seq<Receiver>): seq<string>
  {
    seq(|receivers|, k requires 0 <= k < |receivers| => receivers[k].receiverName)
  }

  /**
   * The executors one action gets: one per receiver whose name equals the
   * action's edge name, in receiver order, each holding the plain label and
   * bound under the namespaced id.
   */
  function WiresOf(a: PuzzleAction, receivers: seq<Receiver>): seq<Wire>
  {
    if receivers == [] then []
    else
      var r := receivers[|receivers| - 1];
      WiresOf(a, receivers[..|receivers| - 1])
      + (if r.receiverName == a.edgeName then [Wire(a.action.actionName, a.actionName, r)] else [])
  }

  /** Appending a receiver appends its executor, if it is named after the edge. */
  lemma WiresOfSnoc(a: PuzzleAction, receivers: seq<Receiver>, r: Receiver)
    ensures WiresOf(a, receivers + [r])
            == WiresOf(a, receivers) + (if r.receiverName == a.edgeName then [Wire(a.action.actionName, a.actionName, r)] else [])
  {
    assert (receivers + [r])[..|receivers|] == receivers;
  }

  /** An action gets as many executors as there are receivers named after its edge. */
  lemma {:induction false} WiresOfCount(a: PuzzleAction, receivers: seq<Receiver>)
    ensures |WiresOf(a, receivers)| == multiset(ReceiverNames(receivers))[a.edgeName]
  {
    if receivers != [] {
      var init := receivers[..|receivers| - 1];
      var r := receivers[|receivers| - 1];
      WiresOfCount(a, init);
      assert ReceiverNames(receivers) == ReceiverNames(init) + [r.receiverName];
    }
  }

  /**
   * Multicast: an action's executors are exactly one per receiver named after
   * its edge, each with the plain label and the namespaced id.
   */
  lemma {:induction false} WiresOfMembers(a: PuzzleAction, receivers: seq<Receiver>, w: Wire)
    ensures w in WiresOf(a, receivers) <==>
            w.actionId == a.action.actionName && w.actionName == a.actionName
            && w.receiver in receivers && w.receiver.receiverName == a.edgeName
  {
    if receivers != [] {
      var init := receivers[..|receivers| - 1];
      var r := receivers[|receivers| - 1];
      WiresOfMembers(a, init, w);
      assert receivers == init + [r];
    }
  }

  /** The number of (action, receiver) pairs whose receiver name equals the action's edge name. */
  function PairCount(actions: seq<PuzzleAction>, receivers: seq<Receiver>): nat
  {
    if actions == [] then 0
    else PairCount(actions[..|actions| - 1], receivers)
         + multiset(ReceiverNames(receivers))[actions[|actions| - 1].edgeName]
  }

  /** All executors of one bind: action declaration order, then receiver order. */
  function Wiring(actions: seq<PuzzleAction>, receivers: seq<Receiver>): seq<Wire>
  {
    if actions == [] then []
    else Wiring(actions[..|actions| - 1], receivers) + WiresOf(actions[|actions| - 1], receivers)
  }

  /** A bind creates one executor per matching (action, receiver) pair. */
  lemma {:induction false} WiringCount(actions: seq<PuzzleAction>, receivers: seq<Receiver>)
    ensures |Wiring(actions, receivers)| == PairCount(actions, receivers)
  {
    if actions != [] {
      WiringCount(actions[..|actions| - 1], receivers);
      WiresOfCount(actions[|actions| - 1], receivers);
    }
  }

  /** Every executor of an action of the table is an executor of the bind. */
  lemma {:induction false} WiringIncludes(actions: seq<PuzzleAction>, receivers: seq<Receiver>, i: nat, w: Wire)
    requires i < |actions| && w in WiresOf(actions[i], receivers)
    ensures w in Wiring(actions, receivers)
  {
    var n := |actions| - 1;
    if i < n {
      assert actions[..n][i] == actions[i];
      WiringIncludes(actions[..n], receivers, i, w);
    }
  }

  /** Every executor of the bind belongs to one action of the table. */
  lemma {:induction false} WiringSource(actions: seq<PuzzleAction>, receivers: seq<Receiver>, w: Wire)
    requires w in Wiring(actions, receivers)
    ensures exists i :: 0 <= i < |actions| && w in WiresOf(actions[i], receivers)
  {
    var n := |actions| - 1;
    if w in Wiring(actions[..n], receivers) {
      WiringSource(actions[..n], receivers, w);
      var i :| 0 <= i < n && w in WiresOf(actions[..n][i], receivers);
      assert actions[..n][i] == actions[i];
    } else {
      assert w in WiresOf(actions[n], receivers);
    }
  }

  /** An executor of the bind is exactly an executor of one of its actions. */
  lemma WiringMembers(actions: seq<PuzzleAction>, receivers: seq<Receiver>, w: Wire)
    ensures w in Wiring(actions, receivers) <==>
            exists i :: 0 <= i < |actions| && w in WiresOf(actions[i], receivers)
  {
    if w in Wiring(actions, receivers) {
      WiringSource(actions, receivers, w);
    }
    if exists i :: 0 <= i < |actions| && w in WiresOf(actions[i], receivers) {
      var i :| 0 <= i < |actions| && w in WiresOf(actions[i], receivers);
      WiringIncludes(actions, receivers, i, w);
    }
  }

  /** An action no receiver is named after gets no executor. */
  lemma {:induction false} NoMatchNoExecutor(a: PuzzleAction, receivers: seq<Receiver>)
    requires forall k :: 0 <= k < |receivers| ==> receivers[k].receiverName != a.edgeName
    ensures WiresOf(a, receivers) == []
  {
    if receivers != [] {
      NoMatchNoExecutor(a, receivers[..|receivers| - 1]);
    }
  }
}
