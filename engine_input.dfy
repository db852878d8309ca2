/**
 * The two engine collaborators the input director talks to: the project-wide
 * action-mapping table (UInputSettings) and the input component that actions
 * are bound on (UInputComponent). Only the parts the director uses are modelled:
 * find, remove and add on the mapping table, and an append-only binding log.
 */
module EngineInput {

  /** A physical key (FKey), identified by its name. */
  datatype Key = Key(keyName: string)

  /** An action-to-key mapping (FInputActionKeyMapping), reduced to its action name and key. */
  datatype ActionKeyMapping = ActionKeyMapping(actionName: string, key: Key)

  /** The input phase an action is bound in (EInputEvent, the one the director uses). */
  datatype InputEvent = Pressed

  /** One BindAction call: the action name, the phase, and the object whose callback is bound. */
  datatype ActionBinding = ActionBinding(actionName: string, event: InputEvent, target: object)

  /** The mappings of `s` registered under `name`, in table order. */
  function MappingsNamed(s: seq<ActionKeyMapping>, name: string): (r: seq<ActionKeyMapping>)
    ensures |r| <= |s|
  {
    if s == [] then []
    else (if s[0].actionName == name then [s[0]] else []) + MappingsNamed(s[1..], name)
  }

  /** `s` with every copy of `m` removed. */
  function RemoveAll(s: seq<ActionKeyMapping>, m: ActionKeyMapping): seq<ActionKeyMapping>
  {
    if s == [] then []
    else (if s[0] == m then [] else [s[0]]) + RemoveAll(s[1..], m)
  }

  /** `s` with every mapping that occurs in `ms` removed. */
  function RemoveEach(s: seq<ActionKeyMapping>, ms: seq<ActionKeyMapping>): seq<ActionKeyMapping>
  {
    if s == [] then []
    else (if s[0] in ms then [] else [s[0]]) + RemoveEach(s[1..], ms)
  }

  /** `s` with every mapping registered under `name` removed, the others kept in order. */
  function WithoutName(s: seq<ActionKeyMapping>, name: string): (r: seq<ActionKeyMapping>)
    ensures |r| <= |s|
  {
    if s == [] then []
    else (if s[0].actionName == name then [] else [s[0]]) + WithoutName(s[1..], name)
  }

  /** What a lookup finds: exactly the table's mappings under that name. */
  lemma {:induction false} MappingsNamedMembers(s: seq<ActionKeyMapping>, name: string, m: ActionKeyMapping)
    ensures m in MappingsNamed(s, name) <==> m in s && m.actionName == name
  {
    if s != [] {
      MappingsNamedMembers(s[1..], name, m);
      assert s == [s[0]] + s[1..];
    }
  }

  /** What removing a name keeps: exactly the table's mappings under other names. */
  lemma {:induction false} WithoutNameMembers(s: seq<ActionKeyMapping>, name: string, m: ActionKeyMapping)
    ensures m in WithoutName(s, name) <==> m in s && m.actionName != name
  {
    if s != [] {
      WithoutNameMembers(s[1..], name, m);
      assert s == [s[0]] + s[1..];
    }
  }

  /** Removing an empty batch removes nothing. */
  lemma {:induction false} RemoveEachNothing(s: seq<ActionKeyMapping>)
    ensures RemoveEach(s, []) == s
  {
    if s != [] {
      RemoveEachNothing(s[1..]);
    }
  }

  /** Removing one more mapping after a batch is removing the extended batch. */
  lemma {:induction false} RemoveAllAfterEach(s: seq<ActionKeyMapping>, ms: seq<ActionKeyMapping>, m: ActionKeyMapping)
    ensures RemoveAll(RemoveEach(s, ms), m) == RemoveEach(s, ms + [m])
  {
    if s != [] {
      RemoveAllAfterEach(s[1..], ms, m);
      var rest := RemoveEach(s[1..], ms);
      if s[0] in ms {
        assert RemoveEach(s, ms) == rest;
        assert s[0] in ms + [m];
      } else {
        assert RemoveEach(s, ms) == [s[0]] + rest;
        assert ([s[0]] + rest)[1..] == rest;
        if s[0] == m {
          assert s[0] in ms + [m];
        } else {
          assert s[0] !in ms + [m];
        }
      }
    }
  }

  /** Removing a batch that holds exactly the mappings named `name` removes that name. */
  lemma {:induction false} RemoveEachByName(s: seq<ActionKeyMapping>, ms: seq<ActionKeyMapping>, name: string)
    requires forall x :: x in s ==> (x in ms <==> x.actionName == name)
    ensures RemoveEach(s, ms) == WithoutName(s, name)
  {
    if s != [] {
      assert s[0] in s;
      RemoveEachByName(s[1..], ms, name);
    }
  }

  /** Looking a name up is compatible with concatenation. */
  lemma {:induction false} MappingsNamedConcat(s: seq<ActionKeyMapping>, t: seq<ActionKeyMapping>, name: string)
    ensures MappingsNamed(s + t, name) == MappingsNamed(s, name) + MappingsNamed(t, name)
  {
    if s != [] {
      assert (s + t)[0] == s[0];
      assert (s + t)[1..] == s[1..] + t;
      MappingsNamedConcat(s[1..], t, name);
      var h := if s[0].actionName == name then [s[0]] else [];
      assert MappingsNamed(s + t, name) == h + MappingsNamed(s[1..] + t, name);
      assert MappingsNamed(s, name) == h + MappingsNamed(s[1..], name);
      assert h + (MappingsNamed(s[1..], name) + MappingsNamed(t, name))
          == (h + MappingsNamed(s[1..], name)) + MappingsNamed(t, name);
    } else {
      assert s + t == t;
    }
  }

  /** Nothing is found under a name that was removed. */
  lemma {:induction false} MappingsNamedWithoutSelf(s: seq<ActionKeyMapping>, name: string)
    ensures MappingsNamed(WithoutName(s, name), name) == []
  {
    if s != [] {
      MappingsNamedWithoutSelf(s[1..], name);
      MappingsNamedConcat(if s[0].actionName == name then [] else [s[0]], WithoutName(s[1..], name), name);
    }
  }

  /** Removing one name leaves every other name's mappings as they were. */
  lemma {:induction false} MappingsNamedWithout(s: seq<ActionKeyMapping>, gone: string, name: string)
    requires gone != name
    ensures MappingsNamed(WithoutName(s, gone), name) == MappingsNamed(s, name)
  {
    if s != [] {
      MappingsNamedWithout(s[1..], gone, name);
      MappingsNamedConcat(if s[0].actionName == gone then [] else [s[0]], WithoutName(s[1..], gone), name);
    }
  }

  /** The project-wide action-mapping table (UInputSettings::ActionMappings). */
  class InputSettings {
    var actionMappings: seq<ActionKeyMapping>

    constructor (actionMappings: seq<ActionKeyMapping>)
      ensures this.actionMappings == actionMappings
    {
      this.actionMappings := actionMappings;
    }

    /** GetActionMappingByName: every mapping registered under `name`. */
    method GetActionMappingByName(name: string) returns (outMappings: seq<ActionKeyMapping>)
      ensures outMappings == MappingsNamed(actionMappings, name)
    {
      outMappings := MappingsNamed(actionMappings, name);
    }

    /** RemoveActionMapping: drops every mapping equal to `mapping`. */
    method RemoveActionMapping(mapping: ActionKeyMapping)
      modifies this
      ensures actionMappings == RemoveAll(old(actionMappings), mapping)
    {
      actionMappings := RemoveAll(actionMappings, mapping);
    }

    /** AddActionMapping: registers `mapping` at the end of the table. */
    method AddActionMapping(mapping: ActionKeyMapping)
      modifies this
      ensures actionMappings == old(actionMappings) + [mapping]
    {
      actionMappings := actionMappings + [mapping];
    }
  }

  /** An input component, seen through the bindings made on it; old bindings are never removed. */
  class InputComponent {
    var bindings: seq<ActionBinding>

    constructor ()
      ensures bindings == []
    {
      bindings := [];
    }

    /** BindAction: binds `target`'s callback to `actionName` in phase `event`. */
    method BindAction(actionName: string, event: InputEvent, target: object)
      modifies this
      ensures bindings == old(bindings) + [ActionBinding(actionName, event, target)]
    {
      bindings := bindings + [ActionBinding(actionName, event, target)];
    }
  }
}
