# Puzzle input director and edge moveset editor, modelled in Dafny

This project models two pieces of a puzzle game written for Unreal Engine, and proves properties of them.

**The input director.** `USIInputDirectorComponent` sits on a visual puzzle and holds the puzzle's table of `FPuzzleAction` entries. Each entry has:
- a label;
- the name of the edge whose receivers should get the action;
- a key mapping.

On every bind the component does the following:
- It marks its old `USIActionExecuter` objects for disposal.
- It renames each entry's mapping to the namespaced id `<puzzle name>_<label>`.
- It removes every mapping stored under that id from the project-wide mapping table (`UInputSettings`). While doing so, it carries over the key of the last mapping it found.
- It adds the entry's mapping back.
- For every receiver component whose receiver name equals the entry's edge name, it creates one executor. The executor holds the label and the receiver and is bound to the pressed event of the id.

When the action fires, an executor forwards `ReceiveInput(label)` to its receiver.

**The edge editor.** `FEdgeEditorModule` keeps the edge name typed by the user. When its moveset button is pressed, it folds the editor selection:
- every puzzle piece becomes the recorded owner;
- every selected piece appends its id;
- the first id that differs from the sentinel `-1` becomes the start id.

The button aborts when it finds no start id or no owner. Otherwise it closes the order by appending the start id again, and appends that moveset to the owner's edge of the current name, if there is such an edge.

Files:
- `wrappers.dfy`: `Option`.
- `engine_input.dfy` (module `EngineInput`): the engine's mapping table and input component, as classes. This covers the lookup, removal and addition of mappings, and an append-only log of bindings. It also holds the sequence lemmas about them.
- `input_director_spec.dfy` (module `InputDirectorSpec`): the value-level specification of one bind.
  - `BindAll` says what the bind does to the action table and the mapping table, threading the mapping table through the entries in declaration order.
  - `Wiring` says which executors the bind creates.
  - The module also holds the lemmas about both.
- `input_director.dfy` (module `InputDirector`): the classes `ActionExecuter` and `InputDirectorComponent`.
  - Their methods follow the source loops one by one.
  - They are proved against `BindAll` and `Wiring` through the predicate `Realizes`. `Realizes` says that the new executors and bindings are exactly the wires: same label, same receiver, live, and bound under the wire's id in the pressed phase.
- `edge_editor.dfy` (module `EdgeEditor`): the classes `PuzzleEdge`, `Actor` and `EdgeEditorModule`.
  - The selection fold is specified by `SelectedIds`, `LastOwner`, `FirstId` and `Moveset`, with lemmas about them.
  - The button's effect on every edge is stated through `AddedTo`.

## Model

| member | source | states |
|---|---|---|
| InputDirector.ActionExecuter.constructor | CodeSample/Private/SIInputDirectorComponent.cpp:51 | a new executor has no label, no receiver and is live |
| InputDirector.ActionExecuter.Initialize | CodeSample/Private/SIInputDirectorComponent.cpp:82-86 | the executor stores exactly the given label and receiver, and nothing else changes |
| InputDirector.ActionExecuter.ExecuteAction | CodeSample/Private/SIInputDirectorComponent.cpp:88-92 | firing delivers ReceiveInput to the stored receiver, with the stored label |
| InputDirector.ActionExecuter.MarkPendingKill | CodeSample/Private/SIInputDirectorComponent.cpp:34 | the executor is flagged for disposal |
| InputDirector.InputDirectorComponent.constructor | CodeSample/Private/SIInputDirectorComponent.cpp:8-12 | a new director binds inputs by default and holds no executors |
| InputDirector.InputDirectorComponent.BindPuzzleActions | CodeSample/Private/SIInputDirectorComponent.cpp:14-28 | nothing changes unless the owner is a visual puzzle and binding is on. Otherwise: every old executor is disposed and keeps its label and receiver; the table and mapping table become those of BindAll; the executors are fresh and, with the new bindings appended after the kept old ones, realize exactly Wiring |
| InputDirector.InputDirectorComponent.BindEachAction | CodeSample/Private/SIInputDirectorComponent.cpp:23-26 | binding the entries one at a time, in order, yields BindAll of the table and the mapping table, and executors that realize Wiring of the bound table |
| InputDirector.InputDirectorComponent.DestroyExecutors | CodeSample/Private/SIInputDirectorComponent.cpp:30-36 | every held executor is disposed, and its label and receiver are kept |
| InputDirector.InputDirectorComponent.BindPuzzleAction | CodeSample/Private/SIInputDirectorComponent.cpp:38-57 | only entry i changes: its mapping becomes BoundAction (namespaced id, carried key) and the mapping table becomes StoreAfter. The executors and bindings are extended, and the new part realizes WiresOf the bound entry |
| InputDirector.InputDirectorComponent.BindReceivers | CodeSample/Private/SIInputDirectorComponent.cpp:44-56 | the executors appended are fresh and realize WiresOf the entry, one per receiver named after the edge, in receiver order; the earlier executors and bindings are kept |
| InputDirector.InputDirectorComponent.AttachExecutor | CodeSample/Private/SIInputDirectorComponent.cpp:51-54 | a fresh executor with the entry's label and the receiver is bound to the pressed event of the entry's id, and is appended to the executors |
| InputDirector.InputDirectorComponent.SetActionName | CodeSample/Private/SIInputDirectorComponent.cpp:59-65 | the entry's mapping is renamed to ActionId(puzzle name, label); its label, edge name and key are kept |
| InputDirector.InputDirectorComponent.RemoveDuplicateActions | CodeSample/Private/SIInputDirectorComponent.cpp:67-80 | every mapping stored under the entry's id is removed and every other mapping is kept in order; the entry takes the key of the last mapping found, or keeps its own key when none is found |
| InputDirectorSpec.ActionId | CodeSample/Private/SIInputDirectorComponent.cpp:59-65 | the id is the puzzle name, then '_', then the label |
| InputDirectorSpec.ActionIdInjective | CodeSample/Private/SIInputDirectorComponent.cpp:59-65 | within one puzzle, different labels give different ids |
| InputDirectorSpec.CarriedKeyIsLastStored | CodeSample/Private/SIInputDirectorComponent.cpp:72-77 | with no mapping under the id, the authored key stays; otherwise the key carried over is that of the last mapping stored under the id |
| InputDirectorSpec.StoreAfterLookup | CodeSample/Private/SIInputDirectorComponent.cpp:40-42 | after an entry is bound, exactly one mapping (the entry's) is stored under its id, and every other name finds what it found before |
| InputDirectorSpec.BindAllEntries | CodeSample/Private/SIInputDirectorComponent.cpp:23-26 | every bound entry keeps its label and edge name, and its mapping's name is the namespaced id of its own label |
| InputDirectorSpec.BindAllSnoc | CodeSample/Private/SIInputDirectorComponent.cpp:23-26 | binding one more entry binds it against the mapping table the earlier entries left, and then adds its mapping |
| InputDirectorSpec.BindStep | CodeSample/Private/SIInputDirectorComponent.cpp:23-26 | updating entry i in place extends the bound prefix by one and leaves the rest unbound |
| InputDirectorSpec.RemoveDuplicateStep | CodeSample/Private/SIInputDirectorComponent.cpp:72-79 | removing one more found mapping extends the removed batch by one, and its key becomes the carried key |
| InputDirector.BindEachStep | CodeSample/Private/SIInputDirectorComponent.cpp:23-26 | one iteration of the bind loop extends the bound prefix, the mapping table and the realized wiring by exactly one entry |
| InputDirectorSpec.BindAllKeepsSingle | CodeSample/Private/SIInputDirectorComponent.cpp:38-42 | a name that already has one mapping keeps one mapping consistent with it while later entries are bound |
| InputDirectorSpec.OneMappingPerAction | CodeSample/Private/SIInputDirectorComponent.cpp:40-42 | after a bind, every entry's id has exactly one mapping, and it is the entry's own mapping: entries sharing an id agree on the key |
| InputDirectorSpec.OtherNamesUntouched | CodeSample/Private/SIInputDirectorComponent.cpp:67-80 | mappings under names that are no entry's id are exactly as before the bind |
| InputDirectorSpec.RebindStable | CodeSample/Private/SIInputDirectorComponent.cpp:14-28 | a table whose entries already carry their ids and their own single mappings binds to itself |
| InputDirectorSpec.RebindIdempotent | CodeSample/Private/SIInputDirectorComponent.cpp:14-28 | binding twice gives the same table as binding once, and every id keeps the same single mapping |
| InputDirectorSpec.WiresOfSnoc | CodeSample/Private/SIInputDirectorComponent.cpp:45-55 | one more receiver adds its executor exactly when its name is the edge name |
| InputDirectorSpec.WiresOfCount | CodeSample/Private/SIInputDirectorComponent.cpp:44-56 | an entry gets as many executors as there are receivers named after its edge |
| InputDirectorSpec.WiresOfMembers | CodeSample/Private/SIInputDirectorComponent.cpp:49-54 | an executor of an entry is exactly a receiver of the puzzle named after the edge, with the entry's label and id |
| InputDirectorSpec.NoMatchNoExecutor | CodeSample/Private/SIInputDirectorComponent.cpp:49 | an entry whose edge name matches no receiver gets no executor |
| InputDirectorSpec.WiringSnoc | CodeSample/Private/SIInputDirectorComponent.cpp:23-26 | the executors of one more entry follow those of the earlier entries |
| InputDirectorSpec.WiringCount | CodeSample/Private/SIInputDirectorComponent.cpp:23-26 | a bind creates one executor per (entry, receiver) pair whose names match |
| InputDirectorSpec.WiringIncludes | CodeSample/Private/SIInputDirectorComponent.cpp:23-26 | every executor of every entry is among the bind's executors |
| InputDirectorSpec.WiringSource | CodeSample/Private/SIInputDirectorComponent.cpp:23-26 | every executor of the bind belongs to some entry |
| InputDirectorSpec.WiringMembers | CodeSample/Private/SIInputDirectorComponent.cpp:23-26 | the bind's executors are exactly the executors of its entries |
| EngineInput.MappingsNamedMembers | CodeSample/Private/SIInputDirectorComponent.cpp:70 | a lookup finds exactly the stored mappings under the name |
| EngineInput.WithoutNameMembers | CodeSample/Private/SIInputDirectorComponent.cpp:72-79 | removing a name keeps exactly the mappings under other names |
| EngineInput.RemoveEachByName | CodeSample/Private/SIInputDirectorComponent.cpp:72-79 | removing, one by one, the mappings a lookup found removes exactly that name |
| EngineInput.MappingsNamedWithoutSelf | CodeSample/Private/SIInputDirectorComponent.cpp:72-79 | nothing is found under a name once it has been removed |
| EngineInput.MappingsNamedWithout | CodeSample/Private/SIInputDirectorComponent.cpp:72-79 | removing one name leaves every other name's mappings as they were |
| EngineInput.InputSettings.GetActionMappingByName | CodeSample/Private/SIInputDirectorComponent.cpp:70 | returns the mappings stored under the name, in table order |
| EngineInput.InputSettings.RemoveActionMapping | CodeSample/Private/SIInputDirectorComponent.cpp:77 | every copy of the mapping is removed and no other entry changes |
| EngineInput.InputSettings.AddActionMapping | CodeSample/Private/SIInputDirectorComponent.cpp:42 | the mapping is added at the end of the table |
| EngineInput.InputComponent.BindAction | CodeSample/Private/SIInputDirectorComponent.cpp:53 | one binding of the target to the action name and phase is appended |
| EdgeEditor.EdgeEditorModule.SetEdgeName | CodeSample/Private/EdgeEditor.cpp:87-91 | the typed text becomes the current edge name |
| EdgeEditor.EdgeEditorModule.AddEdgeMovesetElement | CodeSample/Private/EdgeEditor.cpp:137-157 | a piece, selected or not, becomes the owner; a selected piece appends its id and becomes the start id while that is still -1; any other object changes nothing |
| EdgeEditor.EdgeEditorModule.AddEdgeMoveset | CodeSample/Private/EdgeEditor.cpp:93-135 | each edge of the recorded owner gets AddedTo appended: the closed moveset for the owner's first edge with the current name, nothing for the others, and nothing at all when the button aborts or no edge has the name |
| EdgeEditor.AuthorNorthMoveset | CodeSample/Private/EdgeEditor.cpp:93-135 | typing "North" and pressing the button over pieces 3, 1 and 2 of a puzzle whose only edge is "North" appends [3, 1, 2, 3] to it |
| EdgeEditor.PuzzleEdge.AddMoveset | CodeSample/Private/EdgeEditor.cpp:128 | the moveset is appended to the edge's list |
| EdgeEditor.Actor.GetEdgeByName | CodeSample/Private/EdgeEditor.cpp:120 | the lookup finds nothing exactly when no edge of the puzzle carries the name; otherwise it finds the first edge that carries it |
| EdgeEditor.FindEdge | CodeSample/Private/EdgeEditor.cpp:120 | a found edge belongs to the puzzle and carries the name; none is found exactly when no edge carries it |
| EdgeEditor.FindEdgeIsFirst | CodeSample/Private/EdgeEditor.cpp:120 | no edge before the one found carries the name |
| EdgeEditor.TargetEdgeMeaning | CodeSample/Private/EdgeEditor.cpp:119-128 | there is a target exactly when the button does not abort and an owner edge has the name; the target edge alone gets the moveset; without a target no edge gets anything |
| EdgeEditor.FirstIdSnoc | CodeSample/Private/EdgeEditor.cpp:147-150 | the start id is set once: a later id counts only while the start id is still -1 |
| EdgeEditor.FirstIdUnset | CodeSample/Private/EdgeEditor.cpp:147-150 | the start id stays -1 exactly when every selected id is -1 |
| EdgeEditor.FirstIdFound | CodeSample/Private/EdgeEditor.cpp:147-150 | a start id other than -1 is a selected id, and every selected id before it is -1 |
| EdgeEditor.FirstIdNoSentinel | CodeSample/Private/EdgeEditor.cpp:147-150 | when no id is -1, the start id is the first selected id |
| EdgeEditor.SelectedIdsConcat | CodeSample/Private/EdgeEditor.cpp:104-107 | the ids of a concatenated selection are the ids of its parts, in order |
| EdgeEditor.SelectedIdsMembers | CodeSample/Private/EdgeEditor.cpp:139-145 | the order holds exactly the ids of the selected pieces |
| EdgeEditor.OtherObjectIgnored | CodeSample/Private/EdgeEditor.cpp:139-140 | an object that is not a piece changes neither the ids nor the owner nor the moveset |
| EdgeEditor.UnselectedPieceAddsNoId | CodeSample/Private/EdgeEditor.cpp:142-145 | an unselected piece adds no id, yet it becomes the owner |
| EdgeEditor.LastOwnerIsLastPiece | CodeSample/Private/EdgeEditor.cpp:142 | the owner is that of the last piece of the selection, selected or not, and none without pieces |
| EdgeEditor.LastOwnerIsAPieceOwner | CodeSample/Private/EdgeEditor.cpp:142 | a recorded owner is the owner of some piece of the selection |
| EdgeEditor.MovesetClosesCycle | CodeSample/Private/EdgeEditor.cpp:109-117 | when the button goes on, the moveset is the selected ids followed by the start id, which is a selected id other than -1 |
| EdgeEditor.MovesetPresent | CodeSample/Private/EdgeEditor.cpp:109-113 | the button goes on exactly when an owner was recorded and some selected id differs from -1 |
| EdgeEditor.MovesetNoSentinel | CodeSample/Private/EdgeEditor.cpp:104-117 | when no id is -1, the moveset is the ids with the first one repeated at the end |
| EdgeEditor.MovesetExample | CodeSample/Private/EdgeEditor.cpp:104-117 | pieces 3, 1, 2, with another object in between, give the moveset [3, 1, 2, 3] |

## Left out

- The editor UI of the edge editor is not modelled: tab spawner, menu and toolbar extensions, widgets and `PluginButtonClicked` (EdgeEditor.cpp outside lines 87-157). It is presentation only.
- Logging and on-screen debug messages are not modelled. They have no effect on state.
- The engine singletons and globals are not modelled as such. The `UInputSettings` singleton and the `GEditor` selection are passed in as parameters (`settings`, `objects`), and the owner returned by `GetOwner()` is a constant of the component.
- `Cast<>` and interface dispatch are not modelled. They become tagged values: an `Owner` is a visual puzzle or something else, a `SelectedObject` is a piece or something else, and a receiver's `GetReceiverName` is its `receiverName` field.
- `GetPuzzleName` and `GetComponentsByInterface` are not modelled: the visual puzzle's name and its list of receiver components are fields of `Owner.VisualPuzzle`, in enumeration order.
- Memory reclamation is not modelled: `MarkPendingKill` only sets a `disposed` flag.
- Removing old bindings is not modelled: the input component keeps an append-only log of bindings, and the source never removes any.
- `FName` semantics are not modelled. Names are compared as exact strings; the engine's case-insensitive comparison and its number suffixes are not modelled.
- Modifier flags on key mappings are not modelled. A key mapping is reduced to an action name and a key, so "equal mappings" in `RemoveActionMapping` means equal name and key.
- EngineInput.InputSettings.GetActionMappingByName: the engine's own implementation is not part of this model. The lookup returns matches in table order. If the engine enumerates in reverse, the key `RemoveDuplicateActions` carries over is that of the first stored mapping under the id rather than the last.
- EngineInput.InputSettings.AddActionMapping is modelled as a plain append, although the engine adds only unique entries. Here the two agree, because every mapping under that id has just been removed. The keymap rebuild flag is not modelled.
- InputDirector.ActionExecuter.ExecuteAction requires a receiver, where the source calls through it unchecked. It returns the `ReceiveInput` call as a value, because the receiver's handler is outside this model.
- InputDirector.InputDirectorComponent.BindPuzzleAction writes the updated entry back once, after `RemoveDuplicateActions`. The source updates the entry through a reference at each step. The two are indistinguishable, because nothing reads the entry in between.
- EdgeEditor.EdgeEditorModule.AddEdgeMoveset requires a recorded owner that is a puzzle whenever the button goes on. The source casts the owner to a puzzle and calls it without checking.
- EdgeEditor.EdgeEditorModule.AddEdgeMoveset also requires the owner's edges to be allocated. Every object a caller can name is allocated; Dafny needs the clause to speak of the edges' state before the call.
- EdgeEditor.EdgeEditorModule.AddEdgeMoveset does not model a null behaviour object: the source reaches the moveset list through `Edge->GetBehavior()` without a null check (EdgeEditor.cpp:128).
- EdgeEditor.EdgeEditorModule.constructor starts from the empty edge name. The source's default `EdgeName` is `NAME_None`. Because names are compared as exact strings here, the engine's rule that `FName("")` and `FName("None")` both equal `NAME_None` is not modelled.
- InputDirector.InputDirectorComponent.BindPuzzleActions does not model a null input component. The source dereferences it only when a receiver matches (SIInputDirectorComponent.cpp:53). So with no matching receiver, a null component still lets the table and the mapping table be updated. In the model the component is always an object.
- `ASIPuzzleBase::GetEdgeByName` is not part of this model, so `Actor.GetEdgeByName` is modelled as the first edge carrying the name.
- The moveset list belongs to the edge's behaviour object in the source. The model keeps it directly on `PuzzleEdge`.
- The `int64` width of piece ids and the `FReply` return value are not modelled. Ids are unbounded integers and are only compared and copied. The reply is always `Handled`.
- The `-1` sentinel is modelled as written: a selected piece with id -1 is still added to the order, but can never become the start id.
