# Button sounds editor — a Dafny model

The button sounds editor is an editor window for a game engine. It lists the
`Button` objects of the open scene, shows whether each carries a
`ButtonClickSound` component (a reference to an audio source and one to an
audio clip), and lets the developer add, repair, remove or bulk-assign those
components from two window-wide defaults: a default audio source and a default
click sound.

This project models the state machine inside the window's drawing code:

- `wrappers.dfy`: `Option`, which stands for a nullable engine reference.
- `scene.dfy` (module `SceneModel`): the host scene, reduced to what the
  window uses. It holds the loaded buttons (id, prefab type, transform) and
  one map from button id to its `ButtonClickSound` component. A map gives
  at most one component per button.
- `queries.dfy` (module `Queries`): the LINQ queries as functions.
  These are discovery (`GetButtons`), collecting the components
  (`GetButtonClickSounds`), seeding the defaults (`GetFirstAudioSource`,
  `GetFirstClickSound`), the hierarchy path (`GetTransformPath`) and the
  ordering of the list by that path.
- `window.dfy` (module `Window`): the class `ButtonSoundsEditor` with
  the window's fields `_audioSource`, `_clickSound` and `_selectedButton`.
  Each user action is a method: the pickers and "Create" of the top panel;
  "Add", the clip field, "X", "Fix" and "Play" of a row; the two bulk buttons
  of the bottom panel. Beside them sit the functions that specify the bulk
  loops and the lemmas about them.
- `scenario.dfy` (module `Scenario`): a client that walks through a small
  scene. It opens the window, adds a sound to a button and clears all
  buttons, and checks the outcome from the methods' contracts alone.

One GUI event presses at most one button, so each method is one event.

Only objects whose `PrefabUtility.GetPrefabType` is exactly `Prefab` are
dropped from the list (line 36). Model prefab assets (`ModelPrefab`) and
prefab instances stay in it.

## Model

| member | source | states |
|---|---|---|
| Queries.GetButtons | ButtonSoundsEditor/Assets/Plugins/ButtonSoundsEditor/Editor/ButtonSoundsEditor.cs:34-37 | a button is listed iff it was found and its prefab type is not `Prefab`; never more buttons than found |
| Queries.GetButtonsAppend | ButtonSoundsEditor/Assets/Plugins/ButtonSoundsEditor/Editor/ButtonSoundsEditor.cs:34-37 | the filter keeps relative order: it distributes over concatenation |
| Queries.GetButtonsDistinct | ButtonSoundsEditor/Assets/Plugins/ButtonSoundsEditor/Editor/ButtonSoundsEditor.cs:34-37 | when every found object is distinct, no button is listed twice |
| Queries.SceneListsEachButtonOnce | ButtonSoundsEditor/Assets/Plugins/ButtonSoundsEditor/Editor/ButtonSoundsEditor.cs:34-37 | a scene whose loaded objects are found once each is valid, and its window lists each button once |
| Queries.PrefabAssetNotListed | ButtonSoundsEditor/Assets/Plugins/ButtonSoundsEditor/Editor/ButtonSoundsEditor.cs:34-37 | when an id names one found object, no listed button carries the id of a found `Prefab` asset |
| Queries.GetButtonClickSounds | ButtonSoundsEditor/Assets/Plugins/ButtonSoundsEditor/Editor/ButtonSoundsEditor.cs:39-42 | a component is in the result iff some listed button carries it; the result is empty iff no listed button has a component; at most one entry per button |
| Queries.GetButtonClickSoundsAppend | ButtonSoundsEditor/Assets/Plugins/ButtonSoundsEditor/Editor/ButtonSoundsEditor.cs:39-42 | the components come in button order: collecting distributes over concatenation |
| Queries.FirstNonNull | ButtonSoundsEditor/Assets/Plugins/ButtonSoundsEditor/Editor/ButtonSoundsEditor.cs:84-94 | the `FirstOrDefault` search: `None` iff no reference is set, otherwise the reference at the first index where one is set |
| Queries.GetFirstAudioSource | ButtonSoundsEditor/Assets/Plugins/ButtonSoundsEditor/Editor/ButtonSoundsEditor.cs:84-88 | null iff no component has an audio source; otherwise the audio source of the first component that has one |
| Queries.GetFirstClickSound | ButtonSoundsEditor/Assets/Plugins/ButtonSoundsEditor/Editor/ButtonSoundsEditor.cs:90-94 | null iff no component has a clip; otherwise the clip of the first component that has one |
| Queries.GetTransformPath | ButtonSoundsEditor/Assets/Plugins/ButtonSoundsEditor/Editor/ButtonSoundsEditor.cs:309-315 | the root's name is a prefix of the path, and the path is exactly the root's name iff the transform is the root |
| Queries.SplitRootOfTransformPath | ButtonSoundsEditor/Assets/Plugins/ButtonSoundsEditor/Editor/ButtonSoundsEditor.cs:309-315 | when the root's name has no `/`, the path splits back into the root's name and, below the root, the relative path: the path is root name, `/`, relative path |
| Queries.PathOf | ButtonSoundsEditor/Assets/Plugins/ButtonSoundsEditor/Editor/ButtonSoundsEditor.cs:125 | the sort key of a button is its transform path, which starts with its root's name |
| Queries.InsertByPath | ButtonSoundsEditor/Assets/Plugins/ButtonSoundsEditor/Editor/ButtonSoundsEditor.cs:125 | inserting into a list sorted by path gives a sorted list with the same buttons plus the new one |
| Queries.OrderByPath | ButtonSoundsEditor/Assets/Plugins/ButtonSoundsEditor/Editor/ButtonSoundsEditor.cs:125 | the displayed list is sorted ascending by path under any total preorder on strings, and is a permutation of the buttons |
| Queries.InsertByPathStable | ButtonSoundsEditor/Assets/Plugins/ButtonSoundsEditor/Editor/ButtonSoundsEditor.cs:125 | the inserted button lands in front of every button whose path the comparison ranks equal to its own, and the others in that class keep their order |
| Queries.OrderByPathStable | ButtonSoundsEditor/Assets/Plugins/ButtonSoundsEditor/Editor/ButtonSoundsEditor.cs:125 | `OrderBy` is stable: the buttons whose paths the comparison ranks equal appear in the displayed list in their input order |
| Window.HasErrors | ButtonSoundsEditor/Assets/Plugins/ButtonSoundsEditor/Editor/ButtonSoundsEditor.cs:179 | "Fix" is offered exactly when fixing the component would change it, whatever set defaults it is fixed with |
| Window.Fixed | ButtonSoundsEditor/Assets/Plugins/ButtonSoundsEditor/Editor/ButtonSoundsEditor.cs:179-191 | "Fix" keeps a set audio source or clip and turns each null one into the window's default |
| Window.FixIdempotent | ButtonSoundsEditor/Assets/Plugins/ButtonSoundsEditor/Editor/ButtonSoundsEditor.cs:184-188 | fixing twice gives what fixing once gives |
| Window.FixRepairs | ButtonSoundsEditor/Assets/Plugins/ButtonSoundsEditor/Editor/ButtonSoundsEditor.cs:179-191 | with both defaults set the fixed component has no null reference; a complete component is left as it is |
| Window.AllAssigned | ButtonSoundsEditor/Assets/Plugins/ButtonSoundsEditor/Editor/ButtonSoundsEditor.cs:282-289 | the add-to-all loop, button by button: it never removes a component |
| Window.AllAssignedOverwrites | ButtonSoundsEditor/Assets/Plugins/ButtonSoundsEditor/Editor/ButtonSoundsEditor.cs:282-289 | the add-to-all loop overwrites exactly the listed buttons' entries with the defaults, adding the missing ones |
| Window.AllAssignedBindsEveryButton | ButtonSoundsEditor/Assets/Plugins/ButtonSoundsEditor/Editor/ButtonSoundsEditor.cs:282-289 | after add-to-all every listed button carries (default source, default clip), and every other button keeps what it had |
| Window.AllAssignedIdempotent | ButtonSoundsEditor/Assets/Plugins/ButtonSoundsEditor/Editor/ButtonSoundsEditor.cs:277-290 | applying add-to-all twice gives the same components as applying it once |
| Window.AllAssignedSeedsDefaults | ButtonSoundsEditor/Assets/Plugins/ButtonSoundsEditor/Editor/ButtonSoundsEditor.cs:26-32 | after add-to-all on a non-empty list with both defaults set, seeding from the listed components gives those defaults back |
| Window.AllCleared | ButtonSoundsEditor/Assets/Plugins/ButtonSoundsEditor/Editor/ButtonSoundsEditor.cs:296-304 | the clear-all loop, button by button: afterwards the components are those there were, less those of the listed buttons |
| Window.AllClearedRemoves | ButtonSoundsEditor/Assets/Plugins/ButtonSoundsEditor/Editor/ButtonSoundsEditor.cs:296-304 | the clear-all loop removes exactly the listed buttons' entries |
| Window.AllClearedUnbindsEveryButton | ButtonSoundsEditor/Assets/Plugins/ButtonSoundsEditor/Editor/ButtonSoundsEditor.cs:294-305 | after clear-all no listed button carries a component; other buttons, with or without one, are untouched |
| Window.AllClearedListsNothing | ButtonSoundsEditor/Assets/Plugins/ButtonSoundsEditor/Editor/ButtonSoundsEditor.cs:294-305 | after clear-all, collecting the listed buttons' components gives nothing |
| Window.BulkActionsSkipPrefabAssets | ButtonSoundsEditor/Assets/Plugins/ButtonSoundsEditor/Editor/ButtonSoundsEditor.cs:277-305 | both bulk loops run over the listed buttons only, so a found `Prefab` asset keeps its component, or its lack of one |
| Window.AllAssignedKeepsPrefabAssets | ButtonSoundsEditor/Assets/Plugins/ButtonSoundsEditor/Editor/ButtonSoundsEditor.cs:277-290 | add-to-all leaves every found `Prefab` asset's component as it was |
| Window.AllClearedKeepsPrefabAssets | ButtonSoundsEditor/Assets/Plugins/ButtonSoundsEditor/Editor/ButtonSoundsEditor.cs:294-305 | clear-all leaves every found `Prefab` asset's component as it was |
| Window.AddedListsDefaults | ButtonSoundsEditor/Assets/Plugins/ButtonSoundsEditor/Editor/ButtonSoundsEditor.cs:231-243 | after "Add" on a button, collecting its components gives exactly one, holding the defaults |
| Window.SeededAudioSource | ButtonSoundsEditor/Assets/Plugins/ButtonSoundsEditor/Editor/ButtonSoundsEditor.cs:26-32 | the seeded default source is null iff no listed button's component has a source, and otherwise belongs to some listed button's component |
| Window.SeededClickSound | ButtonSoundsEditor/Assets/Plugins/ButtonSoundsEditor/Editor/ButtonSoundsEditor.cs:26-32 | the seeded default clip is null iff no listed button's component has a clip, and otherwise belongs to some listed button's component |
| SceneModel.Scene.constructor | ButtonSoundsEditor/Assets/Plugins/ButtonSoundsEditor/Editor/ButtonSoundsEditor.cs:36 | a scene over loaded objects in which each id names one object, with the given components |
| Window.ButtonSoundsEditor.constructor | ButtonSoundsEditor/Assets/Plugins/ButtonSoundsEditor/Editor/ButtonSoundsEditor.cs:20 | a new window has null defaults and no selection |
| Window.ButtonSoundsEditor.ClickSounds | ButtonSoundsEditor/Assets/Plugins/ButtonSoundsEditor/Editor/ButtonSoundsEditor.cs:28-29 | every collected component is carried by a listed button |
| Window.ButtonSoundsEditor.Initialize | ButtonSoundsEditor/Assets/Plugins/ButtonSoundsEditor/Editor/ButtonSoundsEditor.cs:26-32 | the defaults become the first source and first clip found among the listed buttons' components; the selection is kept |
| Window.ButtonSoundsEditor.OpenEditor | ButtonSoundsEditor/Assets/Plugins/ButtonSoundsEditor/Editor/ButtonSoundsEditor.cs:18-24 | `GetWindow` gives the open window, which keeps its selection, or else a fresh one with nothing selected; either way the defaults are seeded again from the listed components |
| Window.ButtonSoundsEditor.PickAudioSource | ButtonSoundsEditor/Assets/Plugins/ButtonSoundsEditor/Editor/ButtonSoundsEditor.cs:104 | the audio source field sets the default audio source and nothing else |
| Window.ButtonSoundsEditor.CreateAudioSource | ButtonSoundsEditor/Assets/Plugins/ButtonSoundsEditor/Editor/ButtonSoundsEditor.cs:107-114 | "Create" makes the newly created audio source the default |
| Window.ButtonSoundsEditor.PickClickSound | ButtonSoundsEditor/Assets/Plugins/ButtonSoundsEditor/Editor/ButtonSoundsEditor.cs:69 | the click sound field sets the default clip and nothing else |
| Window.ButtonSoundsEditor.SelectButton | ButtonSoundsEditor/Assets/Plugins/ButtonSoundsEditor/Editor/ButtonSoundsEditor.cs:225-229 | the button becomes the selected one; no component and no default changes |
| Window.ButtonSoundsEditor.AssignClickSound | ButtonSoundsEditor/Assets/Plugins/ButtonSoundsEditor/Editor/ButtonSoundsEditor.cs:238-243 | an existing component gets both defaults; no other entry changes |
| Window.ButtonSoundsEditor.AddButtonClickSound | ButtonSoundsEditor/Assets/Plugins/ButtonSoundsEditor/Editor/ButtonSoundsEditor.cs:231-236 | a button without a component gets one set to the defaults; no other entry changes |
| Window.ButtonSoundsEditor.PressAdd | ButtonSoundsEditor/Assets/Plugins/ButtonSoundsEditor/Editor/ButtonSoundsEditor.cs:160-168 | "Add", offered when the button has no component, gives it the defaults and selects it |
| Window.ButtonSoundsEditor.EditClip | ButtonSoundsEditor/Assets/Plugins/ButtonSoundsEditor/Editor/ButtonSoundsEditor.cs:172 | the row's clip field changes that component's clip only |
| Window.ButtonSoundsEditor.PressRemove | ButtonSoundsEditor/Assets/Plugins/ButtonSoundsEditor/Editor/ButtonSoundsEditor.cs:173-177 | "X" removes that button's component only and selects the button |
| Window.ButtonSoundsEditor.PressFix | ButtonSoundsEditor/Assets/Plugins/ButtonSoundsEditor/Editor/ButtonSoundsEditor.cs:179-191 | "Fix", offered when a reference is null, replaces that component with its fixed form; no other entry changes |
| Window.ButtonSoundsEditor.PressPlay | ButtonSoundsEditor/Assets/Plugins/ButtonSoundsEditor/Editor/ButtonSoundsEditor.cs:193-199 | "Play", offered when the component is complete, selects the button and changes no component |
| Window.ButtonSoundsEditor.AddClickSoundToAllButtons | ButtonSoundsEditor/Assets/Plugins/ButtonSoundsEditor/Editor/ButtonSoundsEditor.cs:277-290 | enabled only with a default clip; runs over the listed buttons; afterwards the components are those of the add-to-all loop, and every found `Prefab` asset keeps its component |
| Window.ButtonSoundsEditor.ClearAllButtons | ButtonSoundsEditor/Assets/Plugins/ButtonSoundsEditor/Editor/ButtonSoundsEditor.cs:294-305 | runs over the listed buttons; afterwards the components are those of the clear-all loop, and every found `Prefab` asset keeps its component |

## Left out

- Drawing is not modelled: layout, colours, the red tips, the scroll position, the info panel's image, text and path label (lines 48-52, 59-82, 133-142, 206-223, 245-263, 317-322). It holds no state worth proving.
- Sound playback (`PlayOneShot`, lines 75 and 197) is a side effect in the engine's audio system. "Play" is modelled only through the selection it makes.
- Marking objects and the scene dirty (lines 54, 190, 235, 242, 302) is engine persistence and is not modelled.
- Mirroring the selection into the engine's global `Selection` (lines 113, 227) is engine state and is not modelled.
- Opening the help URL (line 328) is I/O.
- CreateAudioSource: the engine builds the new object (lines 109-111, `playOnAwake` included). The model takes the new object's id as a parameter.
- The engine queries are inputs: `Resources.FindObjectsOfTypeAll` gives `Scene.loaded`, `PrefabUtility.GetPrefabType` gives `Button.prefabType`, and `AnimationUtility.CalculateTransformPath` gives `Transform.relativePath`.
- OrderByPath: the comparison is any total preorder on strings, not the culture-sensitive comparison of `OrderBy`.
- AddButtonClickSound: the engine would add a second component to a button that has one. Both callers check first (lines 160 and 285), so the method requires that the button has none.
- The window edits one scene, fixed when it is created. Switching scenes while the window is open is not modelled.
- Components are values in a map, not objects. The model therefore does not capture a component shared by reference or destroyed outside the window.
