/** The button sounds editor window: its own state (the default audio source,
    the default click sound and the selected button), the per-row actions of
    the button list (Add, X, Fix, Play, the clip field), the pickers of the top
    panel, and the two bulk actions of the bottom panel. Each method is one
    user action: one GUI event presses at most one button. */
module Window {
  import opened Wrappers
  import opened SceneModel
  import opened Queries

  // ---------------------------------------------------------------------
  // Specification of the actions on the component map

  /** A component needs repair when either of its references is null; only
      then does its row offer "Fix", and exactly then does fixing it with
      both defaults set change it. */
  predicate HasErrors(c: ClickSound): (r: bool)
    ensures forall s: AudioSourceId, k: AudioClipId :: r <==> Fixed(c, Some(s), Some(k)) != c
  {
    c.audioSource.None? || c.clickSound.None?
  }

  /** The component after "Fix": each null reference is filled from the
      window's defaults, a set reference is kept. */
  function Fixed(c: ClickSound, source: Option<AudioSourceId>, clip: Option<AudioClipId>): (r: ClickSound)
    ensures c.audioSource.Some? ==> r.audioSource == c.audioSource
    ensures c.clickSound.Some? ==> r.clickSound == c.clickSound
    ensures c.audioSource.None? ==> r.audioSource == source
    ensures c.clickSound.None? ==> r.clickSound == clip
  {
    ClickSound(
      if c.audioSource.None? then source else c.audioSource,
      if c.clickSound.None? then clip else c.clickSound)
  }

  /** Fixing a fixed component changes nothing. */
  lemma FixIdempotent(c: ClickSound, source: Option<AudioSourceId>, clip: Option<AudioClipId>)
    ensures Fixed(Fixed(c, source, clip), source, clip) == Fixed(c, source, clip)
  {
  }

  /** With both defaults set, "Fix" repairs the component, and a complete
      component is left as it is. */
  lemma FixRepairs(c: ClickSound, source: Option<AudioSourceId>, clip: Option<AudioClipId>)
    ensures source.Some? && clip.Some? ==> !HasErrors(Fixed(c, source, clip))
    ensures !HasErrors(c) ==> Fixed(c, source, clip) == c
  {
  }

  /** The ids of the listed buttons. */
  function Ids(buttons: seq<Button>): set<ButtonId>
  {
    set b | b in buttons :: b.id
  }

  /** The loop of "Add click sound to all buttons", button by button: a
      button without a component gets one, a button with one has it
      reassigned, and either way it ends up as `c`. */
  function AllAssigned(bindings: map<ButtonId, ClickSound>, buttons: seq<Button>, c: ClickSound): (r: map<ButtonId, ClickSound>)
    ensures bindings.Keys <= r.Keys
    decreases buttons
  {
    if buttons == [] then bindings
    else
      AllAssigned(bindings[buttons[0].id := c], buttons[1..], c)
  }

  /** One turn of the add-to-all loop. */
  lemma AllAssignedStep(bindings: map<ButtonId, ClickSound>, buttons: seq<Button>, i: nat, c: ClickSound)
    requires i < |buttons|
    ensures AllAssigned(bindings, buttons[i..], c) == AllAssigned(bindings[buttons[i].id := c], buttons[i + 1..], c)
  {
    assert buttons[i..][0] == buttons[i] && buttons[i..][1..] == buttons[i + 1..];
  }

  lemma IdsCons(buttons: seq<Button>)
    requires buttons != []
    ensures Ids(buttons) == {buttons[0].id} + Ids(buttons[1..])
  {
    forall id | id in Ids(buttons) ensures id in {buttons[0].id} + Ids(buttons[1..]) {
      var x :| x in buttons && x.id == id;
      if x != buttons[0] {
        var k :| 0 <= k < |buttons| && buttons[k] == x;
        assert buttons[1..][k - 1] == x;
      }
    }
  }

  /** The loop overwrites exactly the listed buttons' entries with `c`. */
  lemma {:induction false} AllAssignedOverwrites(bindings: map<ButtonId, ClickSound>, buttons: seq<Button>, c: ClickSound)
    ensures AllAssigned(bindings, buttons, c) == bindings + (map id | id in Ids(buttons) :: c)
    decreases buttons
  {
    if buttons == [] {
      assert Ids(buttons) == {};
      assert bindings + (map id | id in Ids(buttons) :: c) == bindings;
    } else {
      var b, rest := buttons[0], buttons[1..];
      AllAssignedOverwrites(bindings[b.id := c], rest, c);
      IdsCons(buttons);
      OverrideCons(bindings, b.id, Ids(rest), c);
    }
  }

  lemma OverrideCons(m: map<ButtonId, ClickSound>, first: ButtonId, ids: set<ButtonId>, c: ClickSound)
    ensures m[first := c] + (map id | id in ids :: c) == m + (map id | id in {first} + ids :: c)
  {
    var lhs := m[first := c] + (map id | id in ids :: c);
    var rhs := m + (map id | id in {first} + ids :: c);
    assert lhs.Keys == rhs.Keys;
    assert forall id :: id in lhs ==> lhs[id] == rhs[id];
  }

  /** After "Add click sound to all buttons" every listed button carries
      `c`, whether it had a component or not, and every other button keeps
      what it had. */
  lemma AllAssignedBindsEveryButton(bindings: map<ButtonId, ClickSound>, buttons: seq<Button>, c: ClickSound)
    ensures forall b :: b in buttons ==> b.id in AllAssigned(bindings, buttons, c) && AllAssigned(bindings, buttons, c)[b.id] == c
    ensures forall id :: id !in Ids(buttons) ==> (id in AllAssigned(bindings, buttons, c) <==> id in bindings)
    ensures forall id :: id !in Ids(buttons) && id in bindings ==> AllAssigned(bindings, buttons, c)[id] == bindings[id]
  {
    AllAssignedOverwrites(bindings, buttons, c);
  }

  /** Applying to all a second time gives the same components. */
  lemma AllAssignedIdempotent(bindings: map<ButtonId, ClickSound>, buttons: seq<Button>, c: ClickSound)
    ensures AllAssigned(AllAssigned(bindings, buttons, c), buttons, c) == AllAssigned(bindings, buttons, c)
  {
    AllAssignedOverwrites(bindings, buttons, c);
    AllAssignedOverwrites(AllAssigned(bindings, buttons, c), buttons, c);
  }

  /** The loop of "Clear all buttons", button by button: a component that
      is there is destroyed. */
  function AllCleared(bindings: map<ButtonId, ClickSound>, buttons: seq<Button>): (r: map<ButtonId, ClickSound>)
    ensures r.Keys == bindings.Keys - Ids(buttons)
    decreases buttons
  {
    if buttons == [] then bindings
    else
      IdsCons(buttons);
      AllCleared(bindings - {buttons[0].id}, buttons[1..])
  }

  /** One turn of the clear-all loop. */
  lemma AllClearedStep(bindings: map<ButtonId, ClickSound>, buttons: seq<Button>, i: nat)
    requires i < |buttons|
    ensures AllCleared(bindings, buttons[i..]) == AllCleared(bindings - {buttons[i].id}, buttons[i + 1..])
  {
    assert buttons[i..][0] == buttons[i] && buttons[i..][1..] == buttons[i + 1..];
  }

  /** The loop removes exactly the listed buttons' entries. */
  lemma {:induction false} AllClearedRemoves(bindings: map<ButtonId, ClickSound>, buttons: seq<Button>)
    ensures AllCleared(bindings, buttons) == bindings - Ids(buttons)
    decreases buttons
  {
    if buttons == [] {
      assert Ids(buttons) == {};
      assert bindings - Ids(buttons) == bindings;
    } else {
      var b, rest := buttons[0], buttons[1..];
      AllClearedRemoves(bindings - {b.id}, rest);
      IdsCons(buttons);
      assert bindings - {b.id} - Ids(rest) == bindings - Ids(buttons);
    }
  }

  /** After "Clear all buttons" no listed button carries a component, and
      every other button keeps what it had, a missing one included. */
  lemma AllClearedUnbindsEveryButton(bindings: map<ButtonId, ClickSound>, buttons: seq<Button>)
    ensures forall b :: b in buttons ==> b.id !in AllCleared(bindings, buttons)
    ensures forall id :: id !in Ids(buttons) ==> (id in AllCleared(bindings, buttons) <==> id in bindings)
    ensures forall id :: id in AllCleared(bindings, buttons) ==> AllCleared(bindings, buttons)[id] == bindings[id]
  {
    AllClearedRemoves(bindings, buttons);
  }

  /** The bulk actions run over the listed buttons, so a found prefab asset
      keeps what it had. */
  lemma BulkActionsSkipPrefabAssets(bindings: map<ButtonId, ClickSound>, found: seq<Button>, c: ClickSound, asset: Button)
    requires UniqueIds(found) && asset in found && asset.prefabType == Prefab
    ensures asset.id in AllAssigned(bindings, GetButtons(found), c) <==> asset.id in bindings
    ensures asset.id in bindings ==> AllAssigned(bindings, GetButtons(found), c)[asset.id] == bindings[asset.id]
    ensures asset.id in AllCleared(bindings, GetButtons(found)) <==> asset.id in bindings
    ensures asset.id in bindings ==> AllCleared(bindings, GetButtons(found))[asset.id] == bindings[asset.id]
  {
    PrefabAssetNotListed(found, asset);
    assert asset.id !in Ids(GetButtons(found));
    AllAssignedBindsEveryButton(bindings, GetButtons(found), c);
    AllClearedUnbindsEveryButton(bindings, GetButtons(found));
  }

  /** No prefab asset among the found objects gains, loses or changes a
      component between `before` and `after`. */
  ghost predicate PrefabAssetsKept(found: seq<Button>, before: map<ButtonId, ClickSound>, after: map<ButtonId, ClickSound>)
  {
    forall asset :: asset in found && asset.prefabType == Prefab ==>
      && (asset.id in after <==> asset.id in before)
      && (asset.id in before ==> after[asset.id] == before[asset.id])
  }

  /** "Add click sound to all buttons" keeps every found prefab asset's
      component as it was. */
  lemma AllAssignedKeepsPrefabAssets(bindings: map<ButtonId, ClickSound>, found: seq<Button>, c: ClickSound)
    requires UniqueIds(found)
    ensures PrefabAssetsKept(found, bindings, AllAssigned(bindings, GetButtons(found), c))
  {
    forall asset | asset in found && asset.prefabType == Prefab {
      BulkActionsSkipPrefabAssets(bindings, found, c, asset);
    }
  }

  /** "Clear all buttons" keeps every found prefab asset's component as it
      was. */
  lemma AllClearedKeepsPrefabAssets(bindings: map<ButtonId, ClickSound>, found: seq<Button>)
    requires UniqueIds(found)
    ensures PrefabAssetsKept(found, bindings, AllCleared(bindings, GetButtons(found)))
  {
    forall asset | asset in found && asset.prefabType == Prefab {
      BulkActionsSkipPrefabAssets(bindings, found, ClickSound(None, None), asset);
    }
  }

  /** After "Add" on a button, listing that button's components gives
      exactly one, holding the defaults. */
  lemma AddedListsDefaults(bindings: map<ButtonId, ClickSound>, button: Button, c: ClickSound)
    ensures GetButtonClickSounds([button], bindings[button.id := c]) == [c]
  {
    assert [button][1..] == [];
  }

  /** The seeded default audio source is null exactly when no listed
      button's component has one, and otherwise is that of some listed
      button's component. */
  lemma SeededAudioSource(buttons: seq<Button>, bindings: map<ButtonId, ClickSound>)
    ensures var r := GetFirstAudioSource(GetButtonClickSounds(buttons, bindings));
            && (r.None? <==> forall b :: b in buttons && b.id in bindings ==> bindings[b.id].audioSource.None?)
            && (r.Some? ==> exists b :: b in buttons && b.id in bindings && bindings[b.id].audioSource == r)
  {
    var cs := GetButtonClickSounds(buttons, bindings);
    var r := GetFirstAudioSource(cs);
    if r.None? {
      forall b | b in buttons && b.id in bindings ensures bindings[b.id].audioSource.None? {
        assert bindings[b.id] in cs;
      }
    } else {
      var i :| 0 <= i < |cs| && cs[i].audioSource == r;
      assert cs[i] in cs;
    }
  }

  /** The same for the seeded default click sound. */
  lemma SeededClickSound(buttons: seq<Button>, bindings: map<ButtonId, ClickSound>)
    ensures var r := GetFirstClickSound(GetButtonClickSounds(buttons, bindings));
            && (r.None? <==> forall b :: b in buttons && b.id in bindings ==> bindings[b.id].clickSound.None?)
            && (r.Some? ==> exists b :: b in buttons && b.id in bindings && bindings[b.id].clickSound == r)
  {
    var cs := GetButtonClickSounds(buttons, bindings);
    var r := GetFirstClickSound(cs);
    if r.None? {
      forall b | b in buttons && b.id in bindings ensures bindings[b.id].clickSound.None? {
        assert bindings[b.id] in cs;
      }
    } else {
      var i :| 0 <= i < |cs| && cs[i].clickSound == r;
      assert cs[i] in cs;
    }
  }

  /** After "Clear all buttons" the listed buttons have no components left. */
  lemma AllClearedListsNothing(bindings: map<ButtonId, ClickSound>, buttons: seq<Button>)
    ensures GetButtonClickSounds(buttons, AllCleared(bindings, buttons)) == []
  {
    AllClearedUnbindsEveryButton(bindings, buttons);
  }

  /** After "Add click sound to all buttons" every listed button's component
      is the defaults, so seeding from them gives the defaults back when the
      list is not empty. */
  lemma AllAssignedSeedsDefaults(bindings: map<ButtonId, ClickSound>, buttons: seq<Button>, source: AudioSourceId, clip: AudioClipId)
    requires buttons != []
    ensures var cs := GetButtonClickSounds(buttons, AllAssigned(bindings, buttons, ClickSound(Some(source), Some(clip))));
            GetFirstAudioSource(cs) == Some(source) && GetFirstClickSound(cs) == Some(clip)
  {
    var c := ClickSound(Some(source), Some(clip));
    AllAssignedBindsEveryButton(bindings, buttons, c);
    var m := AllAssigned(bindings, buttons, c);
    var cs := GetButtonClickSounds(buttons, m);
    assert buttons[0].id in m;
    assert cs != [];
    assert forall x :: x in cs ==> x == c;
    assert cs[0] in cs;
  }

  // ---------------------------------------------------------------------
  // The window

  class ButtonSoundsEditor {
    /** The default audio source (`_audioSource`). */
    var audioSource: Option<AudioSourceId>
    /** The default click sound (`_clickSound`). */
    var clickSound: Option<AudioClipId>
    /** The selected button (`_selectedButton`). */
    var selectedButton: Option<Button>
    /** The scene the window edits. */
    const scene: Scene

    /** A window newly created by `GetWindow`: its fields are all null. */
    constructor (scene: Scene)
      ensures this.scene == scene
      ensures audioSource == None && clickSound == None && selectedButton == None
    {
      this.scene := scene;
      audioSource, clickSound, selectedButton := None, None, None;
    }

    /** The listed buttons' components, in button order. */
    function ClickSounds(): (cs: seq<ClickSound>)
      reads this, scene
      ensures forall c :: c in cs ==> exists b :: b in GetButtons(scene.loaded) && b.id in scene.bindings && scene.bindings[b.id] == c
    {
      GetButtonClickSounds(GetButtons(scene.loaded), scene.bindings)
    }

    /** Seeds the defaults from the first listed component that has each
        reference set. */
    method Initialize()
      modifies this
      ensures audioSource == GetFirstAudioSource(ClickSounds())
      ensures clickSound == GetFirstClickSound(ClickSounds())
      ensures selectedButton == old(selectedButton)
    {
      var buttons := GetButtons(scene.loaded);
      var clickSounds := GetButtonClickSounds(buttons, scene.bindings);
      audioSource := GetFirstAudioSource(clickSounds);
      clickSound := GetFirstClickSound(clickSounds);
    }

    /** The "Audio source" object field. */
    method PickAudioSource(source: Option<AudioSourceId>)
      modifies this`audioSource
      ensures audioSource == source
    {
      audioSource := source;
    }

    /** The "Create" button: a new audio source object becomes the default. */
    method CreateAudioSource(created: AudioSourceId)
      modifies this`audioSource
      ensures audioSource == Some(created)
    {
      audioSource := Some(created);
    }

    /** The "Click sound" object field. */
    method PickClickSound(clip: Option<AudioClipId>)
      modifies this`clickSound
      ensures clickSound == clip
    {
      clickSound := clip;
    }

    /** Selects a button; no component and no default changes. */
    method SelectButton(button: Button)
      modifies this`selectedButton
      ensures selectedButton == Some(button)
      ensures audioSource == old(audioSource) && clickSound == old(clickSound)
    {
      selectedButton := Some(button);
    }

    /** Sets both references of an existing component to the defaults. */
    method AssignClickSound(id: ButtonId)
      requires id in scene.bindings
      modifies scene`bindings
      ensures scene.bindings == old(scene.bindings)[id := ClickSound(audioSource, clickSound)]
    {
      scene.bindings := scene.bindings[id := ClickSound(audioSource, clickSound)];
    }

    /** Attaches a component set to the defaults to a button that has none;
        no other button's component changes. */
    method AddButtonClickSound(button: Button)
      requires button.id !in scene.bindings
      modifies scene`bindings
      ensures scene.bindings == old(scene.bindings)[button.id := ClickSound(audioSource, clickSound)]
    {
      scene.bindings := scene.bindings[button.id := ClickSound(None, None)];
      AssignClickSound(button.id);
    }

    /** The row's "Add" button, offered when the button has no component. */
    method PressAdd(button: Button)
      requires button in GetButtons(scene.loaded)
      requires button.id !in scene.bindings
      modifies this`selectedButton, scene`bindings
      ensures scene.bindings == old(scene.bindings)[button.id := ClickSound(audioSource, clickSound)]
      ensures selectedButton == Some(button)
      ensures audioSource == old(audioSource) && clickSound == old(clickSound)
    {
      AddButtonClickSound(button);
      SelectButton(button);
    }

    /** The row's clip field, shown when the button has a component. */
    method EditClip(button: Button, clip: Option<AudioClipId>)
      requires button in GetButtons(scene.loaded)
      requires button.id in scene.bindings
      modifies scene`bindings
      ensures scene.bindings == old(scene.bindings)[button.id := old(scene.bindings[button.id]).(clickSound := clip)]
    {
      var c := scene.bindings[button.id];
      scene.bindings := scene.bindings[button.id := c.(clickSound := clip)];
    }

    /** The row's "X" button: removes that button's component only, and
        selects the button. */
    method PressRemove(button: Button)
      requires button in GetButtons(scene.loaded)
      requires button.id in scene.bindings
      modifies this`selectedButton, scene`bindings
      ensures scene.bindings == old(scene.bindings) - {button.id}
      ensures selectedButton == Some(button)
      ensures audioSource == old(audioSource) && clickSound == old(clickSound)
    {
      scene.bindings := scene.bindings - {button.id};
      SelectButton(button);
    }

    /** The row's "Fix" button, offered when the component has a null
        reference: fills only the null references from the defaults. */
    method PressFix(button: Button)
      requires button in GetButtons(scene.loaded)
      requires button.id in scene.bindings && HasErrors(scene.bindings[button.id])
      modifies scene`bindings
      ensures scene.bindings == old(scene.bindings)[button.id := Fixed(old(scene.bindings[button.id]), audioSource, clickSound)]
    {
      var c := scene.bindings[button.id];
      if c.audioSource.None? {
        c := c.(audioSource := audioSource);
      }
      if c.clickSound.None? {
        c := c.(clickSound := clickSound);
      }
      scene.bindings := scene.bindings[button.id := c];
    }

    /** The row's "Play" button, offered when the component is complete:
        the clip is played (not modelled) and the button selected. */
    method PressPlay(button: Button)
      requires button in GetButtons(scene.loaded)
      requires button.id in scene.bindings && !HasErrors(scene.bindings[button.id])
      modifies this`selectedButton
      ensures selectedButton == Some(button)
    {
      SelectButton(button);
    }

    /** "Add click sound to all buttons", enabled only when a default click
        sound is set. */
    method AddClickSoundToAllButtons(buttons: seq<Button>)
      requires scene.Valid() && buttons == GetButtons(scene.loaded)
      requires clickSound.Some?
      modifies scene`bindings
      ensures scene.bindings == AllAssigned(old(scene.bindings), buttons, ClickSound(audioSource, clickSound))
      ensures PrefabAssetsKept(scene.loaded, old(scene.bindings), scene.bindings)
    {
      ghost var initial := scene.bindings;
      ghost var c := ClickSound(audioSource, clickSound);
      ghost var target := AllAssigned(scene.bindings, buttons, c);
      AllAssignedKeepsPrefabAssets(initial, scene.loaded, c);
      var i := 0;
      while i < |buttons|
        invariant 0 <= i <= |buttons|
        invariant AllAssigned(scene.bindings, buttons[i..], c) == target
      {
        var button := buttons[i];
        AllAssignedStep(scene.bindings, buttons, i, c);
        if button.id !in scene.bindings {
          AddButtonClickSound(button);
        } else {
          AssignClickSound(button.id);
        }
        i := i + 1;
      }
      assert scene.bindings == target by { assert buttons[i..] == []; }
    }

    /** "Clear all buttons": destroys the component of every listed button
        that has one. */
    method ClearAllButtons(buttons: seq<Button>)
      requires scene.Valid() && buttons == GetButtons(scene.loaded)
      modifies scene`bindings
      ensures scene.bindings == AllCleared(old(scene.bindings), buttons)
      ensures PrefabAssetsKept(scene.loaded, old(scene.bindings), scene.bindings)
    {
      ghost var initial := scene.bindings;
      ghost var target := AllCleared(scene.bindings, buttons);
      AllClearedKeepsPrefabAssets(initial, scene.loaded);
      var i := 0;
      while i < |buttons|
        invariant 0 <= i <= |buttons|
        invariant AllCleared(scene.bindings, buttons[i..]) == target
      {
        var button := buttons[i];
        AllClearedStep(scene.bindings, buttons, i);
        if button.id in scene.bindings {
          scene.bindings := scene.bindings - {button.id};
        } else {
          assert scene.bindings - {button.id} == scene.bindings;
        }
        i := i + 1;
      }
      assert scene.bindings == target by { assert buttons[i..] == []; }
    }

    /** `OpenEditor`: `GetWindow` gives the window already open, if there is
        one, and a new one otherwise; either way its defaults are seeded
        again from the scene. A reopened window keeps its selection. */
    static method OpenEditor(scene: Scene, open: Option<ButtonSoundsEditor>) returns (window: ButtonSoundsEditor)
      requires open.Some? ==> open.value.scene == scene
      modifies if open.Some? then {open.value} else {}
      ensures open.None? ==> fresh(window) && window.selectedButton == None
      ensures open.Some? ==> window == open.value && window.selectedButton == old(open.value.selectedButton)
      ensures window.scene == scene
      ensures window.audioSource == GetFirstAudioSource(window.ClickSounds())
      ensures window.clickSound == GetFirstClickSound(window.ClickSounds())
    {
      if open.Some? {
        window := open.value;
      } else {
        window := new ButtonSoundsEditor(scene);
      }
      window.Initialize();
    }
  }
}
