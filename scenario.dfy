/** A walk through the editor on a small scene, checked from the contracts of
    the window's methods alone: root buttons A, B and C and a prefab asset, of
    which only B carries a component, a complete one (audio source 10, clip
    20). */
module Scenario {
  import opened Wrappers
  import opened SceneModel
  import opened Queries
  import opened Window

  const A := Button(1, NotPrefab, Transform("A", true, ""))
  const B := Button(2, NotPrefab, Transform("B", true, ""))
  const C := Button(3, PrefabInstance, Transform("C", true, ""))
  const Asset := Button(4, Prefab, Transform("Asset", true, ""))
  const BSound := ClickSound(Some(10), Some(20))

  /** The prefab asset is not listed; the scene objects are, in order. */
  lemma ListedButtons()
    ensures GetButtons([A, B, C, Asset]) == [A, B, C]
  {
    assert GetButtons([Asset]) == [] by { assert [Asset][1..] == []; }
    assert GetButtons([C, Asset]) == [C] by { assert [C, Asset][1..] == [Asset]; }
    assert GetButtons([B, C, Asset]) == [B, C] by { assert [B, C, Asset][1..] == [C, Asset]; }
    assert [A, B, C, Asset][1..] == [B, C, Asset];
  }

  /** Only B's component is collected. */
  lemma CollectedClickSounds()
    ensures GetButtonClickSounds([A, B, C], map[2 := BSound]) == [BSound]
  {
    var m := map[2 := BSound];
    assert GetButtonClickSounds([C], m) == [] by { assert [C][1..] == []; }
    assert GetButtonClickSounds([B, C], m) == [BSound] by { assert [B, C][1..] == [C]; }
    assert [A, B, C][1..] == [B, C];
  }

  /** The defaults seeded from B's component are its references. */
  lemma SeededFromB()
    ensures GetFirstAudioSource([BSound]) == Some(10) && GetFirstClickSound([BSound]) == Some(20)
  {
  }

  /** Seeding on this scene picks B's references. */
  lemma SceneSeedsFromB()
    ensures var cs := GetButtonClickSounds(GetButtons([A, B, C, Asset]), map[2 := BSound]);
            GetFirstAudioSource(cs) == Some(10) && GetFirstClickSound(cs) == Some(20)
  {
    ListedButtons();
    CollectedClickSounds();
    SeededFromB();
  }

  /** Clearing the listed buttons after A was given B's sound. */
  lemma ClearedScene()
    ensures AllCleared(map[1 := BSound, 2 := BSound], [A, B, C]) == map[]
  {
    var m := AllCleared(map[1 := BSound, 2 := BSound], [A, B, C]);
    AllClearedUnbindsEveryButton(map[1 := BSound, 2 := BSound], [A, B, C]);
    assert A in [A, B, C] && B in [A, B, C];
    assert m.Keys == {};
  }

  method ThreeButtons()
  {
    var scene := new Scene([A, B, C, Asset], map[2 := BSound]);
    SceneListsEachButtonOnce(scene);

    // Opening the window seeds the defaults from B's component.
    var window := ButtonSoundsEditor.OpenEditor(scene, None);
    SceneSeedsFromB();
    assert window.audioSource == Some(10) && window.clickSound == Some(20);

    AddThenClearAll(window);
    assert scene.bindings == map[];
  }

  /** "Add" on A, then "Clear all buttons" on the list. */
  method AddThenClearAll(window: ButtonSoundsEditor)
    requires window.scene.Valid() && window.scene.loaded == [A, B, C, Asset]
    requires window.scene.bindings == map[2 := BSound]
    requires window.audioSource == Some(10) && window.clickSound == Some(20)
    modifies window, window.scene
    ensures window.scene.bindings == map[]
  {
    ListedButtons();

    // "Add" on A gives A the defaults and selects A.
    window.PressAdd(A);
    assert window.scene.bindings == map[1 := BSound, 2 := BSound];
    assert window.selectedButton == Some(A);

    // "Clear all buttons" leaves no component in the scene.
    window.ClearAllButtons([A, B, C]);
    ClearedScene();
  }
}
