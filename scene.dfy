/** The part of the host engine's scene that the button sounds editor reads and
    writes: the loaded `Button` objects and, per button, the optional
    `ButtonClickSound` component attached to it. */
module SceneModel {
  import opened Wrappers

  /** Object identities in the scene. */
  type ButtonId = nat
  type AudioSourceId = nat
  type AudioClipId = nat

  /** The classification that `PrefabUtility.GetPrefabType` returns (the
      engine's `PrefabType` enumeration; `NotPrefab` is its `None`). */
  datatype PrefabType =
    | NotPrefab
    | Prefab
    | ModelPrefab
    | PrefabInstance
    | ModelPrefabInstance
    | MissingPrefabInstance
    | DisconnectedPrefabInstance
    | DisconnectedModelPrefabInstance

  /** What the editor needs of a button's transform: the name of its
      hierarchy root, whether it is that root, and the path from the root
      to it as `AnimationUtility.CalculateTransformPath` computes it. */
  datatype Transform = Transform(rootName: string, isRoot: bool, relativePath: string)

  /** A `Button` object found by `Resources.FindObjectsOfTypeAll`. */
  datatype Button = Button(id: ButtonId, prefabType: PrefabType, transform: Transform)

  /** The two serialized references of a `ButtonClickSound` component. */
  datatype ClickSound = ClickSound(audioSource: Option<AudioSourceId>, clickSound: Option<AudioClipId>)

  /** Every loaded object is found once. */
  ghost predicate DistinctIds(buttons: seq<Button>)
  {
    forall i, j :: 0 <= i < j < |buttons| ==> buttons[i].id != buttons[j].id
  }

  /** An id names one object: two found objects with the same id are the
      same object. */
  ghost predicate UniqueIds(buttons: seq<Button>)
  {
    forall b1, b2 :: b1 in buttons && b2 in buttons && b1.id == b2.id ==> b1 == b2
  }

  /** The scene: the buttons loaded in the editor, and the component map.
      A button carries at most one `ButtonClickSound`, so the components
      are a map from button to component. */
  class Scene {
    const loaded: seq<Button>
    var bindings: map<ButtonId, ClickSound>

    /** Each id in the scene names one loaded object. */
    ghost predicate Valid()
    {
      UniqueIds(loaded)
    }

    constructor (loaded: seq<Button>, bindings: map<ButtonId, ClickSound>)
      requires UniqueIds(loaded)
      ensures Valid()
      ensures this.loaded == loaded && this.bindings == bindings
    {
      this.loaded := loaded;
      this.bindings := bindings;
    }
  }
}
