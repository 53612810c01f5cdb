/** Nullable references of the editor (an `AudioSource`, an `AudioClip`, the
    selected `Button`) are modelled as options: `None` stands for `null`. */
module Wrappers {
  datatype Option<+T> = None | Some(value: T)
}
