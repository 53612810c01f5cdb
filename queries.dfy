/** The read-only queries of the button sounds editor, written in the source
    as LINQ expressions: discovering the buttons, collecting their click
    sound components, seeding the defaults, and the hierarchy path by which
    the button list is ordered. */
module Queries {
  import opened Wrappers
  import opened SceneModel

  // ---------------------------------------------------------------------
  // Discovery

  /** The found buttons that are not prefab assets, in the order found. */
  function GetButtons(found: seq<Button>): (r: seq<Button>)
    ensures forall b :: b in r <==> b in found && b.prefabType != Prefab
    ensures |r| <= |found|
  {
    if found == [] then []
    else if found[0].prefabType == Prefab then GetButtons(found[1..])
    else [found[0]] + GetButtons(found[1..])
  }

  /** Filtering keeps the relative order: it distributes over concatenation. */
  lemma {:induction false} GetButtonsAppend(a: seq<Button>, b: seq<Button>)
    ensures GetButtons(a + b) == GetButtons(a) + GetButtons(b)
  {
    if a == [] {
      assert a + b == b;
    } else {
      assert (a + b)[0] == a[0] && (a + b)[1..] == a[1..] + b;
      GetButtonsAppend(a[1..], b);
    }
  }

  /** No live button is listed twice. */
  lemma {:induction false} GetButtonsDistinct(found: seq<Button>)
    requires DistinctIds(found)
    ensures DistinctIds(GetButtons(found))
  {
    if found != [] {
      var tail := found[1..];
      assert DistinctIds(tail) by {
        forall i, j | 0 <= i < j < |tail| ensures tail[i].id != tail[j].id {
          assert tail[i] == found[i + 1] && tail[j] == found[j + 1];
        }
      }
      GetButtonsDistinct(tail);
      if found[0].prefabType != Prefab {
        var rest := GetButtons(tail);
        forall b | b in rest ensures b.id != found[0].id {
          var k :| 0 <= k < |tail| && tail[k] == b;
          assert found[k + 1] == b;
        }
        var r := [found[0]] + rest;
        forall i, j | 0 <= i < j < |r| ensures r[i].id != r[j].id {
          if i == 0 {
            assert r[j] in rest;
          } else {
            assert r[i] == rest[i - 1] && r[j] == rest[j - 1];
          }
        }
      }
    }
  }

  /** A scene whose loaded objects are found once each is valid, and its
      window lists each button once. */
  lemma SceneListsEachButtonOnce(scene: Scene)
    requires DistinctIds(scene.loaded)
    ensures scene.Valid()
    ensures DistinctIds(GetButtons(scene.loaded))
  {
    var found := scene.loaded;
    forall b1, b2 | b1 in found && b2 in found && b1.id == b2.id ensures b1 == b2 {
      var i :| 0 <= i < |found| && found[i] == b1;
      var j :| 0 <= j < |found| && found[j] == b2;
      assert i == j;
    }
    GetButtonsDistinct(found);
  }

  /** A prefab asset is never listed, not even under the id of another
      found object, since an id names one object. */
  lemma PrefabAssetNotListed(found: seq<Button>, asset: Button)
    requires UniqueIds(found) && asset in found && asset.prefabType == Prefab
    ensures forall b :: b in GetButtons(found) ==> b.id != asset.id
  {
  }

  /** The click sound components of the given buttons, in button order;
      buttons without one contribute nothing. */
  function GetButtonClickSounds(buttons: seq<Button>, bindings: map<ButtonId, ClickSound>): (r: seq<ClickSound>)
    ensures |r| <= |buttons|
    ensures forall c :: c in r <==> exists b :: b in buttons && b.id in bindings && bindings[b.id] == c
    ensures r == [] <==> forall b :: b in buttons ==> b.id !in bindings
  {
    if buttons == [] then []
    else if buttons[0].id in bindings then [bindings[buttons[0].id]] + GetButtonClickSounds(buttons[1..], bindings)
    else GetButtonClickSounds(buttons[1..], bindings)
  }

  /** Collecting keeps the buttons' relative order. */
  lemma {:induction false} GetButtonClickSoundsAppend(a: seq<Button>, b: seq<Button>, bindings: map<ButtonId, ClickSound>)
    ensures GetButtonClickSounds(a + b, bindings) == GetButtonClickSounds(a, bindings) + GetButtonClickSounds(b, bindings)
  {
    if a == [] {
      assert a + b == b;
    } else {
      assert (a + b)[0] == a[0] && (a + b)[1..] == a[1..] + b;
      GetButtonClickSoundsAppend(a[1..], b, bindings);
    }
  }

  // ---------------------------------------------------------------------
  // Default seeding

  /** `FirstOrDefault` over non-null references: the first reference that is
      set, or `None` when none is. */
  function FirstNonNull<T>(refs: seq<Option<T>>): (r: Option<T>)
    ensures r.None? <==> forall i :: 0 <= i < |refs| ==> refs[i].None?
    ensures r.Some? ==> exists i :: 0 <= i < |refs| && refs[i] == r && forall j :: 0 <= j < i ==> refs[j].None?
  {
    if refs == [] then None
    else if refs[0].Some? then refs[0]
    else
      var r := FirstNonNull(refs[1..]);
      assert r.Some? ==> exists i :: 1 <= i < |refs| && refs[i] == r && forall j :: 0 <= j < i ==> refs[j].None? by {
        if r.Some? {
          var i :| 0 <= i < |refs[1..]| && refs[1..][i] == r && forall j :: 0 <= j < i ==> refs[1..][j].None?;
          assert refs[i + 1] == r;
          assert forall j :: 0 <= j < i + 1 ==> refs[j].None? by {
            forall j | 0 <= j < i + 1 ensures refs[j].None? {
              if j > 0 { assert refs[j] == refs[1..][j - 1]; }
            }
          }
        }
      }
      r
  }

  /** The audio source references of the components, in order. */
  function AudioSources(clickSounds: seq<ClickSound>): (r: seq<Option<AudioSourceId>>)
    ensures |r| == |clickSounds|
    ensures forall i :: 0 <= i < |r| ==> r[i] == clickSounds[i].audioSource
  {
    seq(|clickSounds|, i requires 0 <= i < |clickSounds| => clickSounds[i].audioSource)
  }

  /** The clip references of the components, in order. */
  function ClickSoundClips(clickSounds: seq<ClickSound>): (r: seq<Option<AudioClipId>>)
    ensures |r| == |clickSounds|
    ensures forall i :: 0 <= i < |r| ==> r[i] == clickSounds[i].clickSound
  {
    seq(|clickSounds|, i requires 0 <= i < |clickSounds| => clickSounds[i].clickSound)
  }

  /** The audio source of the first component that has one; `None` exactly
      when no component has one. */
  function GetFirstAudioSource(clickSounds: seq<ClickSound>): (r: Option<AudioSourceId>)
    ensures r.None? <==> forall i :: 0 <= i < |clickSounds| ==> clickSounds[i].audioSource.None?
    ensures r.Some? ==> exists i :: 0 <= i < |clickSounds| && clickSounds[i].audioSource == r
                                   && forall j :: 0 <= j < i ==> clickSounds[j].audioSource.None?
  {
    var refs := AudioSources(clickSounds);
    var r := FirstNonNull(refs);
    assert r.None? <==> forall i :: 0 <= i < |clickSounds| ==> clickSounds[i].audioSource.None? by {
      assert forall i :: 0 <= i < |clickSounds| ==> refs[i] == clickSounds[i].audioSource;
    }
    r
  }

  /** The clip of the first component that has one; `None` exactly when no
      component has one. */
  function GetFirstClickSound(clickSounds: seq<ClickSound>): (r: Option<AudioClipId>)
    ensures r.None? <==> forall i :: 0 <= i < |clickSounds| ==> clickSounds[i].clickSound.None?
    ensures r.Some? ==> exists i :: 0 <= i < |clickSounds| && clickSounds[i].clickSound == r
                                   && forall j :: 0 <= j < i ==> clickSounds[j].clickSound.None?
  {
    var refs := ClickSoundClips(clickSounds);
    var r := FirstNonNull(refs);
    assert r.None? <==> forall i :: 0 <= i < |clickSounds| ==> clickSounds[i].clickSound.None? by {
      assert forall i :: 0 <= i < |clickSounds| ==> refs[i] == clickSounds[i].clickSound;
    }
    r
  }

  // ---------------------------------------------------------------------
  // Hierarchy path and ordering

  /** The root's name, followed by `/` and the path below the root unless the
      transform is the root itself. */
  function GetTransformPath(t: Transform): (path: string)
    ensures t.rootName <= path
    ensures t.isRoot <==> |path| == |t.rootName|
  {
    if t.isRoot then t.rootName else t.rootName + "/" + t.relativePath
  }

  /** Splits a path at its first `/` into the root's name and, when there is
      a `/`, the rest. */
  function SplitRoot(path: string): (string, Option<string>)
  {
    if path == [] then ([], None)
    else if path[0] == '/' then ([], Some(path[1..]))
    else
      var (root, rest) := SplitRoot(path[1..]);
      ([path[0]] + root, rest)
  }

  /** When the root's name holds no `/`, the path determines the root's name
      and, for a transform below the root, its relative path. */
  lemma {:induction false} SplitRootOfTransformPath(t: Transform)
    requires '/' !in t.rootName
    ensures SplitRoot(GetTransformPath(t)) == (t.rootName, if t.isRoot then None else Some(t.relativePath))
  {
    var tail: string := if t.isRoot then [] else "/" + t.relativePath;
    assert GetTransformPath(t) == t.rootName + tail;
    SplitRootPrefix(t.rootName, tail);
    if t.isRoot {
      assert t.rootName + SplitRoot(tail).0 == t.rootName;
    } else {
      assert tail[0] == '/' && tail[1..] == t.relativePath;
      assert t.rootName + SplitRoot(tail).0 == t.rootName;
    }
  }

  lemma {:induction false} SplitRootPrefix(root: string, tail: string)
    requires '/' !in root
    ensures SplitRoot(root + tail) == (root + SplitRoot(tail).0, SplitRoot(tail).1)
  {
    if root != [] {
      assert (root + tail)[0] == root[0];
      assert (root + tail)[1..] == root[1..] + tail;
      SplitRootPrefix(root[1..], tail);
      assert [root[0]] + (root[1..] + SplitRoot(tail).0) == root + SplitRoot(tail).0;
    } else {
      assert root + tail == tail && root + SplitRoot(tail).0 == SplitRoot(tail).0;
    }
  }

  /** A total preorder on path strings: the culture-sensitive string order
      that `OrderBy` uses is one. */
  ghost predicate TotalPreorder(leq: (string, string) -> bool)
  {
    && (forall a, b :: leq(a, b) || leq(b, a))
    && (forall a, b, c :: leq(a, b) && leq(b, c) ==> leq(a, c))
  }

  /** The sort key of a button in the list. */
  function PathOf(b: Button): (path: string)
    ensures b.transform.rootName <= path
  {
    GetTransformPath(b.transform)
  }

  ghost predicate SortedByPath(buttons: seq<Button>, leq: (string, string) -> bool)
  {
    forall i, j :: 0 <= i < j < |buttons| ==> leq(PathOf(buttons[i]), PathOf(buttons[j]))
  }

  lemma SortedCons(x: Button, s: seq<Button>, leq: (string, string) -> bool)
    requires SortedByPath(s, leq)
    requires forall y :: y in multiset(s) ==> leq(PathOf(x), PathOf(y))
    ensures SortedByPath([x] + s, leq)
  {
    var r := [x] + s;
    forall i, j | 0 <= i < j < |r| ensures leq(PathOf(r[i]), PathOf(r[j])) {
      assert r[j] == s[j - 1] && r[j] in multiset(s);
      if i > 0 {
        assert r[i] == s[i - 1];
      }
    }
  }

  lemma SortedTail(s: seq<Button>, leq: (string, string) -> bool)
    requires s != [] && SortedByPath(s, leq)
    ensures SortedByPath(s[1..], leq)
  {
    var t := s[1..];
    forall i, j | 0 <= i < j < |t| ensures leq(PathOf(t[i]), PathOf(t[j])) {
      assert t[i] == s[i + 1] && t[j] == s[j + 1];
    }
  }

  /** Placing `b` in front of a sorted list whose head's path it does not exceed. */
  lemma InsertInFront(b: Button, sorted: seq<Button>, leq: (string, string) -> bool)
    requires TotalPreorder(leq) && SortedByPath(sorted, leq)
    requires sorted != [] ==> leq(PathOf(b), PathOf(sorted[0]))
    ensures SortedByPath([b] + sorted, leq)
  {
    forall y | y in multiset(sorted) ensures leq(PathOf(b), PathOf(y)) {
      var k :| 0 <= k < |sorted| && sorted[k] == y;
      if k > 0 {
        assert leq(PathOf(sorted[0]), PathOf(sorted[k]));
      }
    }
    SortedCons(b, sorted, leq);
  }

  /** Keeping the head of a sorted list in front of the insertion into its tail. */
  lemma InsertBehindHead(b: Button, sorted: seq<Button>, rest: seq<Button>, leq: (string, string) -> bool)
    requires TotalPreorder(leq) && SortedByPath(sorted, leq) && SortedByPath(rest, leq)
    requires sorted != [] && !leq(PathOf(b), PathOf(sorted[0]))
    requires multiset(rest) == multiset(sorted[1..]) + multiset{b}
    ensures SortedByPath([sorted[0]] + rest, leq)
    ensures multiset([sorted[0]] + rest) == multiset(sorted) + multiset{b}
  {
    var head, tail := sorted[0], sorted[1..];
    assert sorted == [head] + tail;
    forall y | y in multiset(rest) ensures leq(PathOf(head), PathOf(y)) {
      if y != b {
        assert y in multiset(tail);
        var k :| 0 <= k < |tail| && tail[k] == y;
        assert sorted[k + 1] == y;
      }
    }
    SortedCons(head, rest, leq);
  }

  /** Inserts a button before the first one whose path it does not exceed. */
  function InsertByPath(b: Button, sorted: seq<Button>, leq: (string, string) -> bool): (r: seq<Button>)
    requires TotalPreorder(leq)
    requires SortedByPath(sorted, leq)
    ensures SortedByPath(r, leq)
    ensures multiset(r) == multiset(sorted) + multiset{b}
  {
    if sorted == [] || leq(PathOf(b), PathOf(sorted[0])) then
      InsertInFront(b, sorted, leq);
      [b] + sorted
    else
      SortedTail(sorted, leq);
      var rest := InsertByPath(b, sorted[1..], leq);
      InsertBehindHead(b, sorted, rest, leq);
      [sorted[0]] + rest
  }

  /** The displayed list: the buttons ordered by hierarchy path. */
  function OrderByPath(buttons: seq<Button>, leq: (string, string) -> bool): (r: seq<Button>)
    requires TotalPreorder(leq)
    ensures SortedByPath(r, leq)
    ensures multiset(r) == multiset(buttons)
  {
    if buttons == [] then []
    else
      assert buttons == [buttons[0]] + buttons[1..];
      InsertByPath(buttons[0], OrderByPath(buttons[1..], leq), leq)
  }

  /** Two paths the comparison ranks equal. */
  predicate SameKey(a: string, b: string, leq: (string, string) -> bool)
  {
    leq(a, b) && leq(b, a)
  }

  /** The buttons of `buttons` whose path the comparison ranks equal to
      `p`, in their order there. */
  function WithKey(buttons: seq<Button>, p: string, leq: (string, string) -> bool): (r: seq<Button>)
    ensures |r| <= |buttons|
    ensures forall b :: b in r ==> b in buttons && SameKey(PathOf(b), p, leq)
  {
    if buttons == [] then []
    else if SameKey(PathOf(buttons[0]), p, leq) then [buttons[0]] + WithKey(buttons[1..], p, leq)
    else WithKey(buttons[1..], p, leq)
  }

  lemma WithKeyCons(x: Button, s: seq<Button>, p: string, leq: (string, string) -> bool)
    ensures WithKey([x] + s, p, leq)
            == if SameKey(PathOf(x), p, leq) then [x] + WithKey(s, p, leq) else WithKey(s, p, leq)
  {
    assert ([x] + s)[0] == x && ([x] + s)[1..] == s;
  }

  /** Inserting `b` puts it in front of every button whose path ranks
      equal to its own, and keeps the order of the others. */
  lemma {:induction false} InsertByPathStable(b: Button, sorted: seq<Button>, leq: (string, string) -> bool, p: string)
    requires TotalPreorder(leq) && SortedByPath(sorted, leq)
    ensures WithKey(InsertByPath(b, sorted, leq), p, leq)
            == if SameKey(PathOf(b), p, leq) then [b] + WithKey(sorted, p, leq) else WithKey(sorted, p, leq)
    decreases sorted
  {
    if sorted == [] || leq(PathOf(b), PathOf(sorted[0])) {
      WithKeyCons(b, sorted, p, leq);
    } else {
      var head := sorted[0];
      assert !(SameKey(PathOf(b), p, leq) && SameKey(PathOf(head), p, leq));
      SortedTail(sorted, leq);
      var rest := InsertByPath(b, sorted[1..], leq);
      InsertByPathStable(b, sorted[1..], leq, p);
      WithKeyCons(head, rest, p, leq);
      assert sorted == [head] + sorted[1..];
      WithKeyCons(head, sorted[1..], p, leq);
    }
  }

  /** `OrderBy` is stable: buttons whose paths the comparison ranks equal
      keep their relative order. */
  lemma {:induction false} OrderByPathStable(buttons: seq<Button>, leq: (string, string) -> bool, p: string)
    requires TotalPreorder(leq)
    ensures WithKey(OrderByPath(buttons, leq), p, leq) == WithKey(buttons, p, leq)
  {
    if buttons != [] {
      OrderByPathStable(buttons[1..], leq, p);
      InsertByPathStable(buttons[0], OrderByPath(buttons[1..], leq), leq, p);
      assert buttons == [buttons[0]] + buttons[1..];
      WithKeyCons(buttons[0], buttons[1..], p, leq);
    }
  }
}
