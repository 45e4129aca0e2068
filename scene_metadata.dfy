/**
 * The scene aggregation of the relay (`getSceneMetadata`): the device's scene
 * list, read as plain data, becomes one view record per scene whose flags and
 * extents are derived from the clips in that scene's slots.
 */
module SceneMetadata {
  import opened Wrappers
  import Color

  /** The four clip attributes the relay reads. */
  datatype Clip = Clip(isTriggered: bool, isPlaying: bool, length: real, playingPosition: real)

  /** A clip slot holds at most one clip; `None` is the device's `null`. */
  datatype ClipSlot = ClipSlot(clip: Option<Clip>)

  /**
   * A scene as the device reports it: `raw.id`, `name`, its slots, and `color`, taken
   * to be the 24-bit RGB value inside the ableton-js colour wrapper (see module `Color`).
   */
  datatype Scene = Scene(id: string, name: string, color: Color.Rgb, clipSlots: seq<ClipSlot>)

  /** The value of `Math.max` over numbers: `NegInfinity` is what it returns for no arguments. */
  datatype Extended = NegInfinity | Finite(value: real)

  /** The record sent to clients for one scene. */
  datatype SceneRecord = SceneRecord(
    id: string,
    name: string,
    color: string,
    index: nat,
    isTriggered: bool,
    isPlaying: bool,
    length: Extended,
    playingPosition: Extended)

  /** True when slot `k` of `slots` holds clip `c`. */
  ghost predicate Holds(slots: seq<ClipSlot>, k: int, c: Clip) {
    0 <= k < |slots| && slots[k].clip == Some(c)
  }

  /** No slot holds a clip. */
  ghost predicate AllEmpty(slots: seq<ClipSlot>) {
    forall k :: 0 <= k < |slots| ==> slots[k].clip.None?
  }

  /** The clips of the non-empty slots, in slot order (the `filter(clip => clip != null)`). */
  function Clips(slots: seq<ClipSlot>): (clips: seq<Clip>)
    ensures |clips| <= |slots|
    ensures forall c :: c in clips <==> exists k :: Holds(slots, k, c)
  {
    if slots == [] then []
    else
      var rest := Clips(slots[1..]);
      assert forall c, k :: Holds(slots[1..], k, c) ==> Holds(slots, k + 1, c);
      assert forall c, k :: Holds(slots, k, c) && k > 0 ==> Holds(slots[1..], k - 1, c);
      match slots[0].clip
      case None => rest
      case Some(c) => assert Holds(slots, 0, c); [c] + rest
  }

  /** `clips.some(p)`. */
  function AnyClip(clips: seq<Clip>, p: Clip -> bool): (r: bool)
    ensures r <==> exists i :: 0 <= i < |clips| && p(clips[i])
  {
    if clips == [] then false
    else
      assert forall i :: 1 <= i < |clips| ==> clips[1..][i - 1] == clips[i];
      p(clips[0]) || AnyClip(clips[1..], p)
  }

  /** `Math.max(...xs)`, with `NegInfinity` for an empty argument list. */
  function Max(xs: seq<real>): (m: Extended)
    ensures m == NegInfinity <==> xs == []
    ensures m.Finite? ==> (exists i :: 0 <= i < |xs| && xs[i] == m.value)
    ensures m.Finite? ==> forall i :: 0 <= i < |xs| ==> xs[i] <= m.value
  {
    if xs == [] then NegInfinity
    else
      var rest := Max(xs[1..]);
      assert forall i :: 1 <= i < |xs| ==> xs[1..][i - 1] == xs[i];
      if rest.Finite? && rest.value > xs[0] then rest else Finite(xs[0])
  }

  function Lengths(clips: seq<Clip>): seq<real> {
    seq(|clips|, i requires 0 <= i < |clips| => clips[i].length)
  }

  function PlayingPositions(clips: seq<Clip>): seq<real> {
    seq(|clips|, i requires 0 <= i < |clips| => clips[i].playingPosition)
  }

  /** The record built for the scene at position `index` of the list. */
  function SceneRecordOf(scene: Scene, index: nat): SceneRecord {
    var clips := Clips(scene.clipSlots);
    SceneRecord(
      scene.id,
      scene.name,
      Color.HexString(scene.color),
      index,
      AnyClip(clips, (c: Clip) => c.isTriggered),
      AnyClip(clips, (c: Clip) => c.isPlaying),
      Max(Lengths(clips)),
      Max(PlayingPositions(clips)))
  }

  /** `getSceneMetadata`: one record per scene, in list order. */
  function GetSceneMetadata(scenes: seq<Scene>): (records: seq<SceneRecord>)
    ensures |records| == |scenes|
    ensures forall k :: 0 <= k < |scenes| ==>
      && records[k].index == k
      && records[k].id == scenes[k].id
      && records[k].name == scenes[k].name
      && records[k].color == Color.HexString(scenes[k].color)
  {
    seq(|scenes|, k requires 0 <= k < |scenes| => SceneRecordOf(scenes[k], k))
  }

  /** The fields of a record that are computed from its clips. */
  function Derived(r: SceneRecord): (bool, bool, Extended, Extended) {
    (r.isTriggered, r.isPlaying, r.length, r.playingPosition)
  }

  /**
   * `isTriggered` is true exactly when some slot of the scene holds a triggered
   * clip, and `isPlaying` exactly when some slot holds a playing clip.
   */
  lemma FlagsIffSomeClip(scenes: seq<Scene>, k: nat)
    requires k < |scenes|
    ensures GetSceneMetadata(scenes)[k].isTriggered <==>
      exists j, c :: Holds(scenes[k].clipSlots, j, c) && c.isTriggered
    ensures GetSceneMetadata(scenes)[k].isPlaying <==>
      exists j, c :: Holds(scenes[k].clipSlots, j, c) && c.isPlaying
  {
    var slots := scenes[k].clipSlots;
    var clips := Clips(slots);
    assert GetSceneMetadata(scenes)[k] == SceneRecordOf(scenes[k], k);
    assert forall i :: 0 <= i < |clips| ==> clips[i] in clips;
    forall j, c | Holds(slots, j, c)
      ensures exists i :: 0 <= i < |clips| && clips[i] == c
    {
      assert c in clips;
    }
  }

  lemma {:induction false} AllEmptyHasNoClips(slots: seq<ClipSlot>)
    requires AllEmpty(slots)
    ensures Clips(slots) == []
  {
    if slots != [] {
      assert AllEmpty(slots[1..]) by {
        assert forall k :: 1 <= k < |slots| ==> slots[1..][k - 1] == slots[k];
      }
      AllEmptyHasNoClips(slots[1..]);
    }
  }

  /** A scene without clips has both flags false and both extents at the "no maximum" sentinel. */
  lemma NoClipsGivesSentinel(scenes: seq<Scene>, k: nat)
    requires k < |scenes|
    ensures var r := GetSceneMetadata(scenes)[k];
      AllEmpty(scenes[k].clipSlots) <==> r.length == NegInfinity
    ensures var r := GetSceneMetadata(scenes)[k];
      AllEmpty(scenes[k].clipSlots) <==> r.playingPosition == NegInfinity
    ensures var r := GetSceneMetadata(scenes)[k];
      AllEmpty(scenes[k].clipSlots) ==> !r.isTriggered && !r.isPlaying
  {
    var slots := scenes[k].clipSlots;
    var clips := Clips(slots);
    assert GetSceneMetadata(scenes)[k] == SceneRecordOf(scenes[k], k);
    if AllEmpty(slots) {
      AllEmptyHasNoClips(slots);
    } else {
      var j :| 0 <= j < |slots| && slots[j].clip.Some?;
      assert Holds(slots, j, slots[j].clip.value);
      assert slots[j].clip.value in clips;
    }
  }

  /**
   * When the scene has a clip, `length` is the largest clip length: no clip is
   * longer, and some clip has exactly that length.
   */
  lemma LengthIsMaximum(scenes: seq<Scene>, k: nat)
    requires k < |scenes| && !AllEmpty(scenes[k].clipSlots)
    ensures GetSceneMetadata(scenes)[k].length.Finite?
    ensures forall j, c :: Holds(scenes[k].clipSlots, j, c) ==>
      c.length <= GetSceneMetadata(scenes)[k].length.value
    ensures exists j, c ::
      Holds(scenes[k].clipSlots, j, c) && c.length == GetSceneMetadata(scenes)[k].length.value
  {
    var slots := scenes[k].clipSlots;
    var clips := Clips(slots);
    var m := Max(Lengths(clips));
    assert GetSceneMetadata(scenes)[k] == SceneRecordOf(scenes[k], k);
    NoClipsGivesSentinel(scenes, k);
    forall j, c | Holds(slots, j, c) ensures c.length <= m.value {
      assert c in clips;
      var i :| 0 <= i < |clips| && clips[i] == c;
      assert Lengths(clips)[i] == c.length;
    }
    var i :| 0 <= i < |clips| && Lengths(clips)[i] == m.value;
    assert clips[i] in clips;
    var j :| Holds(slots, j, clips[i]);
  }

  /** The same for `playingPosition`. */
  lemma PlayingPositionIsMaximum(scenes: seq<Scene>, k: nat)
    requires k < |scenes| && !AllEmpty(scenes[k].clipSlots)
    ensures GetSceneMetadata(scenes)[k].playingPosition.Finite?
    ensures forall j, c :: Holds(scenes[k].clipSlots, j, c) ==>
      c.playingPosition <= GetSceneMetadata(scenes)[k].playingPosition.value
    ensures exists j, c ::
      Holds(scenes[k].clipSlots, j, c) && c.playingPosition == GetSceneMetadata(scenes)[k].playingPosition.value
  {
    var slots := scenes[k].clipSlots;
    var clips := Clips(slots);
    var m := Max(PlayingPositions(clips));
    assert GetSceneMetadata(scenes)[k] == SceneRecordOf(scenes[k], k);
    NoClipsGivesSentinel(scenes, k);
    forall j, c | Holds(slots, j, c) ensures c.playingPosition <= m.value {
      assert c in clips;
      var i :| 0 <= i < |clips| && clips[i] == c;
      assert PlayingPositions(clips)[i] == c.playingPosition;
    }
    var i :| 0 <= i < |clips| && PlayingPositions(clips)[i] == m.value;
    assert clips[i] in clips;
    var j :| Holds(slots, j, clips[i]);
  }

  /** An empty slot inserted anywhere leaves the filtered clip list as it was. */
  lemma {:induction false} EmptySlotDropped(before: seq<ClipSlot>, after: seq<ClipSlot>)
    ensures Clips(before + [ClipSlot(None)] + after) == Clips(before + after)
    decreases |before|
  {
    if before == [] {
      assert (before + [ClipSlot(None)] + after)[1..] == after;
      assert before + after == after;
    } else {
      EmptySlotDropped(before[1..], after);
      assert (before + [ClipSlot(None)] + after)[1..] == before[1..] + [ClipSlot(None)] + after;
      assert (before + after)[1..] == before[1..] + after;
    }
  }

  /**
   * Adding an empty slot to a scene (or, read backwards, removing one) never
   * changes the scene's derived fields.
   */
  lemma EmptySlotIrrelevant(scenes: seq<Scene>, k: nat, before: seq<ClipSlot>, after: seq<ClipSlot>)
    requires k < |scenes| && scenes[k].clipSlots == before + after
    ensures var widened := scenes[k := scenes[k].(clipSlots := before + [ClipSlot(None)] + after)];
      Derived(GetSceneMetadata(widened)[k]) == Derived(GetSceneMetadata(scenes)[k])
  {
    var widened := scenes[k := scenes[k].(clipSlots := before + [ClipSlot(None)] + after)];
    EmptySlotDropped(before, after);
    assert GetSceneMetadata(widened)[k] == SceneRecordOf(widened[k], k);
    assert GetSceneMetadata(scenes)[k] == SceneRecordOf(scenes[k], k);
  }

  /**
   * A record's derived fields depend only on the clips of its own scene: two
   * scenes, in any lists and at any positions, whose non-empty slots hold the
   * same clips get the same derived fields.
   */
  lemma DerivedFieldsAreLocal(scenes: seq<Scene>, k: nat, others: seq<Scene>, j: nat)
    requires k < |scenes| && j < |others|
    requires Clips(scenes[k].clipSlots) == Clips(others[j].clipSlots)
    ensures Derived(GetSceneMetadata(scenes)[k]) == Derived(GetSceneMetadata(others)[j])
  {
    assert GetSceneMetadata(scenes)[k] == SceneRecordOf(scenes[k], k);
    assert GetSceneMetadata(others)[j] == SceneRecordOf(others[j], j);
  }
}
