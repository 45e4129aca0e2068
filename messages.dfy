/**
 * The messages the relay sends to its clients (`msg.scenes` and
 * `msg.activeSceneId`), as values rather than JSON text, and what a client's
 * received messages say about the state it was last told.
 */
module Messages {
  import opened Wrappers
  import opened SceneMetadata

  /** `{msg: "scenes", scenes}` or `{msg: "activeSceneId", id}`; `None` is an `undefined` id. */
  datatype OutMsg = Scenes(scenes: seq<SceneRecord>) | ActiveSceneId(id: Option<string>)

  /** The scene list carried by the latest `scenes` message in `outbox`, if there is one. */
  function LastScenes(outbox: seq<OutMsg>): Option<seq<SceneRecord>> {
    if outbox == [] then None
    else
      match outbox[|outbox| - 1]
      case Scenes(s) => Some(s)
      case ActiveSceneId(_) => LastScenes(outbox[..|outbox| - 1])
  }

  /** The id carried by the latest `activeSceneId` message in `outbox`, if there is one. */
  function LastActiveSceneId(outbox: seq<OutMsg>): Option<Option<string>> {
    if outbox == [] then None
    else
      match outbox[|outbox| - 1]
      case ActiveSceneId(id) => Some(id)
      case Scenes(_) => LastActiveSceneId(outbox[..|outbox| - 1])
  }

  /**
   * Receiving one more message makes it the latest of its kind and leaves the
   * latest message of the other kind as it was.
   */
  lemma LastAfterSend(outbox: seq<OutMsg>, m: OutMsg)
    ensures LastScenes(outbox + [m]) == if m.Scenes? then Some(m.scenes) else LastScenes(outbox)
    ensures LastActiveSceneId(outbox + [m]) == if m.ActiveSceneId? then Some(m.id) else LastActiveSceneId(outbox)
  {
    assert (outbox + [m])[..|outbox|] == outbox;
  }
}
