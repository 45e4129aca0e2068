/**
 * Command dispatch (`update`): a client message becomes at most one command
 * to the device, resolved against the scene list stored at that moment.
 */
module Commands {
  import opened Wrappers
  import opened SceneMetadata

  /** A parsed client message: its `msg` tag and its `index` field, if present and an integer. */
  datatype ClientMessage = ClientMessage(tag: string, index: Option<int>)

  /** The commands the relay issues to the device. */
  datatype DeviceCommand =
    | FireScene(scene: Scene)  // `scene.fire()`
    | StopAllClips             // `song.stopAllClips()`
    | StopPlaying              // `song.stopPlaying()`

  datatype UpdateError =
    | NoSuchScene(index: Option<int>)  // `scenes[msg.index]` is `undefined`, so `.fire()` throws
    | UnknownMessage(tag: string)      // logged, nothing issued

  predicate InRange(index: Option<int>, count: nat) {
    index.Some? && 0 <= index.value < count
  }

  /** The command `update` issues for `message` when the stored list is `scenes`. */
  function Dispatch(scenes: seq<Scene>, message: ClientMessage): (r: Result<DeviceCommand, UpdateError>)
    ensures r.Success? <==>
      || (message.tag == "TriggerScene" && InRange(message.index, |scenes|))
      || message.tag == "StopNicely"
      || message.tag == "StopNow"
    ensures r.Success? && r.value.FireScene? <==> message.tag == "TriggerScene" && InRange(message.index, |scenes|)
    ensures r.Success? && r.value.FireScene? ==> r.value.scene == scenes[message.index.value]
    ensures r == Success(StopAllClips) <==> message.tag == "StopNicely"
    ensures r == Success(StopPlaying) <==> message.tag == "StopNow"
    ensures r.Failure? && message.tag == "TriggerScene" ==> r.error == NoSuchScene(message.index)
    ensures r.Failure? && message.tag != "TriggerScene" ==> r.error == UnknownMessage(message.tag)
  {
    if message.tag == "TriggerScene" then
      if InRange(message.index, |scenes|) then Success(FireScene(scenes[message.index.value]))
      else Failure(NoSuchScene(message.index))
    else if message.tag == "StopNicely" then Success(StopAllClips)
    else if message.tag == "StopNow" then Success(StopPlaying)
    else Failure(UnknownMessage(message.tag))
  }
}
