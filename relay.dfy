/**
 * The relay's module-level state (`scenes`, `sceneMetadata`, `activeSceneId`),
 * the clients the WebSocket server tracks, and the device, seen as the log of
 * commands issued to it. Each listener is one atomic step.
 */
module Server {
  import opened Wrappers
  import opened SceneMetadata
  import opened Messages
  import opened Commands
  import opened Broadcast

  class Relay {
    var scenes: seq<Scene>
    var sceneMetadata: seq<SceneRecord>
    var activeSceneId: Option<string>
    var clients: seq<Client>
    var deviceLog: seq<DeviceCommand>

    /** The latest of each kind of message an open client holds is the current state. */
    ghost predicate InSync(c: Client)
      reads this
    {
      c.readyState == Open ==>
        && LastScenes(c.outbox) == Some(sceneMetadata)
        && (LastActiveSceneId(c.outbox).Some? ==> LastActiveSceneId(c.outbox) == Some(activeSceneId))
    }

    /**
     * The stored metadata is the aggregation of the stored scene list, and
     * every open client has been told the current state.
     */
    ghost predicate Valid()
      reads this
    {
      && sceneMetadata == GetSceneMetadata(scenes)
      && forall i :: 0 <= i < |clients| ==> InSync(clients[i])
    }

    /** Start-up: the first scene list, its metadata and the selected scene's id; no clients yet. */
    constructor (initialScenes: seq<Scene>, selected: Scene)
      ensures Valid()
      ensures scenes == initialScenes && sceneMetadata == GetSceneMetadata(initialScenes)
      ensures activeSceneId == Some(selected.id)
      ensures clients == [] && deviceLog == []
    {
      scenes := initialScenes;
      sceneMetadata := GetSceneMetadata(initialScenes);
      activeSceneId := Some(selected.id);
      clients := [];
      deviceLog := [];
    }

    /** A client connects: it is open, and its first message is the current metadata. */
    method OnConnection()
      requires Valid()
      modifies this
      ensures Valid()
      ensures clients == old(clients) + [Client(Open, [Scenes(sceneMetadata)])]
      ensures scenes == old(scenes) && sceneMetadata == old(sceneMetadata)
      ensures activeSceneId == old(activeSceneId) && deviceLog == old(deviceLog)
    {
      LastAfterSend([], Scenes(sceneMetadata));
      clients := clients + [Client(Open, [Scenes(sceneMetadata)])];
    }

    /** The transport moves client `k` toward closed; its outbox is kept as it was. */
    method ClientStateChanged(k: nat, state: ReadyState)
      requires Valid() && k < |clients|
      requires state == Closing || state == Closed
      modifies this
      ensures Valid()
      ensures clients == old(clients)[k := old(clients)[k].(readyState := state)]
      ensures scenes == old(scenes) && sceneMetadata == old(sceneMetadata)
      ensures activeSceneId == old(activeSceneId) && deviceLog == old(deviceLog)
    {
      clients := clients[k := clients[k].(readyState := state)];
    }

    /** The scene-list listener: store the list and its metadata, then broadcast the metadata. */
    method OnScenesChanged(newScenes: seq<Scene>)
      requires Valid()
      modifies this
      ensures Valid()
      ensures scenes == newScenes && sceneMetadata == GetSceneMetadata(newScenes)
      ensures DeliveredToOpen(old(clients), clients, Scenes(sceneMetadata))
      ensures activeSceneId == old(activeSceneId) && deviceLog == old(deviceLog)
    {
      scenes := newScenes;
      sceneMetadata := GetSceneMetadata(newScenes);
      var m := Scenes(sceneMetadata);
      ghost var before := clients;
      clients := OnEachClient(clients, m);
      forall i | 0 <= i < |clients| ensures InSync(clients[i]) {
        LastAfterSend(before[i].outbox, m);
      }
    }

    /** The selected-scene listener: store the id (`undefined` for no scene), then broadcast it. */
    method OnSelectedSceneChanged(selected: Option<Scene>)
      requires Valid()
      modifies this
      ensures Valid()
      ensures activeSceneId == (if selected.Some? then Some(selected.value.id) else None)
      ensures DeliveredToOpen(old(clients), clients, ActiveSceneId(activeSceneId))
      ensures scenes == old(scenes) && sceneMetadata == old(sceneMetadata) && deviceLog == old(deviceLog)
    {
      activeSceneId := if selected.Some? then Some(selected.value.id) else None;
      var m := ActiveSceneId(activeSceneId);
      ghost var before := clients;
      clients := OnEachClient(clients, m);
      forall i | 0 <= i < |clients| ensures InSync(clients[i]) {
        LastAfterSend(before[i].outbox, m);
      }
    }

    /** `update`: issue the command for `message` against the stored list, if there is one. */
    method Update(message: ClientMessage) returns (outcome: Result<DeviceCommand, UpdateError>)
      requires Valid()
      modifies this`deviceLog
      ensures Valid()
      ensures outcome == Dispatch(scenes, message)
      ensures deviceLog == old(deviceLog) + (if outcome.Success? then [outcome.value] else [])
    {
      outcome := Dispatch(scenes, message);
      if outcome.Success? {
        deviceLog := deviceLog + [outcome.value];
      }
    }
  }

  /**
   * The walk-through of the system: a client connects to a relay started with
   * no scenes, three clip-less scenes are published, then index 1 is
   * triggered (it fires the second scene) and index 3 is triggered (nothing).
   */
  method ThreeScenesScenario(intro: Scene, verse: Scene, chorus: Scene)
    returns (received: seq<OutMsg>, log: seq<DeviceCommand>)
    requires intro.clipSlots == [] && verse.clipSlots == [] && chorus.clipSlots == []
    ensures received == [Scenes([]), Scenes(GetSceneMetadata([intro, verse, chorus]))]
    ensures log == [FireScene(verse)]
  {
    var relay := new Relay([], intro);
    relay.OnConnection();
    relay.OnScenesChanged([intro, verse, chorus]);
    assert |relay.sceneMetadata| == 3 && relay.sceneMetadata[1].index == 1;
    NoClipsGivesSentinel([intro, verse, chorus], 1);
    assert relay.sceneMetadata[1].length == NegInfinity;
    var outcome := relay.Update(ClientMessage("TriggerScene", Some(1)));
    assert outcome == Success(FireScene(verse));
    outcome := relay.Update(ClientMessage("TriggerScene", Some(3)));
    assert outcome.Failure?;
    received := relay.clients[0].outbox;
    log := relay.deviceLog;
  }
}
