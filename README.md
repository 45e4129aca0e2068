# Ableton scene launcher relay, modelled in Dafny

The server of the Ableton scene launcher keeps a mirror of the Live set's
scenes and relays it to browser clients over WebSocket. It also turns client
messages into transport commands for Live. This project models the core of
`server.mjs` and proves properties about it:

- **Scene aggregation** (`getSceneMetadata`): the functions `Clips`, `AnyClip`,
  `Max` and `GetSceneMetadata` in module `SceneMetadata`. This module also holds
  the lemmas about them. Device reads become plain input data: `Scene`,
  `ClipSlot` and `Clip` datatypes. `Math.max` of no arguments is `-Infinity` in
  the code, so `Max` returns `NegInfinity`. Lengths and positions are reals.
- **Colour stringification** (`color.toString()`): the module `Color`. It gives
  the `#rrggbb` rendering of the scene's 24-bit colour, and lemmas show that the
  string reads back to the same colour.
- **Server messages** (`msg.scenes`, `msg.activeSceneId`): the datatype
  `Messages.OutMsg`. The JSON text itself is not modelled.
- **Command dispatch** (`update`): `Commands.Dispatch` maps a client message and
  the stored scene list to one device command or an error.
  `Server.Relay.Update` appends the issued command to the device's command log.
- **Broadcast filter** (`onEachClient`): `Broadcast.OnEachClient` loops over the
  clients and sends to exactly the ones whose ready state is OPEN.
- **Relay state**: the class `Server.Relay`. Its fields are the module-level
  variables `scenes`, `sceneMetadata` and `activeSceneId`, and also the tracked
  clients (each a ready state plus an outbox of sent messages) and the device
  log. The class invariant `Valid()` says two things:
  - the stored metadata is `GetSceneMetadata(scenes)`;
  - every open client's latest `scenes` message is the stored metadata, and its
    latest `activeSceneId` message, if it has one, is the stored id.

  Each listener and the connection handler keep this invariant.
  `ClientStateChanged` is not code from `server.mjs`. It stands for the `ws`
  library moving a client to Closing or Closed. The library adds a client to its set
  only once the client is open, so a client never goes back to OPEN.
  `ThreeScenesScenario` is a worked client of the class: three scenes without
  clips, one connected client, and a trigger.

Behaviour of the code that the model keeps:
- A scene without clips gets `length`/`playingPosition` = `Math.max()` of no
  arguments, which is `-Infinity` (server.mjs:118-119). The model has
  `NegInfinity` for it. `JSON.stringify` (server.mjs:26) writes `-Infinity` as
  `null`, so clients receive `length: null` and `playingPosition: null` for
  such a scene.
- The server has no version counter, no discarding of stale aggregations and no
  listener for per-track slot changes. Only the scene-list and selected-scene
  listeners exist (server.mjs:65-76).
- The selected-scene listener sends an `activeSceneId` message to the open
  clients (server.mjs:72-76).

## Model

| member | source | states |
|---|---|---|
| SceneMetadata.GetSceneMetadata | server.mjs:100-122 | exactly one record per input scene, in order; record k has `index == k` and the id, name and stringified colour of scene k |
| SceneMetadata.Clips | server.mjs:102-103 | the clips kept are exactly the clips held by some non-empty slot, and there are never more of them than slots |
| SceneMetadata.AnyClip | server.mjs:116-117 | `some` is true iff some clip satisfies the predicate |
| SceneMetadata.Max | server.mjs:118-119 | `Math.max` over a list is `NegInfinity` iff the list is empty; otherwise it is an element of the list and no element exceeds it |
| SceneMetadata.FlagsIffSomeClip | server.mjs:103-117 | a record's `isTriggered` (`isPlaying`) is true iff some slot of its scene holds a triggered (playing) clip |
| SceneMetadata.AllEmptyHasNoClips | server.mjs:103 | when every slot is empty, no clip is kept |
| SceneMetadata.NoClipsGivesSentinel | server.mjs:103-119 | a scene has no clip iff its `length` is the sentinel, and also iff its `playingPosition` is; without clips both flags are false |
| SceneMetadata.LengthIsMaximum | server.mjs:103-118 | with at least one clip, `length` is finite, no clip in the scene is longer, and some clip has exactly that length |
| SceneMetadata.PlayingPositionIsMaximum | server.mjs:103-119 | with at least one clip, `playingPosition` is finite, no clip's position is larger, and some clip has exactly that position |
| SceneMetadata.EmptySlotDropped | server.mjs:103 | inserting an empty slot anywhere leaves the filtered clip list unchanged |
| SceneMetadata.EmptySlotIrrelevant | server.mjs:102-119 | adding (or removing) an empty slot in a scene never changes that scene's derived fields |
| SceneMetadata.DerivedFieldsAreLocal | server.mjs:101-120 | the derived fields of a record depend only on its own scene's clips, not on the other scenes or the position |
| Color.HexString | server.mjs:114 | the colour string is `#` followed by six hexadecimal digits |
| Color.HexDigitsRoundTrip | server.mjs:114 | `width` hexadecimal digits of a number below `16^width` read back to that number |
| Color.HexColorRoundTrip | server.mjs:114 | parsing the colour string as `#rrggbb` gives back the colour |
| Color.HexStringInjective | server.mjs:114 | distinct colours give distinct strings |
| Messages.LastAfterSend | server.mjs:26-30 | a sent message becomes the latest of its kind in the outbox, and the latest message of the other kind stays as it was |
| Commands.Dispatch | server.mjs:78-92 | a command is issued iff the tag is `TriggerScene` with an index in `0..|scenes|-1`, or `StopNicely`, or `StopNow`; `TriggerScene(i)` fires `scenes[i]` of the given list, `StopNicely` gives stopAllClips, `StopNow` gives stopPlaying; an out-of-range or missing index is `NoSuchScene`, any other tag is `UnknownMessage` |
| Broadcast.OnEachClient | server.mjs:124-130 | every OPEN client gets the message appended to its outbox exactly once; every other client, and every ready state, is unchanged |
| Server.Relay.constructor | server.mjs:37-39 | start-up stores the scene list, its metadata and the selected scene's id, with no clients and no issued commands |
| Server.Relay.OnConnection | server.mjs:47-60 | a new client is open, and its outbox is exactly one `scenes` message carrying the current metadata; the rest of the state is unchanged |
| Server.Relay.ClientStateChanged | server.mjs:126 | any client's `readyState`, the one the broadcast filter tests, moves to Closing or Closed (a transition the `ws` library makes, not `server.mjs`); the outbox stays as it was, the rest of the state is unchanged, and the invariant is kept |
| Server.Relay.OnScenesChanged | server.mjs:65-70 | the stored scenes become the new list and the metadata becomes its aggregation; every open client gets that one `scenes` message and nothing else changes; the invariant is kept |
| Server.Relay.OnSelectedSceneChanged | server.mjs:72-76 | the stored id becomes the selected scene's id, or none; every open client gets one `activeSceneId` message carrying it; the invariant is kept |
| Server.Relay.Update | server.mjs:78-92 | the outcome is the dispatch against the list stored at that moment; the device log gains exactly that command on success and nothing on failure |
| Server.ThreeScenesScenario | server.mjs:47-92 | end to end: a client connected to a relay started with no scenes receives the empty list, then the metadata of three clip-less scenes; triggering index 1 fires the second scene, and index 3 issues nothing |

## Left out

- Scene values are snapshots, taken when the scene-list listener runs (server.mjs:65-70). The device's clip state can change without a scene-list event, for example when a clip starts or stops after `TriggerScene` fires a scene (server.mjs:81). Such a change re-runs no aggregation and triggers no broadcast, and the model has no step for it. So the invariant `sceneMetadata == GetSceneMetadata(scenes)` means "the aggregation of the last scene list received", not an aggregation of the live device. The real `sceneMetadata`, and every client's view, can lag the live set.
- In the model every device command succeeds and every device read returns a value. In the code, `fire()`, `stopAllClips()` and `stopPlaying()` (server.mjs:81-87) can reject, and so can any getter inside `getSceneMetadata` (server.mjs:102-114). Nothing catches these rejections. They go unhandled, like the bad-index case below. If a read fails inside the scene-list listener, `scenes` has already been replaced (server.mjs:66), but `sceneMetadata` keeps its old value (server.mjs:67) and nothing is broadcast (server.mjs:68-69). The real relay is then left with a stored list whose metadata is stale, which is exactly the state `Valid()` rules out, and its clients keep the old metadata.
- The HTTP server, static files and the network-interface address lookup (server.mjs:7-21, 95) are I/O plumbing.
- Connecting to Live (`ableton.start()`), the ableton-js getters and listener registration, and the `ws` server object are foreign library calls. Their results are input parameters here. Clients are values in a sequence, and the device is a log of commands.
- `JSON.stringify`/`JSON.parse` are not modelled: messages are datatypes. A client message arrives already parsed into its `msg` tag and an optional integer `index`. A message that is not valid JSON, or a non-integer `index`, is not modelled.
- Asynchrony is not modelled. Each listener runs as one atomic step. The model does not capture `scenes` being assigned before the awaited metadata (server.mjs:66-67), concurrent reads under `Promise.all`, or listeners interleaving.
- `length` and `playingPosition` are reals, not IEEE doubles. NaN and `Math.max`'s handling of it are left out.
- Color.HexString: assumes that `scene.get("color")` (server.mjs:114) yields the ableton-js colour wrapper, whose `toString()` is the zero-padded `#rrggbb` hex string of a 24-bit value. That wrapper belongs to ableton-js and is not part of this model. If the value were a plain Number, the string would be its decimal numeral instead.
- Server.Relay.Update: an out-of-range or missing `TriggerScene` index makes `scenes[msg.index].fire()` (server.mjs:81) throw. The promise of the async `message` listener (server.mjs:52-56) then rejects, and nothing handles that rejection. Under Node's default unhandled-rejection policy (Node 15 and later) this ends the process, so one bad client message stops the real relay. The model does not capture process termination: it returns `Failure(NoSuchScene(..))`, leaves the device log unchanged and carries on.
- Removal of closed clients from the server's client set is left out. A closed client gets nothing either way.
- Logging (`console.log`, `console.error`) is left out, and so is the `ws` error handler (server.mjs:50).
- The browser client (public/client.js) is UI glue and is not part of this model.
