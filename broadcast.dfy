/**
 * The broadcast filter (`onEachClient`): a message goes to exactly the
 * clients whose `readyState` is OPEN.
 */
module Broadcast {
  import opened Messages

  /** The WebSocket ready states. */
  datatype ReadyState = Connecting | Open | Closing | Closed

  /** A connected client: its ready state and the messages it has been sent, oldest first. */
  datatype Client = Client(readyState: ReadyState, outbox: seq<OutMsg>)

  /** `after` is `before` sent `m` if it is open, and `before` unchanged otherwise. */
  ghost predicate SentIfOpen(before: Client, after: Client, m: OutMsg) {
    && after.readyState == before.readyState
    && after.outbox == if before.readyState == Open then before.outbox + [m] else before.outbox
  }

  /** Every open client of `before` got `m` once, and no other client got anything. */
  ghost predicate DeliveredToOpen(before: seq<Client>, after: seq<Client>, m: OutMsg) {
    && |after| == |before|
    && forall i :: 0 <= i < |before| ==> SentIfOpen(before[i], after[i], m)
  }

  /** `onEachClient(client => client.send(m))`. */
  method OnEachClient(clients: seq<Client>, m: OutMsg) returns (after: seq<Client>)
    ensures DeliveredToOpen(clients, after, m)
  {
    after := clients;
    for i := 0 to |clients|
      invariant |after| == |clients|
      invariant forall j :: 0 <= j < i ==> SentIfOpen(clients[j], after[j], m)
      invariant forall j :: i <= j < |clients| ==> after[j] == clients[j]
    {
      if after[i].readyState == Open {
        after := after[i := after[i].(outbox := after[i].outbox + [m])];
      }
    }
  }
}
