/** The coordinator's registry of connected nodes (coordinator/src/state.rs). */
module NodeRegistry {
  import opened Common
  import opened Messages

  /** The channels after pushing `msg` to node `n`: appended to the channel registered for `n`, or dropped. */
  function Pushed(nodes: map<Uuid, nat>, chans: map<nat, seq<WsMessage>>, n: Uuid, msg: WsMessage): map<nat, seq<WsMessage>> {
    if n in nodes && nodes[n] in chans then chans[nodes[n] := chans[nodes[n]] + [msg]] else chans
  }

  /** `AppState`: one unbounded channel per session, and the channel each node is reached through. */
  class AppState {
    var nodes: map<Uuid, nat>
    var chans: map<nat, seq<WsMessage>>

    constructor ()
      ensures nodes == map[] && chans == map[]
    {
      nodes, chans := map[], map[];
    }

    /** The opening lines of `handle_socket`: a fresh channel, registered under the node's id. */
    method Register(n: Uuid, sid: nat)
      requires sid !in chans
      modifies this
      ensures nodes == old(nodes)[n := sid]
      ensures chans == old(chans)[sid := []]
    {
      chans := chans[sid := []];
      nodes := nodes[n := sid];
    }

    /** The exit block of `handle_socket`: removal by node id, whichever session is registered. */
    method Unregister(n: Uuid)
      modifies this`nodes
      ensures nodes == old(nodes) - {n}
    {
      nodes := nodes - {n};
    }

    /** `push_to_node`: silently drops when the node has no entry. */
    method PushToNode(n: Uuid, msg: WsMessage)
      modifies this`chans
      ensures chans == Pushed(nodes, old(chans), n, msg)
    {
      if n in nodes {
        var tx := nodes[n];
        if tx in chans {
          chans := chans[tx := chans[tx] + [msg]];
        }
      }
    }
  }
}
