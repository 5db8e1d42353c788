/** The static members of `SocketSidebandData`: the slot for the next connection and its two users. */
module SocketConnector {
  import opened Bytes
  import opened ConnectionId
  import opened PermitSemaphore
  import opened Registry
  import opened Sockets
  import opened Strategies

  class Connector {
    const connectQueue: Semaphore
    const registry: SidebandRegistry
    var nextConnectLowLatency: bool
    var nextConnectBufferSize: nat
    var nextConnectionId: string

    constructor (connectQueue: Semaphore, registry: SidebandRegistry)
      ensures this.connectQueue == connectQueue && this.registry == registry
    {
      this.connectQueue, this.registry := connectQueue, registry;
      nextConnectLowLatency, nextConnectBufferSize, nextConnectionId := false, 0, "";
    }

    /** Takes a permit and then stores the whole request. */
    method QueueSidebandConnection(strategy: Strategy, id: string, bufferSize: nat)
      requires connectQueue.Valid()
      modifies this, connectQueue
      ensures connectQueue.Valid() && connectQueue.waits > old(connectQueue.waits)
      ensures old(connectQueue.count) > 0 ==>
        connectQueue.count == old(connectQueue.count) - 1 && connectQueue.notifies == old(connectQueue.notifies)
      ensures nextConnectLowLatency == (strategy == SocketsLowLatency)
      ensures nextConnectBufferSize == bufferSize && nextConnectionId == id
    {
      connectQueue.Wait();
      nextConnectLowLatency := strategy.SocketsLowLatency?;
      nextConnectBufferSize := bufferSize;
      nextConnectionId := id;
    }

    /** The id a connection announces: thirteen bytes, of which a failing read leaves the last ones zero. */
    static ghost function AnnouncedId(stream: seq<Byte>, taken: nat): string
      requires taken <= ID_LENGTH && taken <= |stream|
    {
      Text(stream[..taken] + Zeros(ID_LENGTH - taken))
    }

    /** A session with the slot's settings and the id its client announces is registered, and only then
        the permit is given back. `address` is where the session object is allocated. */
    method InitFromConnection(socket: Socket, address: int) returns (session: SocketSidebandData, ghost taken: nat)
      requires connectQueue.Valid() && registry.View().Valid() && address !in registry.live
      requires forall n :: 0 <= n <= ID_LENGTH && n <= |socket.incoming| ==>
        AnnouncedId(socket.incoming, n) !in registry.buffers
      modifies connectQueue, registry, socket
      ensures fresh(session) && session.socket == socket
      ensures session.lowLatency == nextConnectLowLatency && session.bufferSize == nextConnectBufferSize
      ensures taken <= ID_LENGTH && taken <= |old(socket.incoming)|
      ensures !socket.broken ==> taken == ID_LENGTH
      ensures session.id == AnnouncedId(old(socket.incoming), taken)
      ensures socket.incoming == old(socket.incoming)[taken..]
      ensures registry.View().Valid()
      ensures registry.buffers == old(registry.buffers)[session.id := address]
      ensures registry.live == old(registry.live)[address := session.id]
      ensures connectQueue.Valid() && connectQueue.count == old(connectQueue.count) + 1
      ensures connectQueue.waits == old(connectQueue.waits) && connectQueue.notifies == old(connectQueue.notifies) + 1
    {
      session := new SocketSidebandData(socket, nextConnectBufferSize, nextConnectLowLatency);
      taken := session.ReadConnectionId();
      assert session.id == AnnouncedId(old(socket.incoming), taken);
      registry.RegisterSidebandData(session.id, address);
      connectQueue.Notify();
    }
  }
}
