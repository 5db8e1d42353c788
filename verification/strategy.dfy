/** The transports a stream can ask for. */
module Strategies {
  datatype Strategy =
    | Unknown | Grpc | SharedMemory | DoubleBufferedSharedMemory
    | SocketStrategy | SocketsLowLatency | HypervisorSockets | Rdma | RdmaLowLatency
}
