/** The records shared by the daemon's components (pkg/types/types.go) and the small
    option type the other modules use for "found or not" results. */
module Types {

  datatype Option<+T> = None | Some(value: T)

  type byte = x: int | 0 <= x < 0x100
  type uint32 = x: int | 0 <= x < 0x1_0000_0000
  type uint64 = x: int | 0 <= x < 0x1_0000_0000_0000_0000

  datatype NodeState = NodeUnknown | NodeUp | NodeSuspect | NodeDown | NodeDraining

  datatype Resources = Resources(
    memoryTotalMB: uint64, memoryUsedMB: uint64, cpuCores: uint32,
    cpuLoad: real, diskTotalMB: uint64, diskUsedMB: uint64)
  {
    /** Free memory saturates at zero instead of wrapping around. */
    function FreeMemoryMB(): uint64 {
      if memoryUsedMB >= memoryTotalMB then 0 else memoryTotalMB - memoryUsedMB
    }
  }

  /** Instants are nanosecond counts. */
  datatype Node = Node(
    id: string, address: string, state: NodeState, resources: Resources,
    lastHeartbeat: int, isLeader: bool, version: string)

  datatype ServerState =
    ServerStopped | ServerStarting | ServerReady | ServerStopping | ServerCrashed | ServerOrphaned

  datatype ServerSpec = ServerSpec(
    id: string, name: string, templateId: string, groupId: string, image: string,
    memoryMB: uint64, cpuQuota: real, env: map<string, string>, minecraftPort: uint32,
    haRequired: bool)

  datatype Server = Server(
    spec: ServerSpec, nodeId: string, state: ServerState, playerCount: uint32,
    maxPlayers: uint32, startedAt: int, containerId: string, hostPort: uint32)

  datatype Group = Group(
    id: string, name: string, templateId: string, minInstances: int, maxInstances: int,
    haRequired: bool)

  datatype Template = Template(id: string, name: string, mode: string, image: string, baseVolume: string)

  datatype Database = Database(
    id: string, name: string, engine: string, username: string, host: string, port: uint32,
    createdAt: int, sizeBytes: uint64)

  datatype Token = Token(
    id: string, hash: string, description: string, scopes: seq<string>, createdAt: int,
    expiresAt: int, lastUsedAt: int)
}
