/** A parsed Compose project and the app it belongs to, as far as Convert reads them
    (adapters/kube/converter.go, adapters/kube/compose.go, domain/model/app.go). */
module Compose {
  import opened Text
  import NetworkPolicy
  import EnvFile

  /** Go's uint32. */
  type Uint32 = x: int | 0 <= x < 0x1_0000_0000

  datatype Port = Port(published: string, target: Uint32)

  datatype MountKind = Bind | NamedVolume | OtherMount(text: string)
  datatype VolumeRef = VolumeRef(kind: MountKind, source: string, target: string)

  /** A service's reference to a top-level config or secret. */
  datatype FileRef = FileRef(source: string, target: string, mode: Option<Uint32>)

  /** A top-level config or secret. */
  datatype FileDef = FileDef(external: bool, name: string, file: string, content: string)

  datatype Service = Service(
    ports: seq<Port>,
    volumes: seq<VolumeRef>,
    configs: seq<FileRef>,
    secrets: seq<FileRef>,
    envFiles: seq<EnvFile.EnvRef>)

  /** The services, configs and secrets are Go maps, keyed by name. */
  datatype Project = Project(services: map<string, Service>, configs: map<string, FileDef>,
                             secrets: map<string, FileDef>)

  datatype FileKind = ConfigFile | SecretFile

  function DefsOf(kind: FileKind, project: Project): map<string, FileDef> {
    match kind
    case ConfigFile => project.configs
    case SecretFile => project.secrets
  }

  function RefsOf(kind: FileKind, s: Service): seq<FileRef> {
    match kind
    case ConfigFile => s.configs
    case SecretFile => s.secrets
  }

  datatype AppVolume = AppVolume(name: string, size: int, volumeType: string)
  datatype IngressRule = IngressRule(name: string, port: int, hosts: seq<string>)

  datatype App = App(
    name: string,
    volumes: seq<AppVolume>,
    refBase: string,
    ingress: seq<IngressRule>,
    policy: seq<NetworkPolicy.Rule>)
}
