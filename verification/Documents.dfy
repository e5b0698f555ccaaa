/** Resource documents as the loader hands them over: a kind, a Resource ID and a typed object
    (config/crd/ops/v1alpha1/loader.go, types.go). */
module Documents {
  import opened Text
  import opened ResourceId
  import NetworkPolicy

  datatype Meta = Meta(name: string, annotations: map<string, string>)

  datatype ClusterSpec = ClusterSpec(protection: Option<ProtectionSpec>)
  datatype ProtectionSpec = ProtectionSpec(provisioning: string, installation: string)

  /** A volume of an app; size is None when its quantity does not parse. */
  datatype VolumeSpec = VolumeSpec(name: string, size: Option<int>, volumeType: string)
  datatype DeploymentSpec =
    DeploymentSpec(pool: string, pools: seq<string>, zone: string, zones: seq<string>, selectors: map<string, string>)
  datatype AppSpec =
    AppSpec(volumes: seq<VolumeSpec>, deployment: Option<DeploymentSpec>, ingressRules: seq<NetworkPolicy.Rule>)

  datatype BoxSpec =
    BoxSpec(component: string, image: string, command: seq<string>, args: seq<string>, hasIngress: bool,
            ingressRules: seq<NetworkPolicy.Rule>)

  datatype Object =
    | WorkspaceObject(meta: Meta)
    | ProviderObject(meta: Meta)
    | ClusterObject(meta: Meta, cluster: ClusterSpec)
    | AppObject(meta: Meta, app: AppSpec)
    | BoxObject(meta: Meta, box: BoxSpec)
    | OtherObject(meta: Meta)

  datatype Document = Document(kind: Kind, fqn: FQN, obj: Object, path: string, index: int)

  /** The kind a type assertion on the object succeeds for. */
  function ObjectKind(o: Object): Kind {
    match o
    case WorkspaceObject(_) => WorkspaceKind
    case ProviderObject(_) => ProviderKind
    case ClusterObject(_, _) => ClusterKind
    case AppObject(_, _) => AppKind
    case BoxObject(_, _) => BoxKind
    case OtherObject(_) => OtherKind("")
  }

  const ANNOTATION_ID := "ops.kompox.dev/id"

  /** ExtractResourceID: the ID in an object's annotations, checked against its kind and name. */
  function Extract(kind: Kind, meta: Meta): Option<FQN> {
    if ANNOTATION_ID !in meta.annotations then None
    else match Validate(meta.annotations[ANNOTATION_ID], kind, meta.name)
      case Err(_) => None
      case Ok(id) => Some(id)
  }

  /** What the loader guarantees of a document of the five kinds: the object has the kind the
      document states, and the ID was extracted from the object. */
  predicate Loaded(d: Document) {
    !d.kind.OtherKind? && ObjectKind(d.obj) == d.kind && Extract(d.kind, d.obj.meta) == Some(d.fqn)
  }
}
