# Kompox: verified model of the translation and state-machine core

Kompox reads a tree of resource documents (Workspace, Provider, Cluster, App, Box), turns an App and
its Compose file into Kubernetes objects, and manages the disks behind the App's volumes. This
project models that core in Dafny and proves what the pieces mean together.

`dafny verify dfyconfig.toml` checks everything.

## How it is organised

- **Shared**: `Text` (strings, numbers, trimming, splitting), `Sorting` (order, sorting, visiting a
  map in any order).
- **Documents to records**: `ResourceId` (ID parser and printer), `Documents`, `Validator` (one pass in
  topological order), `Sinks` (the index), `ToModels` (loading into repositories), `NetworkPolicy`
  (policy rules from document to Kubernetes).
- **Compose to Kubernetes**: `Compose` (the parsed input), `EnvFile`, `Routing` (ports, names, hosts),
  `Mounts` (volumes, configs, secrets), `MountRequests` (the same in the words of the Compose file),
  `Plans` (what Convert builds), `Shell` (what the init
  container's script does), `Converters` (the converter object with Convert, BindVolumes and Build),
  `PodClosure` and `Traffic` (what its result means).
- **Disks**: `Naming` (hashes and bounded names), `Cloud` (from a volume's type to its store, managed
  disks or file shares; tags and flags on resources), `DiskRuns` (runs of operations), `Volumes` (the
  operations themselves, any call of which may fail), `Deploy` (from assigned disks to a built app).
- **Change detection**: `ContentHash`, `PodHash`, `Patch` (JSON patch and merge patch), `Rollout` (the
  Deployment update).
- **Stand-alone**: `Kubeconfig`, `Dns`.

Objects whose methods change fields in the source are classes here: `Converters.Converter`,
`Converters.VolumeBinding`, `ToModels.Repositories`, `Volumes.VolumeStore`, `Rollout.Namespace`,
`Kubeconfig.Config`, `Dns.RecordSet`. Loops are loops with invariants, proved against functions or
predicates, and the properties of those are lemmas.

A Go map is visited in an order nobody controls, although comments in `adapters/kube/converter.go`
(lines 324, 419 and 967) call the order of the services deterministic. `Sorting.Enumerate` promises
no order, so every result holds for all orders; `sort.Slice` likewise promises nothing about ties.

## Where the code does less than one might expect

Each of these has a counterexample, an exact condition or both among the lemmas.

- Two ingress rules may have the same name, and must have it when their host ports lead to one
  container port; Kubernetes refuses a Service that repeats a port name. It also refuses names that
  end in a hyphen or have two in a row, port numbers outside 1 to 65535, and hosts with capital
  letters or of another wrong form, all of which Convert accepts. `Routing.EqualNamesRefused`,
  `Routing.SharedPortRefused` and `Routing.FormsRefused` are the counterexamples;
  `Traffic.TrafficReaches` says exactly when the Service and Ingresses are admitted and requests arrive.
- A parsed config or secret with both `content` and a `file` of another base name is mounted under a
  key its object does not have (`PodClosure.BothFileAndContent`, `PodClosure.KeysAgreeExactly`). The
  Compose loader, which is not part of this model, may refuse such a definition before.
- A volume keeps its one assigned disk if and only if no create overwrites that disk's resource
  (`DiskRuns.ExactlyOneForever`). Share names such as `v-w-d` belong to two (volume, disk) pairs, and
  long managed-disk names of one volume are cut (`DiskRuns.ShareTakeover`, `Naming.DiskNamesCollide`).
  That a create on an occupied name replaces the resource with its metadata is an assumption about the
  cloud; where it refuses instead, nothing is overwritten.
- Listings of managed disks do not look at the app they belong to. Where two apps share a resource
  group and have a volume of the same name, each lists the other's disks, under resource names that
  are not its own (`DiskRuns.ForeignDisk`).
- The init container's lines are unquoted shell text: a sub-path with a blank or a special character
  does not get its directory (`Shell.BlankMakesTwo`, `Shell.MkdirExactly`).
- A hash that moves between two missing references does not change a pod's hash
  (`PodHash.MovedHashUnnoticed`, `PodHash.TextsEqualExactly`).
- The label `@` directly below a zone shares its record with the apex (`Dns.SharedExactly`), and a
  name ending in two dots is trimmed again by later steps (`Dns.NormalizedOnce`).

## Model

| member | source | states |
|---|---|---|
| `ResourceId.KindSegments` | config/crd/ops/v1alpha1/fqn.go:35-46 | the loop pairs the segments two by two; nothing for an odd number or an empty path |
| `ResourceId.ParseResourceID` | config/crd/ops/v1alpha1/fqn.go:142-185 | the loop with its early errors returns exactly what the recursive parse of the segments returns |
| `ResourceId.ValidateParentChain` | config/crd/ops/v1alpha1/fqn.go:221-265 | the loop reports the first pair whose kind differs from the chain required for the kind |
| `ResourceId.AcceptedExactly` | config/crd/ops/v1alpha1/fqn.go:194-217 | an ID is accepted for a kind and name if and only if it is the rendering of one to five DNS labels whose count gives the kind and whose last is the name |
| `ResourceId.NamesBijection` | config/crd/ops/v1alpha1/fqn.go:23-46 | rendering and reading back names are inverse, so accepted IDs and name lists correspond one to one |
| `ResourceId.BuildFromParts` | config/crd/ops/v1alpha1/fqn.go:267-300 | building from parent, kind and last name returns every accepted ID |
| `ResourceId.ParentOfBuilt` | config/crd/ops/v1alpha1/fqn.go:111-119 | the parent of whatever the builder accepts is the parent it was given |
| `ResourceId.ParentIsAccepted` | config/crd/ops/v1alpha1/fqn.go:111-119 | the parent of an accepted ID is itself accepted, one kind up |
| `Validator.SortByTopology` | config/crd/ops/v1alpha1/validator.go:187-208 | an ordered rearrangement of the documents; ties may come in any order |
| `Validator.CheckDocument` | config/crd/ops/v1alpha1/validator.go:118-175 | no fault exactly when pair count, ID, parent and Box are right with respect to what was seen |
| `Validator.Validate` | config/crd/ops/v1alpha1/validator.go:102-183 | no error if and only if the set is well-formed (five kinds); every valid Box is in order; valid documents are closed under parents; with distinct IDs they are exactly the documents with a complete chain of ancestors |
| `Validator.BoxFitsExactly` | config/crd/ops/v1alpha1/validator.go:57-91 | a Box passes if and only if its name is a label other than app, its component is empty or that name, it has no ingress, and without an image it has no command and no arguments; a fault says which of these fails |
| `Validator.WellFormedExactly` | config/crd/ops/v1alpha1/validator.go:102-183 | well-formed sets in the documents’ own fields: distinct IDs, pair counts by kind, parents present, Boxes in order |
| `Validator.ParentFirst` | config/crd/ops/v1alpha1/validator.go:187-224 | with the right pair counts a parent sorts strictly before its child, which is why one pass is enough |
| `Validator.SameDocuments` | config/crd/ops/v1alpha1/validator.go:102-183 | the verdict is the same for every permutation of the input |
| `Sinks.NewSink` | config/crd/ops/v1alpha1/sink.go:20-63 | an index that holds exactly the given documents, or none when they are not well-formed |
| `Sinks.IndexedHas` | config/crd/ops/v1alpha1/sink.go:66-113 | a lookup finds a document if and only if one of that kind and ID was given, and finds that one |
| `Sinks.CountsDocuments` | config/crd/ops/v1alpha1/sink.go:166-168 | the count is the number of documents |
| `ToModels.ConvertVolumes` | config/crd/ops/v1alpha1/sink_tomodels.go:275-288 | all volumes in order with their parsed sizes, or an error naming the first size that does not parse |
| `ToModels.ProtectionExactly` | config/crd/ops/v1alpha1/sink_tomodels.go:193-215 | a protection is accepted if and only if each level is none, cannotDelete, readOnly or empty; both are kept in their places, empty as none |
| `ToModels.PlacementExactly` | config/crd/ops/v1alpha1/sink_tomodels.go:86-100 | a placement is accepted if and only if it has not both a pool and pools, not both a zone and zones, and no selectors |
| `ToModels.StoreApp` | config/crd/ops/v1alpha1/sink_tomodels.go:219-398 | an app is stored under its ID with its name, parent, volumes, placement and exactly the domain copy of its policy rules, or not at all |
| `ToModels.LoadedIsConsistent` | config/crd/ops/v1alpha1/sink_tomodels.go:117-510 | in an index over loaded, well-formed documents every parent is indexed one kind up |
| `ToModels.LoadModels` | config/crd/ops/v1alpha1/sink_tomodels.go:117-510 | at every step and at every error exit, each stored record has its parent stored, and nothing is added or changed under IDs that are not indexed; on success exactly the indexed records are added, each with its document’s name, parent ID and checked fields |
| `ToModels.LoadDocuments` | config/crd/ops/v1alpha1/sink_tomodels.go:117-510 | documents to repositories: indexed if and only if well-formed, closed throughout |
| `NetworkPolicy.ConvertRules` | config/crd/ops/v1alpha1/sink_tomodels.go:310-392 | accepted if and only if every rule, peer, expression and port is acceptable; then all rules are copied with protocols defaulted |
| `NetworkPolicy.EmptySelectsAll` | config/crd/ops/v1alpha1/sink_tomodels.go:318-360 | of selectors with accepted requirements, exactly the empty one selects every namespace; it is refused, so no accepted peer admits everything |
| `NetworkPolicy.RequirementExactly` | config/crd/ops/v1alpha1/sink_tomodels.go:330-356 | In and NotIn need values, Exists and DoesNotExist must have none, other operators are refused; every accepted requirement can be met and can be missed |
| `NetworkPolicy.NamespaceValues` | adapters/kube/converter.go:760-775 | the default namespaces, each once |
| `NetworkPolicy.PeersExactly` | adapters/kube/converter.go:789-820 | whatever the rules, exactly the selectors that are not empty become peers of the generated policy |
| `NetworkPolicy.BuildPolicy` | adapters/kube/converter.go:776-845 | one rule for the default namespaces, then one per domain rule that has a peer or a port |
| `NetworkPolicy.PolicyKeepsMeaning` | adapters/kube/converter.go:758-845 | the (namespace labels, protocol, port) triples admitted are exactly the default namespaces plus what the rules ask for; no rule or peer is dropped, no generated rule is open to all sources |
| `Traffic.PolicyMeansRules` | adapters/kube/converter.go:758-857 | the same from the loaded document to the policy a converter stores |
| `Routing.ScanPorts` | adapters/kube/converter.go:451-479 | a service is scanned without error if and only if its ports are valid and the ports published so far stay unambiguous; the maps then say exactly what was published |
| `Routing.PortsAcceptedExactly` | adapters/kube/converter.go:451-479 | ports are accepted if and only if every entry has a container port and a text that says a positive 64-bit host port, no container port is in two services, and no host port is said for two container ports |
| `Traffic.PortsRead` | adapters/kube/converter.go:451-479 | after a conversion every published numeral n is mapped to the container port behind it, and every mapped host port is one that a published text says |
| `Text.AtoiExactly` | adapters/kube/converter.go:456-459 | a text is read as a number if and only if it is an optional sign, zeros and the numeral of that 64-bit number |
| `Routing.ListedMembers` | adapters/kube/converter.go:465-474 | a container lists exactly the container ports of its service |
| `Routing.MapsUnique` | adapters/kube/converter.go:413-479 | the port maps depend on what is published, not on the order of the visits |
| `Routing.OnePublisher` | adapters/kube/converter.go:451-479 | a mapped host port leads to a container port that exactly one service lists, and that service published it |
| `Routing.BuildRulePorts` | adapters/kube/converter.go:901-944 | accepted if and only if names, ports, port names and hosts are acceptable; then one Service port per rule |
| `Routing.RoutedExactly` | adapters/kube/converter.go:901-944 | the Service is admissible to Kubernetes if and only if the rules have distinct names not ending in a hyphen, and ports that after truncation to 32 bits are distinct and, like their container ports, within 1 to 65535; then every rule is routed to its container port and nowhere else |
| `Routing.EqualNamesRefused` | adapters/kube/converter.go:901-944 | concrete accepted rules of one name whose Service Kubernetes refuses, on two container ports and on one |
| `Routing.SharedPortRefused` | adapters/kube/converter.go:918-926 | two accepted rules on one container port never give an admissible Service, whatever they are called |
| `Routing.FormsRefused` | adapters/kube/converter.go:901-944 | single accepted rules whose Service or Ingress Kubernetes refuses: a name ending in a hyphen, a port above 65535, two hyphens in a row, a host with a capital letter |
| `Routing.DefaultHostUnderDomain` | adapters/kube/converter.go:1017-1036 | generated hosts lie under the domain, where no custom host may lie |
| `Routing.DefaultHostsDistinct` | adapters/kube/converter.go:1017-1036 | different host ports give different generated hosts |
| `Routing.UnderDomainExactly` | adapters/kube/converter.go:918-932 | a host lies under the domain if and only if, in any case, it is the domain or ends in a dot and the domain |
| `Routing.DefaultHostForm` | adapters/kube/converter.go:1017-1036 | for an app named by a label, a generated host is acceptable to Kubernetes if and only if the domain is lower-case and well-formed and the whole has at most 253 characters |
| `Routing.BuildCustomRules` | adapters/kube/converter.go:984-1012 | with the rules accepted the duplicate-host error is unreachable, and every host leads to its rule’s name |
| `Routing.BuildDefaultRules` | adapters/kube/converter.go:1017-1036 | with the rules accepted neither the duplicate nor the collision error is reachable; one host per rule |
| `Routing.BuildPlainPorts` | adapters/kube/converter.go:945-963 | without rules, one Service port per host port, ascending |
| `Routing.PlainPortsRoute` | adapters/kube/converter.go:945-963 | each name of that Service leads to the container port of its host port; the Service is admissible if and only if all published ports, truncated to 32 bits, are distinct and within 1 to 65535, like their container ports |
| `Traffic.TrafficReaches` | adapters/kube/converter.go:413-1036 | after a successful conversion a rule’s hosts have one admitted Ingress entry each and lead, through an admitted Service, to the one container that published the rule’s host port, if and only if the names, ports and hosts of the rules and the generated hosts have the form Kubernetes demands |
| `Traffic.RulesReached` | adapters/kube/converter.go:897-1036 | the same for any Service, Ingresses and port maps that the rules give, whatever built the containers |
| `Traffic.CustomFitsExactly` | adapters/kube/converter.go:984-1012 | the custom Ingress is admitted if and only if every rule with hosts has a name without a final or a double hyphen and every host, trimmed, is a lower-case domain name or wildcard and no IP address |
| `Traffic.PlainTrafficReaches` | adapters/kube/converter.go:413-963 | the same without rules, by the generated port names, if and only if the published ports fit a Service |
| `Traffic.HostsNeverCollide` | adapters/kube/converter.go:984-1036 | no host occurs twice in the two Ingresses together |
| `Mounts.CheckTargetConflict` | adapters/kube/converter.go:244-296 | errors if and only if two files take one path, warnings if and only if a file and a volume do |
| `Mounts.BuildObjects` | adapters/kube/converter.go:353-411 | accepted if and only if all names and definitions are; then exactly one object per definition that is not passed through, under its resolved key |
| `Mounts.MountFiles` | adapters/kube/converter.go:549-658 | accepted if and only if every reference is defined; one mount per reference that is not passed through, in order, under the table’s key; table entries are never changed and have a mode that some reference asks for |
| `Mounts.MountVolumes` | adapters/kube/converter.go:482-546 | accepted if and only if every reference resolves; every mounted sub-path is recorded |
| `Mounts.DropContested` | adapters/kube/converter.go:667-709 | exactly the mounts of app volumes at a contested path are removed; the rest keeps its order |
| `Mounts.MountService` | adapters/kube/converter.go:482-709 | accepted if and only if a condition on the one service holds; the container gets exactly the mounts the service asks for, less the volumes at contested paths, exactly the used sub-paths are recorded, and no file shares its path |
| `MountRequests.ResolvesExactly` | adapters/kube/converter.go:482-541 | a volume reference is resolved to a volume and sub-path if and only if it stands for them: a named app volume with the path behind the first slash, or a relative directory in the first app volume |
| `MountRequests.MountsExactly` | adapters/kube/converter.go:482-709 | a container mounts an app volume if and only if a reference asks for it and no file takes the path, and a file if and only if a config or secret reference asks for it, at its target or the usual path, by the key of its definition |
| `MountRequests.PlannedMounts` | adapters/kube/converter.go:482-709 | the same for every container after a conversion |
| `MountRequests.PlannedSubPaths` | adapters/kube/converter.go:534-541 | exactly the sub-paths that some reference stands for are recorded |
| `MountRequests.PlannedEnv` | adapters/kube/converter.go:322-349 | every service with env files has one Secret of its name, with exactly the keys its files have and the value of the last file for each |
| `MountRequests.DefsExactly` | adapters/kube/compose.go:195-228 | a definition gives its content under its name or its readable file under the last part of the path, configs only as text, and none if it is external or only named |
| `Plans.BuildEnvSecrets` | adapters/kube/converter.go:322-349 | accepted if and only if every service’s env files can be merged; one Secret per service that has some, holding the right-biased merge |
| `Plans.EnvNamesSeparate` | adapters/kube/naming.go:5-13 | the base and override Secrets of different services never coincide |
| `Plans.ConvertServices` | adapters/kube/converter.go:413-720 | verdict and port maps of the loop over the services are the same for every visiting order; one container per service with exactly its ports and mounts; recorded sub-paths are those some service uses |
| `Plans.BuildInit` | adapters/kube/converter.go:713-756 | a mkdir line for every recorded sub-path and no other, one mount per volume concerned, none of it without sub-paths |
| `Plans.Expose` | adapters/kube/converter.go:897-1045 | succeeds if and only if the rules are acceptable; Service and Ingresses are those of the rules |
| `Plans.BuildHeadless` | adapters/kube/converter.go:965-980 | succeeds if and only if no service takes a reserved name; one headless Service each |
| `Plans.ReservedExactly` | adapters/kube/converter.go:966-975 | reserved are the names that go on behind the app’s name with -app or -box |
| `Converters.Converter.Convert` | adapters/kube/converter.go:299-1065 | succeeds if and only if a condition free of any visiting order holds, however often it was tried before; the plan then has every part of the conversion, a failure keeps the former plan |
| `Converters.Converter.BindVolumes` | adapters/kube/converter.go:1075-1242 | succeeds if and only if every binding is acceptable; each binding then has its PV and PVC under its own trimmed name or the default name, and a failure stores nothing |
| `Converters.Converter.Build` | adapters/kube/converter.go:1246-1330 | succeeds if and only if the bindings align with the app’s volumes; the pod has one claim per volume, then one volume per mounted file |
| `Converters.BuildFileVolumes` | adapters/kube/converter.go:1279-1317 | one projected volume per mounted file, whatever the order of the map |
| `Converters.Converter.ChosenExactly` | adapters/kube/converter.go:1135-1138 | a resource name given with a binding counts without the spaces around it, a blank one leaves the default name |
| `Converters.Converter.ChosenStays` | adapters/kube/converter.go:1127-1131 | a chosen resource name is not empty and is chosen again when bound again |
| `Converters.Converter.IngressExactly` | adapters/kube/converter.go:889-895 | domain and controller namespace are the given ones without spaces around them; without an ingress there is no domain and the namespace is traefik |
| `PodClosure.DistinctExactly` | adapters/kube/converter.go:1269-1317 | pod volume names are distinct if and only if the app’s are and no file’s volume takes one |
| `PodClosure.KeysAgreeExactly` | adapters/kube/compose.go:195-227 | mount key and object key agree if and only if the definition does not set both content and a differently named file |
| `PodClosure.BothFileAndContent` | adapters/kube/compose.go:195-227 | a concrete parsed definition, accepted by the key choice, whose mount key is not its object’s key |
| `PodClosure.FileHasObject` | adapters/kube/converter.go:549-658 | a mounted file projects the one generated object of that name; its key is in it exactly outside that family |
| `PodClosure.ClaimsServed` | adapters/kube/converter.go:1264-1277 | every claim names a generated PVC in the app’s namespace, bound to a generated PV with the trimmed handle of the disk bound for that volume |
| `PodClosure.BoundData` | adapters/kube/converter.go:1125-1190 | PV and PVC have the disk’s size, or the app volume’s where the disk has none, and the PV the driver of the volume’s class |
| `PodClosure.FileModeKept` | adapters/kube/converter.go:1278-1317 | a mounted file is projected with the mode that was asked for, truncated to 32 bits with sign |
| `PodClosure.OwnDisksExactly` | adapters/kube/converter.go:1112-1248 | every claim names exactly one PVC, and that exactly one PV, with the volume’s own disk, if and only if the bindings’ final resource names are distinct |
| `PodClosure.SubPathMade` | adapters/kube/converter.go:713-742 | every surviving volume sub-path has its mkdir line |
| `Shell.MkdirExactly` | adapters/kube/converter.go:729-741 | the line is the command that makes exactly the mounted directory if and only if volume and sub-path have no blank and no character special to the shell |
| `Shell.BlankMakesTwo` | adapters/kube/converter.go:729-741 | a concrete sub-path, with a blank, whose line makes two other directories |
| `Shell.ScriptMakes` | adapters/kube/converter.go:713-742 | while all recorded sub-paths are free of such characters, the script makes the directory of every one of them and nothing else |
| `Shell.PlannedScriptMakes` | adapters/kube/converter.go:713-742 | the same for the script that a successful conversion plans; an init container it plans always has lines |
| `PodClosure.PodIsClosed` | adapters/kube/converter.go:481-1317 | every mount of every container and of the init container names exactly one pod volume, and what stands behind it is generated; no file shares its path |
| `Cloud.ServesExactly` | adapters/drivers/provider/aks/volume.go:13-25 | a name leads to a volume in a store if and only if the app’s first volume of that name has a type for that store, an empty type meaning disk |
| `Cloud.CreateEffect` | adapters/drivers/provider/aks/volume_backend_disk.go:95-146 | a create adds at most its own key to the assigned ones, never for a managed disk, for a share exactly when the volume had none, and takes away at most what it overwrites |
| `Cloud.CreateNameExactly` | adapters/drivers/provider/aks/volume.go:45-63 | a disk name counts without the spaces around it, a blank one makes the code generate one |
| `Cloud.CreateExactly` | adapters/drivers/provider/aks/volume_backend_disk.go:95-146 | a create goes through if and only if the names are within the store’s bounds and a given name, or any share name, is new in the volume; the resource carries volume, name and handle |
| `Cloud.DeleteExactly` | usecase/volume/disk_delete.go:51-74 | a delete goes through if and only if the volume has the disk unassigned, and takes away that disk and nothing else |
| `Cloud.FlagExactly` | adapters/drivers/provider/aks/volume_backend_disk.go:567-571 | a disk counts as assigned if and only if its tag is the word true in any letter case |
| `Cloud.OwnsExactly` | adapters/drivers/provider/aks/volume_backend_disk.go:547-563 | a resource is a disk of a volume if and only if it lies in its store and both name tags are there, not empty, with the volume’s name |
| `Cloud.AssignedEffect` | adapters/drivers/provider/aks/volume_backend_disk.go:297-335 | a completed assignment leaves the named disk as the only assigned one and other volumes as they were |
| `Cloud.DeleteEffect` | usecase/volume/disk_delete.go:51-74 | a delete that goes through changes no volume’s assigned disks |
| `Volumes.VolumeStore.DiskList` | adapters/drivers/provider/aks/volume_backend_disk.go:30-70 | an unknown volume or unsupported type is refused; otherwise exactly the disks of the volume in the store of its type, each read from its own resource |
| `Volumes.VolumeStore.DiskCreate` | adapters/drivers/provider/aks/volume_backend_files.go:100-249 | an unknown volume or unsupported type is refused unchanged; otherwise the effect on the cloud is the specified create in the store of the volume’s type, the specified refusal, or that of a call that failed before or after taking effect; a managed disk comes back unassigned, a share assigned exactly when it is the first |
| `Volumes.VolumeStore.DiskAssign` | adapters/drivers/provider/aks/volume_backend_disk.go:266-337 | completed: every wrong flag corrected by one update each and nothing else; stopped: a part of that; not found: nothing |
| `Volumes.VolumeStore.DiskDelete` | usecase/volume/disk_delete.go:23-75 | only an unassigned disk of the volume goes |
| `Volumes.VolumeStore.DiskCreateBootstrap` | usecase/volume/disk_create_bootstrap.go:45-157 | skips when every volume has one assigned disk, refuses mixed states and unsupported types unchanged, otherwise has the effect of the whole create-and-assign loop, over managed disks and shares alike, and returns one created disk per volume |
| `Volumes.UpdateReducesWrong` | adapters/drivers/provider/aks/volume_backend_files.go:320-359 | each correction reduces the number of wrongly flagged disks by one and touches no other volume |
| `Volumes.AssignConverges` | adapters/drivers/provider/aks/volume_backend_disk.go:280-336 | from any state a completed call leaves exactly the target assigned, and a repetition has nothing to update |
| `Volumes.BootstrapInitialises` | usecase/volume/disk_create_bootstrap.go:68-156 | for an app with managed disks, shares or both: whatever unassigned disks the volumes have, a bootstrap that reaches its end leaves every volume with one assigned disk, the one created for it with its handle, and a second call changes nothing; generated names have no hyphen, volumes no underscore and the prefix at most 32 characters, as in the code |
| `DiskRuns.AtMostOneAlways` | adapters/drivers/provider/aks/volume_backend_disk.go:73-337 | from an empty cloud, after any run of creates, assigns, deletes and bootstraps, no volume of the app, be it of managed disks or of shares, has two assigned disks |
| `DiskRuns.CreateKeepsOne` | adapters/drivers/provider/aks/volume_backend_files.go:156-194 | a create keeps a volume’s one assigned disk if and only if it does not write over that disk |
| `DiskRuns.ExactlyOneForever` | adapters/drivers/provider/aks/volume_backend_files.go:100-362 | a volume with one assigned disk has exactly one in every state of a run if and only if no create of the run puts its resource over that disk |
| `DiskRuns.ApplyKeepsOne` | adapters/drivers/provider/aks/volume_backend_disk.go:73-337 | one operation of any kind keeps a volume’s one assigned disk if and only if it writes over no assigned disk of it |
| `DiskRuns.NamesKeepOne` | adapters/drivers/provider/aks/volume_backend_files.go:156-160 | names alone: a volume of the app keeps its one assigned disk through every run whose volume and disk names fit its own, whatever disks the app’s other volumes have |
| `DiskRuns.ApartVolumes` | adapters/drivers/provider/aks/naming.go:131-145 | disks of different volumes in one store never share a resource, under names such as the code generates; a managed disk and a share never do, under any names |
| `DiskRuns.ForeignDisk` | adapters/drivers/provider/aks/naming.go:113-128 | in a shared resource group another app’s managed disk leaves the cloud consistent for this app if and only if its volume is none of this app’s, since listings do not look at the app |
| `DiskRuns.ManagedNamesFresh` | adapters/drivers/provider/aks/naming.go:131-145 | for managed disks with short label names a disk name unused in its volume is a free resource name |
| `DiskRuns.ShareKeysSeparate` | adapters/drivers/provider/aks/volume_backend_files.go:156-160 | share names tell (volume, disk) pairs apart when disk names have no hyphen |
| `DiskRuns.ShareTakeover` | adapters/drivers/provider/aks/volume_backend_files.go:156-194 | a concrete run, with hyphens, in which one volume’s share is taken over by another volume, given that a put on an occupied name replaces the share’s metadata |
| `Deploy.ReadyExactly` | usecase/app/validations.go:208-256 | a volume passes if and only if the driver finds and supports it and it has exactly one assigned disk in its store, with a handle, and a class with a CSI driver |
| `Deploy.FaultMeans` | usecase/app/validations.go:208-256 | what each reported fault says about the volume’s assigned disks, their handle and the class |
| `Deploy.CheckVolume` | usecase/app/validations.go:208-257 | the binding of a ready volume, or exactly the first fault in the order of the tests |
| `Deploy.ValidateAppVolumes` | usecase/app/validations.go:198-262 | complete if and only if every volume is ready, unless a listing fails; then one binding per volume, in order; the issues are those of the volumes, in order |
| `Deploy.BindableExactly` | usecase/app/validations.go:177-187 | the bindings of ready volumes pass BindVolumes and Build if and only if the volume names need no trimming |
| `Deploy.ValidateApp` | usecase/app/validations.go:163-196 | the app is built if and only if it can be converted, every volume is ready and its name needs no trimming, unless a listing fails; the built pod is closed, and with distinct volume names each claim leads to its volume’s one assigned disk, over exactly one PVC and PV |
| `Deploy.LabelsAreTrimmed` | usecase/app/validations.go:177-187 | names that are DNS labels need no trimming |
| `Deploy.BootstrapEnablesDeploy` | usecase/volume/disk_create_bootstrap.go:68-156 | for an app with managed disks, shares or both, a bootstrap that creates disks with handles makes every volume ready, so the check above passes |
| `ContentHash.ComputeContentHash` | adapters/kube/content_hash.go:13-30 | the hash of the map’s text, its entries in key order |
| `ContentHash.OneText` | adapters/kube/content_hash.go:13-30 | a map has one text, whatever order it is visited in |
| `ContentHash.ContentsSeparate` | adapters/kube/content_hash.go:13-30 | different maps with NUL-free entries and keys without equals sign have different texts |
| `ContentHash.AcceptedSeparable` | adapters/kube/compose_content.go:196-223 | all maps accepted as secret data are of that kind |
| `ContentHash.UncheckedCollide` | adapters/kube/content_hash.go:13-30 | a concrete pair of maps, one not accepted as secret data, with one text |
| `PodHash.ComputePodContentHash` | adapters/kube/content_hash.go:47-105 | empty without references, otherwise the hash of the referenced hashes in order |
| `PodHash.ReferencesExactly` | adapters/kube/content_hash.go:68-99 | a name is hashed if and only if it is not empty and a pull secret, an envFrom entry of some container or a volume names it |
| `PodHash.ReferencesInOrder` | adapters/kube/content_hash.go:68-99 | in order: pull secrets, envFrom entries by container, volumes, a Secret before a ConfigMap |
| `PodHash.HashedExactly` | adapters/kube/content_hash.go:100-105 | a pod has an empty hash without text if and only if it mentions nothing |
| `PodHash.ConfigMapsFirst` | adapters/kube/content_hash.go:51-67 | a ConfigMap’s hash counts before that of a Secret of the same name |
| `PodHash.OrderInvariant` | adapters/kube/content_hash.go:47-105 | rearranging distinctly named containers, Secrets and ConfigMaps does not change the text |
| `PodHash.TextsEqualExactly` | adapters/kube/content_hash.go:67-104 | for empty and six-character hashes, two texts are equal if and only if the hashes found are the same list |
| `PodHash.MovedHashUnnoticed` | adapters/kube/content_hash.go:67-104 | a concrete change that is not noticed: a hash moves from one missing reference to the next |
| `PodHash.PodChangeNoticed` | adapters/kube/content_hash.go:47-105 | when the hash of anything the pod names as pull secret, in an envFrom entry or in a volume changes to another of its length, the text of the pod changes |
| `Patch.UnescapeEscape` | adapters/kube/client_deployment.go:83-86 | unescaping a reference token (section 4 of RFC 6901) undoes the escaping, for every key |
| `Patch.TokensOfPointer` | adapters/kube/client_deployment.go:83-87 | an escaped pointer is read back as the path it was made from |
| `Patch.MergeNest` | adapters/kube/client_deployment.go:132-147 | a nested merge patch of one value (section 2 of RFC 7396) sets that value at its path and nothing else |
| `Patch.AddSets` | adapters/kube/client_deployment.go:96-125 | an add or replace that applies (sections 4.1 and 4.3 of RFC 6902) sets the value at its path and nothing else |
| `Rollout.PatchesAgree` | adapters/kube/client_deployment.go:96-147 | on every document the JSON patch applies if and only if the template has the objects it needs, and then its result is the merge patch’s |
| `Rollout.UpdateSettles` | adapters/kube/client_deployment.go:62-81 | after the update nothing counts as changed, and the rest of the pod spec is as it was |
| `Rollout.Namespace.UpToDateSays` | adapters/kube/client_deployment.go:44-148 | after a successful call the annotation holds the hash, if there is one, and the pull secrets are exactly the Deployment’s own if that Secret exists |
| `Rollout.Namespace.DesiredMentions` | adapters/kube/client_deployment.go:44-63 | the hash covers the Deployment’s own pull secret if it exists, and what containers and volumes mention |
| `Rollout.UpdateAgain` | adapters/kube/client_deployment.go:126-150 | repeating the update, as after a failed call that had taken effect, changes nothing |
| `Rollout.Namespace.PatchDeploymentPodContentHash` | adapters/kube/client_deployment.go:18-154 | success leaves the Deployment up to date and otherwise unchanged; failure leaves it as it was or up to date |
| `Rollout.Namespace.SecondCallQuiet` | adapters/kube/client_deployment.go:62-81 | a second call on the patched Deployment finds the same hash and issues no patch |
| `EnvFile.DecodeQuoted` | adapters/kube/compose_content.go:107-133 | the byte loop computes the recursive decoding |
| `EnvFile.DecodeEscape` | adapters/kube/compose_content.go:107-133 | the decoder undoes the matching escaper on every value |
| `EnvFile.ReadDotEnv` | adapters/kube/compose_content.go:74-145 | all lines in order with later ones overriding, or the first bad line |
| `EnvFile.ValueExactly` | adapters/kube/compose_content.go:93-141 | unquoted text without one leading blank, single-quoted text as it is, double-quoted text with its escapes resolved; unterminated quotes are errors |
| `EnvFile.PairLine` | adapters/kube/compose_content.go:80-97 | a line gives its key without spaces around it and the value behind its first equals sign; export in front changes nothing |
| `EnvFile.OtherLines` | adapters/kube/compose_content.go:80-92 | empty lines and comments hold no pair; no equals sign, or no key in front of it, is an error |
| `EnvFile.EnvKeyExactly` | adapters/kube/compose_content.go:16-19 | keys are ASCII letters, underscores and digits, not starting with a digit |
| `EnvFile.BadEscapes` | adapters/kube/compose_content.go:105-127 | an escape other than the five, and a backslash at the end, are refused |
| `EnvFile.JoinedTexts` | adapters/kube/compose_content.go:74-145 | two texts joined by a line feed are accepted if and only if both are, and give the first overridden by the second |
| `EnvFile.ReadPrinted` | adapters/kube/compose_content.go:74-145 | whatever pairs are written with valid keys, each unquoted, single-quoted or double-quoted, exported or not, between comments and empty lines and with either line end, are read back |
| `EnvFile.MergeEnvFiles` | adapters/kube/compose_content.go:227-258 | the right-biased merge of all files, with the value before its last change for every changed key and no other; errors exactly when a file or the limits fail |
| `EnvFile.FilesRead` | adapters/kube/compose_content.go:236-244 | the merge is defined if and only if every file with a path can be read |
| `EnvFile.MergedFiles` | adapters/kube/compose_content.go:227-252 | a key is in the merge if and only if a file has it, with the value of the last such file |
| `EnvFile.MergedIsLast` | adapters/kube/compose_content.go:236-252 | a merged key has the value of the last file that has it |
| `EnvFile.ValidateSecretData` | adapters/kube/compose_content.go:196-224 | accepted if and only if all keys are valid, no value has a refused control character and the total size is within the limit, whatever the order |
| `Kubeconfig.UniqueName` | internal/kubeconfig/kubeconfig.go:175-185 | the search ends; the name itself or the smallest unused suffix |
| `Kubeconfig.Config.Normalize` | internal/kubeconfig/kubeconfig.go:22-91 | succeeds if and only if a context is chosen and resolves; one context, cluster and user remain, with their data, under the wanted names |
| `Kubeconfig.Config.Merge` | internal/kubeconfig/kubeconfig.go:96-153 | succeeds if and only if the new current context resolves; exactly the three entries of that context are set under the chosen names |
| `Kubeconfig.MergedSays` | internal/kubeconfig/kubeconfig.go:96-153 | after a merge the three entries of the other configuration are there under the chosen names with their data, and the new context is current if and only if that is asked for or there was none |
| `Kubeconfig.NormalizedMergeable` | internal/kubeconfig/kubeconfig.go:22-91 | a normalized configuration can be merged and is closed |
| `Kubeconfig.NothingLost` | internal/kubeconfig/kubeconfig.go:124-140 | without force every existing entry is unchanged and exactly one of each kind is added |
| `Kubeconfig.OnlyNamedChange` | internal/kubeconfig/kubeconfig.go:130-140 | with force only the three named entries can change |
| `Kubeconfig.ForceAgain` | internal/kubeconfig/kubeconfig.go:130-150 | repeating a forced merge changes nothing |
| `Kubeconfig.StaysClosed` | internal/kubeconfig/kubeconfig.go:136-140 | contexts that resolved still do, so closed references stay closed |
| `Dns.SelectZone` | adapters/drivers/provider/aks/azure_dns.go:85-127 | a hint that names a zone decides; otherwise the first of the longest matching zones, and an error if and only if none matches |
| `Dns.CoversIsLabelSuffix` | adapters/drivers/provider/aks/azure_dns.go:108-119 | the suffix test on characters is the suffix test on labels |
| `Dns.OthersAreAncestors` | adapters/drivers/provider/aks/azure_dns.go:104-119 | every other matching zone is a label suffix of the chosen one |
| `Dns.RebuiltExactly` | adapters/drivers/provider/aks/azure_dns.go:163-180 | relative name and zone give back the name, the apex as @, for every name but the label @ itself below the zone |
| `Dns.SharedExactly` | adapters/drivers/provider/aks/azure_dns.go:163-180 | two names share a record if and only if they are equal or are the apex and the label @ below it |
| `Dns.DistinctNamesDistinctRecords` | adapters/drivers/provider/aks/azure_dns.go:163-180 | names without an @ label never share a record |
| `Dns.RecordSet.Normalize` | adapters/drivers/provider/aks/azure_dns.go:131-159 | which record sets are accepted; what happens to name and TTL, also on an error |
| `Dns.NormalizedOnce` | adapters/drivers/provider/aks/azure_dns.go:131-138 | trimming again changes nothing if and only if the name does not end in two dots |
| `Naming.TruncationBounds` | adapters/drivers/provider/aks/naming.go:42-51 | at most 72 characters, the hash suffix kept, nothing cut from a base that fits |
| `Naming.TruncationKeeps` | adapters/drivers/provider/aks/naming.go:42-51 | two names under one hash are equal if and only if their bases agree on what is kept |
| `Naming.KeptVolumesDiffer` | adapters/drivers/provider/aks/naming.go:131-145 | names in different volumes differ whatever is cut off, with a prefix of at most 32 and volumes of at most 16 characters |
| `Naming.DiskNamesSeparate` | adapters/drivers/provider/aks/naming.go:131-145 | different (volume, disk) pairs get different names: in different volumes within the driver’s own bounds, in one volume or under a longer prefix up to 58 characters of prefix, volume and disk |
| `Naming.DiskIsNotSnapshot` | adapters/drivers/provider/aks/naming.go:131-161 | no disk name is a snapshot name, with the prefix of at most 32 characters that the driver allows |
| `Naming.DiskNamesCollide` | adapters/drivers/provider/aks/naming.go:131-145 | beyond that bound, names in one volume that differ only in what is cut off coincide |
| `Naming.ComputeShortHash` | internal/naming/naming.go:37-48 | the padding loop computes a text of the wanted length |
| `Naming.FitExactly` | internal/naming/naming.go:37-48 | short text is padded with zeros in front, long text cut behind the wanted length |
| `Naming.NewHashes` | internal/naming/naming.go:56-76 | the three hashes have six characters each |
| `Naming.HashedIdentifiers` | internal/naming/naming.go:55-75 | the provider’s hash is of workspace and provider joined by a colon, the app’s of those and the app, the instance’s with the cluster too |
| `Naming.VolumeResourceNamesSeparate` | internal/naming/naming.go:78-81 | default volume names are equal if and only if volume and handle hash are |

## Left out

- `Converters.Converter.Convert`: does not model images, entrypoints, commands, plain environment variables, resources, labels, annotations, access objects or node scheduling, because they are copied through without branching.
- `Converters.Converter.Convert`: says nothing about the returned warnings; the code overwrites them with an empty list at line 1064.
- `Converters.Converter.BindVolumes`: does not model access modes, reclaim policy, volume mode, attributes and storage class names, because they are copied or looked up independently of everything else.
- `Mounts.MountVolumes`: two volume mounts of one service may take the same path, as in the code; path claims are about configs and secrets against all other mounts.
- `PodClosure.BothFileAndContent`: starts from a parsed definition; whether the Compose loader lets one with both `file` and `content` pass is not modelled.
- `Mounts.BuildObjects`: reading files, symlink checks and UTF-8 validity are a parameter that says which paths are readable and which are text.
- `EnvFile.MergeEnvFiles`: reading a file, with its YAML and JSON forms, is a parameter; the scanner's token limit is not modelled.
- `EnvFile.ReadDotEnv`: works on characters; for texts outside ASCII the byte lengths behind the size limit differ.
- `Traffic.TrafficReaches`: of what Kubernetes requires, the port names, port numbers and hosts of the Service and Ingresses are modelled, as section 2.1 of RFC 1123 and the Kubernetes API reference for Service and Ingress state them; the names and labels of the objects themselves and the admission of the Deployment are not.
- `Shell.MkdirExactly`: of the shell only words, comments and the characters that need quoting are modelled; a line with such a character counts as another command without saying which.
- `Routing.BuildRulePorts`: host comparison lowers ASCII letters only.
- `ToModels.LoadModels`: does not model certificates, settings, and the comparison of file paths behind an App's reference base; the fields it carries are those that later checks read.
- `ToModels.LoadModels`: a repository's create may fail at any call and otherwise stores under the given ID; the repositories themselves are not part of this model.
- `Validator.Validate`: error texts and document positions are not modelled beyond the kind of fault.
- `Volumes.VolumeStore.DiskCreate`: does not model sources, snapshots, sizes, zones, resource groups and options, among them the protocol of a share, which must be smb; a put on an occupied name is assumed to replace the resource, tags and metadata included.
- `Volumes.VolumeStore.DiskAssign`: requires, like the other disk operations, that every disk listed for the app lies under the resource name its tags determine; an empty cloud meets this, every operation keeps it, and resources that are not listed for the app do not matter. A listed managed disk of another app does not meet it.
- `Volumes.VolumeStore.DiskList`: the order by creation time is not modelled, because no modelled step depends on it.
- `DiskRuns.AtMostOneAlways`: is about sequential runs of operations that complete; the effects of failed calls are in the contracts of `Volumes.VolumeStore`, and concurrent processes are not modelled.
- `Deploy.ValidateApp`: starts behind the lookups of cluster, provider and workspace and the parsing of the Compose text.
- `Deploy.BootstrapEnablesDeploy`: takes the handles and sizes of disks and the classes with their CSI drivers as given.
- `Naming.ComputeShortHash`: the SHA-256 digest is a parameter; where names must need no trimming it is assumed to be base-36 text, and no claim about its collisions is made.
- `PodHash.ComputePodContentHash`: reads names, references and the hash annotation only; entries that are nil in the code are not in the lists.
- `Rollout.Namespace.SecondCallQuiet`: requires distinctly named containers, as Kubernetes does; with equal names the sort may order their hashes either way.
- `Rollout.Namespace.PatchDeploymentPodContentHash`: pointers into arrays are not modelled, because no operation uses one; containers and volumes are read from their members by a parameter, and the Secrets and ConfigMaps stay the same during the call.
- `Kubeconfig.Config.Normalize`: minifying is modelled as keeping the current context with its cluster and user, flattening as keeping all names; entries carry one payload each.
- `Kubeconfig.Config.Merge`: the configuration merged into and the one merged are different objects, because the code loads the former from its file.
- `Dns.RebuiltExactly`: is about names below the zone, as zone selection without a hint guarantees; for others the code returns the name itself.
- `Dns.SelectZone`: parsing zone resource IDs and the calls to Azure are not part of this model.
- CLI, logging, port forwarding, terminals, CRUD use cases, cluster protection checks and documentation generators: they would only add easy members.
