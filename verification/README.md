# grout-cni, verified

A Dafny 4.11 model of grout-cni, the CNI plugin that attaches Kubernetes pods to the grout DPDK
router, with proofs about every run of it. `dafny verify dfyconfig.toml` checks the whole project.

The plugin keeps no store of its own: ADD, DEL, CHECK and GC recompute a port's name from the
attachment and look it up in grout. Two things carry the weight, and both are modelled.

**The handlers** (`pkg/cni`). A handler is a machine that makes one external call at a time
(`Machine`). A call may be answered in any way the environment allows (`Grout.Answers`):
interfaces are listed in any order, new ids are arbitrary, and calls fail as badly as the
environment's mode permits.

- *Reliable*: creating and configuring may fail; listing, deleting, flushing and releasing fail only
  where grout itself refuses.
- *Faulty*: any call may fail; a failed flush may have removed some addresses.
- *Lossy*: a call may also take effect and be reported as failed.

A run is the list of answers received so far, so a prefix of a run is a crash. `Scripts` says apart from
the machines which calls a handler makes, in which order and with which arguments. `Handlers` holds the
Go code as imperative methods over a mutable node, each proved to follow its machine. `Processes`
puts any number of them under the file lock, with waiting, the 60-second timer racing the pending
flock, and crashes.

**The wire client** (`pkg/groutapi`). Frames on a byte stream, correlation ids, and C structs
written at fixed offsets. `EndToEnd` ties the two together: what the handlers assume of a successful
list call is what the wire delivers.

What grout guarantees by itself is kept small: names are unique, ids are fresh, and an interface that
holds addresses is not deleted. That a bridge is not deleted while it has members is proved of the
handlers, not assumed of grout.

Where the code and its comments differ, the model follows the code:

- `pkg/cni/config.go:91-93` says distinct networks do not collapse onto one bridge. Every network name
  longer than 12 bytes shares its bridge with a 12-byte one (`LongNetworkShares`).
- A bridge may be configured with a name that is also a port name. `BridgeNameExact` and
  `BridgeShapeExact` show that this is exactly when a port can be left on a deleted bridge.
- A response over maxMsgLen is refused but not skipped, which takes the stream off its frame boundary
  (`OversizeExact`); within the limit no session ever leaves it (`SessionAligned`).
- IPAM is not released when its result cannot be converted, or when it makes `gatewaysFor` panic, which
  can be read off the result (`FailedAddReliable`, `ReleaseExact`, `PanicsExactly`).
- GC's comment speaks of the network's ports; its scope is the bridge (`GcScope`, `GcCrosses`).

Assumptions about what was in grout before: the `grk-` prefix is not used by other members of a domain,
ports carry no addresses, and domains are live (`Safety.Inv`). The reference-store theorem also takes
every existing port to be on a bridge (`RefStore.Ready`). Runs of ADD are taken to have a bridge name
without the shape of a port name (`Safety.JobOk`), the condition `BridgeShapeExact` shows to be exact.

## Model

| member | source | states |
|---|---|---|
| Processes.AlwaysSafe | pkg/cni/lock.go:49-74 | in every reachable state of every interleaving, with any failures, timeouts and crashes: one process at most between Lock and Unlock, unique names, no dangling domain, every port ADD made still on a live interface with its configured bridge name; no step deletes an interface that is a domain |
| Processes.Serialisable | pkg/cni/handler.go:81-92 | every interleaving leaves the world of a serial order of handlers, some cut short; each process returned what its turn returned, and one that never got inside has no turn |
| Processes.TimedOutTouchesNothing | pkg/cni/lock.go:55-63 | a caller whose Lock timed out took no turn and made no external call, even if the kernel granted it the lock late |
| Processes.ConcurrentRefines | pkg/cni/handler.go:197-200 | with reliable cleanup, if every process whose Lock succeeded has returned, grout after any interleaving holds what a ref store holds after the same calls in lock order; processes still waiting, timed out or dead do not matter |
| Processes.PortStays | pkg/cni/handler.go:81-92 | in every interleaving, whatever fails, times out or crashes, a port stays as it is, on its bridge, until a process is asked to DEL its name or to GC its bridge without listing it |
| Persistence.PortPersists | pkg/cni/handler.go:94-97 | the same over every serial history, in every mode, with handlers cut short anywhere |
| Progress.Closing | pkg/cni/handler.go:80-614 | whatever the answer to a call, the handler is closer to its return, so no run is infinite |
| Progress.Completable | pkg/cni/handler.go:80-614 | in every mode and from every world, every run can be completed |
| RefStore.RefStoreRefines | pkg/cni/handler.go:94-97 | over every serial history of completed handlers, table and reference store agree: ADD adds on success only, DEL removes, GC retains |
| RefStore.CheckAgrees | pkg/cni/handler.go:465-474 | CHECK reports the port missing exactly when the reference store does not hold the attachment at that moment |
| RefStore.CheckLookup | pkg/cni/handler.go:462-474 | CHECK changes nothing and its lookup fails exactly for attachments outside the store |
| RefStore.NamingExact | pkg/cni/portname.go:17-26 | groutPortName is an injective naming of the attachments in use exactly if their digests differ pairwise within 55 bits |
| RefStore.GcScope | pkg/cni/handler.go:579-598 | a port survives GC exactly if it is on another bridge or listed as valid, whatever network it is for |
| Safety.StepSafe | pkg/cni/handler.go:80-614 | every answered call of every handler keeps the table invariant, deletes nothing that is a domain, alters nothing but addresses |
| Safety.RunSafe | pkg/cni/handler.go:80-614 | the invariant, and what each point of the code relies on, hold at every point of every run under every failure pattern |
| Safety.SweepSees | pkg/cni/handler.go:406-423 | gcBridgeIfEmpty goes on to delete exactly a live bridge without members |
| Cleanup.DelExact | pkg/cni/handler.go:364-386 | with reliable cleanup DEL succeeds; the port, its socket and allocation go, and its bridge exactly if it was the last member |
| Cleanup.DelSafety | pkg/cni/handler.go:364-386 | whatever fails, DEL touches only its port and, once that was the last member, that port's bridge |
| Cleanup.GcExact | pkg/cni/handler.go:574-613 | with reliable cleanup GC succeeds and leaves exactly the retained table, although it walks a stale listing; no allocation of a valid attachment is freed |
| Cleanup.GcSafety | pkg/cni/handler.go:574-613 | whatever fails, GC deletes only stale grk- ports on its bridge, and touches the bridge only if it had members and all of them were such ports and are gone |
| Cleanup.GcAllocations | pkg/cni/handler.go:611-612 | whatever fails, GC frees no allocation of a valid attachment |
| Lifecycle.GcMeaning | pkg/cni/handler.go:592-609 | the retained table read off: stale ports go, others stay, the bridge goes exactly if nothing else was on it |
| Lifecycle.FailedAdd | pkg/cni/handler.go:104-191 | a failed ADD asks IPAM to release once exactly if the IPAM result was converted and does not make gatewaysFor panic, or ensureBridge failed first; apart from a port left behind, grout differs at most by the bridge and gateways of the IPAM result on it; a port is left exactly if the rollback's delete was answered with an error, or, where replies can be lost, only then or after a lost create reply |
| Lifecycle.FailedAddReliable | pkg/cni/handler.go:109-112 | with reliable cleanup no port is left, and the allocation leaks exactly if its result could not be converted, or makes gatewaysFor panic after ensureBridge succeeded |
| Lifecycle.AddThenDel | pkg/cni/handler.go:365-385 | however ADD ended or was cut short, a later DEL removes its port: an absent bridge returns the table exactly, an empty one is removed, else only gateways of the IPAM result are new; with no port left, grout stays as it is, at most the bridge and such gateways being new; the attachment's allocation and the port's socket are gone |
| Lifecycle.DelTwice | pkg/cni/handler.go:381-383 | a second DEL leaves grout unchanged |
| Lifecycle.AddThenGc | pkg/cni/handler.go:586-609 | whatever port ADD left, a GC that does not list it removes it exactly if nothing but a bridge bore the bridge's name; it then keeps the bridge exactly if a member is not stale, and otherwise changes nothing |
| Attach.AddRun | pkg/cni/handler.go:104-200 | at every point of ADD, whatever fails: new in the table are only the bridge, the port and gateways of the IPAM result; a port outlives a rollback only if its delete was answered with an error; what IPAM and the sockets hold |
| Success.AddSucceeds | pkg/cni/handler.go:125-194 | a successful ADD: a bare new port on the configured bridge, which gained exactly the gateways; allocation held, and the socket for virtio; nothing else in the table changed; a TAP with a pod namespace was moved into it and configured, last of all |
| Success.GcSockets | pkg/cni/handler.go:604-605 | GC removes only sockets of stale ports, and all of them if cleanup is reliable |
| Success.CheckVerdict | pkg/cni/handler.go:469-507 | CHECK passes exactly if the port is there and, for virtio, the socket, and for a TAP in a netns prevResult was read and the pod interface verified; which error it gives otherwise |
| Scripts.AddScript | pkg/cni/handler.go:80-201 | the exact calls of every finished ADD, in order and with their arguments: allocate, convert, find or create the bridge, each gateway, socket directory, port, move, configure; after the first failure only the undoing delete and the release |
| Scripts.PodSideDone | pkg/cni/handler.go:174-194 | a TAP with a pod namespace is reported as attached only after it was created, moved and configured |
| Scripts.DelScript | pkg/cni/handler.go:364-386 | the exact calls of every finished DEL: list, delete, socket, bridge sweep, release, each whatever came of the one before; it fails exactly if the list call did |
| Scripts.CheckScript | pkg/cni/handler.go:465-507 | the exact calls of every finished CHECK and its verdict on their answers |
| Scripts.GcScript | pkg/cni/handler.go:574-613 | the exact calls of every finished GC: list, each stale port in order with its socket, the sweep if any was deleted, and last, bridge or not, IPAM with the valid attachments |
| Machine.SockPathRead | pkg/cni/handler.go:206-208 | the socket path is directory, "/vhost/", port name, ".sock" |
| Boundaries.BridgeNameExact | pkg/cni/config.go:73-77 | for a given digest function, a history leaving a port on a deleted bridge exists exactly if some attachment's port name equals the bridge name and another one's does not |
| Boundaries.BridgeShapeExact | pkg/cni/config.go:73-77 | a configured bridge name is safe under every digest function exactly if it does not have the shape of a port name |
| Boundaries.BreakingHistory | pkg/cni/handler.go:370-373 | that history, constructed: ADD of one attachment on such a bridge, then DEL of the other, whose port has the bridge's name |
| Lifecycle.DomainIsBridge | pkg/cni/handler.go:266-279 | ADD's port ends up on a bridge exactly if no other kind of interface already had the bridge's name |
| Boundaries.AddOnPort | pkg/cni/handler.go:266-279 | a run in which ADD succeeds with its port on something that is not a bridge |
| Boundaries.ReleaseExact | pkg/cni/handler.go:117-136 | every failed ADD with a given converted IPAM result releases it once exactly if that result does not make gatewaysFor panic |
| Boundaries.LeakingRun | pkg/cni/handler.go:331-335 | for every other result a run, in every mode, that keeps its allocation |
| Boundaries.MasklessLeaks | pkg/cni/handler.go:331-335 | one such result: an IPv4 address without mask and gateway |
| Boundaries.GcCrosses | pkg/cni/handler.go:579-598 | for every network of more than 12 bytes, a history in which GC of another network deletes its live port |
| Handlers.Node.Invoke | pkg/cni/handler.go:24-30 | one external call extends the legal run by one answer |
| Handlers.Node.HandleAdd | pkg/cni/handler.go:80-201 | what HandleAdd does under the lock is a complete legal run of the ADD machine that ends in the value it returns; on success it reports the result below for the allocation IPAM made |
| Handlers.PodResult | pkg/cni/handler.go:210-249 | the result names the pod interface, its namespace or socket, and every allocated address in order, each pointing at that interface; the rest is passed on |
| Handlers.Node.EnsureBridge | pkg/cni/handler.go:254-285 | find, create, or find again by name, as the machine does |
| Handlers.Node.AssignGateways | pkg/cni/handler.go:125-136 | the gateway loop stops at the first failure and releases |
| Handlers.Node.AddPodPort | pkg/cni/handler.go:138-200 | port creation with the MTU and the virtio and netns branches |
| Handlers.Node.ConfigurePod | pkg/cni/handler.go:174-194 | move and configure, undoing the port when either fails |
| Handlers.Node.CleanupAfterAddFailure | pkg/cni/handler.go:656-661 | delete, then release, whatever the delete says |
| Handlers.Node.HandleDel | pkg/cni/handler.go:348-387 | a complete legal run of the DEL machine |
| Handlers.Node.GcBridgeIfEmpty | pkg/cni/handler.go:400-435 | list, scan, flush, delete, best effort |
| Handlers.Node.HandleCheck | pkg/cni/handler.go:448-508 | a complete legal run of the CHECK machine |
| Handlers.Node.HandleGc | pkg/cni/handler.go:560-614 | a complete legal run of the GC machine, with the valid names derived from the attachments |
| Handlers.Node.Reap | pkg/cni/handler.go:591-609 | the reaping loop visits exactly the stale entries of the old listing, in order |
| Handlers.Node.ValidNames | pkg/cni/handler.go:586-589 | the filled map holds exactly the names of the valid attachments |
| Handlers.Node.FindBridgeId | pkg/cni/handler.go:288-295 | the loop finds the first bridge of that name |
| Handlers.Node.FindByName | pkg/cni/portname.go:30-37 | the loop finds the first interface of that name |
| Handlers.Node.IsEmptyBridge | pkg/cni/handler.go:406-423 | the scan loop with its two early returns |
| Handlers.FairExists | pkg/cni/handler.go:24-30 | every call has an answer in every world and mode, so the handlers' runs exist |
| Grout.FindsFirstBridge | pkg/cni/handler.go:288-295 | of several matches the first bridge in the list is returned |
| Grout.FindsFirstNamed | pkg/cni/handler.go:300-307 | of several matches the first interface in the list is returned |
| PortNames.PortNameExact | pkg/cni/portname.go:15-26 | two names are equal exactly when the digests agree on their first 55 bits |
| PortNames.PortNameShape | pkg/cni/portname.go:23-26 | always "grk-" and eleven base32 digits, 15 bytes |
| PortNames.PortNameRead | pkg/cni/portname.go:23-26 | each of the eleven digits is the base32 letter for its five bits of the digest |
| PortNames.BitsBack | pkg/cni/portname.go:25 | bits are counted from the most significant one of the first byte |
| PortNames.KeyRead | pkg/cni/portname.go:24 | what is hashed is container id, NUL, interface name |
| PortNames.NameOfBits | pkg/cni/portname.go:23-26 | every name of that shape is the port name of some digest |
| PortNames.KeyInjective | pkg/cni/portname.go:24 | the hashed key determines the attachment when container ids hold no NUL |
| PortNames.KeyShared | pkg/cni/portname.go:24 | an attachment shares its key with another exactly if its container id or its interface name holds a NUL |
| BridgeNames.BridgeNameShape | pkg/cni/config.go:94-108 | always "br-", at most 15 bytes, never a port name |
| BridgeNames.BridgeNameRead | pkg/cni/config.go:94-108 | "br-" and the network, or its first 7 bytes, a dash and the low 16 hash bits in hexadecimal |
| BridgeNames.BridgeNameInjective | pkg/cni/config.go:95-99 | injective on networks of at most 12 bytes |
| BridgeNames.LongNetworkShares | pkg/cni/config.go:91-108 | every longer network shares its bridge with a 12-byte one, whatever the hash |
| BridgeNames.SharedBridge | pkg/cni/config.go:94-108 | two networks share a bridge exactly if they are equal, or both long with equal first 7 bytes and equal low 16 hash bits, or one is what the other is shortened to |
| BridgeNames.LoadConfig | pkg/cni/config.go:62-88 | accepted exactly if every check passes, with the error of the first that fails; name, MTU, type and bridge taken over or defaulted; bridge at most 15 bytes, MTU fits uint16, default bridge never a port name |
| Gateways.ComputeGateways | pkg/cni/handler.go:323-344 | the loop computes one gateway per family, or panics, on a nil entry too, as its recursive form says |
| Gateways.DeriveGateway | pkg/cni/handler.go:331-335 | masking and the in-place increment give the derived gateway in a fresh slice; IPAM's address and mask are unchanged, however they are shared |
| Gateways.GatewaysAreFirsts | pkg/cni/handler.go:326-342 | at most one gateway per family, from the first address of that family, in list order; none at all if an entry is nil |
| Gateways.GatewaysRead | pkg/cni/handler.go:326-342 | the gateways themselves: for each family the one IPAM gave with its first address, or the masked address plus one, with that address's mask, in order |
| Gateways.AndBits | pkg/cni/handler.go:333 | masking is bitwise |
| Gateways.PanicsExactly | pkg/cni/handler.go:326-335 | gatewaysFor panics exactly on a nil entry, or if the first address of some family has no gateway and a mask that does not go with it |
| Gateways.DerivedGateway | pkg/cni/handler.go:331-335 | on every address and prefix mask: a gateway can be derived exactly if the lengths go together, as they are or after narrowing IPv4; it is network plus one inside the subnet exactly for prefixes shorter than full length |
| PodMac.PodMacFromResult | pkg/cni/netns.go:99-120 | unicast, locally administered, from the first IPv4 anywhere, else the first IPv6; none exactly if nothing is usable |
| PodMac.PodMacDistinct | pkg/cni/netns.go:107-109 | MACs agree exactly when the first IPv4 addresses do |
| Wire.ReadEncoded | pkg/groutapi/protocol.go:116-132 | reading a frame undoes writing it, whatever follows, exactly for payloads of at most maxMsgLen; of a longer one only the header is consumed |
| Wire.ReadLayout | pkg/groutapi/protocol.go:87-94 | what is read as a frame lies at these offsets of the stream |
| Wire.LittleEndian | pkg/groutapi/protocol.go:81-94 | the least significant byte comes first |
| Wire.RequestLayout | pkg/groutapi/protocol.go:79-104 | a request is id, type, length and payload |
| Wire.Conn.WriteRequest | pkg/groutapi/protocol.go:99-114 | id, type, length and payload are written in order, or as many of their bytes as the peer took before it went away |
| Wire.Conn.ReadResponse | pkg/groutapi/protocol.go:116-132 | a frame or an error, and exactly what is left of the stream |
| Client.GroutClient.Request | pkg/groutapi/client.go:153-183 | what is sent reads back as id, type and payload; one frame read; its payload only if id and status match and it is long enough for the caller's struct |
| Client.GroutClient.RequestStream | pkg/groutapi/client.go:185-212 | what is sent reads back as id, type and payload; frames read until the first empty one; terminates on every stream |
| Client.CallSync | pkg/groutapi/client.go:194-211 | against a well-formed answer a call returns it and stops right behind it |
| Client.SessionSync | pkg/groutapi/client.go:153-212 | every sequence of calls gets exactly its own answers in order and leaves the stream at the next answer, errors included |
| Client.CallReadsOwn | pkg/groutapi/client.go:196-209 | on any frames a call stops at a frame boundary, and on success read only frames with its id |
| Client.NoStaleAnswer | pkg/groutapi/client.go:162-168 | a successful call returns only frames sent in answer to it, whatever earlier calls left unread |
| Client.SessionNoStale | pkg/groutapi/client.go:149-212 | the same for every call of a session of fewer than 2^32 |
| Client.SessionAligned | pkg/groutapi/client.go:153-212 | on any frames within the limit, a session of any length and outcome never leaves a frame boundary |
| Client.IdsDistinct | pkg/groutapi/client.go:149-151 | ids repeat exactly every 2^32 requests |
| Client.NeverResync | pkg/groutapi/client.go:166-168 | with one foreign frame ahead, every later unary call of the session fails (fewer than 2^32 of them, one frame each) |
| Client.OversizeExact | pkg/groutapi/protocol.go:121-123 | for every frame: the stream stays at a frame boundary exactly if the payload is within maxMsgLen; otherwise the call fails with the whole payload unread |
| Client.OversizeMisleads | pkg/groutapi/protocol.go:121-123 | after any oversized frame whose payload begins with a frame for the next call, that call returns it |
| Client.OversizeBreaks | pkg/groutapi/protocol.go:121-123 | such a frame exists for every client |
| Layout.BuildIfaceAdd | pkg/groutapi/client.go:256-318 | the buffer written at offsets is the C struct field after field, the derived bridge MAC included, or refused as the code refuses it |
| Layout.BridgeMacExact | pkg/groutapi/client.go:332-337 | 02 and the low 40 bits of the hash, least significant byte first; shared exactly by names whose hashes agree in them |
| Layout.WriteBase | pkg/groutapi/client.go:274-286 | the base layout, with domain and MTU written only when set |
| Layout.AddCarriesName | pkg/groutapi/client.go:274-286 | for NUL-free names of at most 15 bytes the request decodes to the same name, type and domain |
| Layout.AddReadBack | pkg/groutapi/client.go:274-286 | id, type, flags, MTU, domain and name read at their offsets |
| Layout.BridgeReadBack | pkg/groutapi/client.go:288-293 | 432 bytes, with the MAC at offset 296 |
| Layout.PortReadBack | pkg/groutapi/client.go:305-318 | 466 bytes, with the NUL-terminated devargs at offset 306 |
| Layout.RecordDecodes | pkg/groutapi/client.go:220-249 | a listed record with any stale tail decodes to its interface exactly if the name holds no NUL |
| Layout.CStringCuts | pkg/groutapi/client.go:220-223 | cutting at the first NUL recovers exactly the NUL-free names |
| Layout.DecodeItems | pkg/groutapi/client.go:235-251 | the decoding loop skips short items and keeps order |
| Layout.BuildVdevId | pkg/groutapi/client.go:352-360 | the builder loop keeps exactly the lowercased letters and digits, of non-ASCII names too |
| Devices.VdevInjective | pkg/groutapi/client.go:350-360 | two port names have the same device id exactly if they are equal |
| Devices.LiveVdevsDistinct | pkg/groutapi/client.go:306-310 | live ports of a sound table have distinct device ids |
| Devices.DevargsFit | pkg/groutapi/client.go:310-317 | TAP devargs take 44 bytes; vhost ones fit exactly for socket directories of at most 69 bytes |
| Devices.DevargsRead | pkg/groutapi/client.go:340-348 | driver prefix, device id, ",iface=", then the name or the socket path |
| Devices.VdevOne | pkg/groutapi/client.go:352-360 | letters lowercased, digits kept, the rest of ASCII dropped |
| Devices.VdevConcat | pkg/groutapi/client.go:352-360 | ASCII names are taken character by character, in order |
| Devices.VdevUnicode | pkg/groutapi/client.go:352-360 | the two characters outside ASCII that give a letter |
| EndToEnd.ListingFidelity | pkg/groutapi/client.go:226-252 | any table with encodable names, in any order and with any filler, arrives as a listing of exactly that table |
| EndToEnd.StaysEncodable | pkg/cni/handler.go:143-148 | handlers that send encodable names keep the table encodable |
| EndToEnd.PortNameEncodable | pkg/cni/portname.go:23-26 | port names are NUL-free and at most 15 bytes |
| EndToEnd.DelFindsPort | pkg/cni/handler.go:365-370 | the port ADD left is found by DEL's lookup in the decoded list, with its id and domain |
| Requests.OnesExact | pkg/groutapi/client.go:375 | the prefix length is recognised for exactly the contiguous masks |
| Requests.PrefixLenExact | pkg/groutapi/client.go:375 | the length of a prefix mask is its prefix, that of any other mask 0 |
| Requests.BuildAddress | pkg/groutapi/client.go:374-442 | IPv4 and IPv6 payloads read back as interface, address, prefix and flag; other addresses are refused |
| Requests.BuildRouteAdd | pkg/groutapi/client.go:462-510 | route payloads read back as VRF with its default, destination, next hop and flag; mixed families are refused |
| Requests.BuildFlood | pkg/groutapi/client.go:573-622 | type, VRF with its default, VNI, address and flag at their offsets in 32 bytes; refused unless IPv4 |
| Requests.FloodRoundTrip | pkg/groutapi/client.go:640-648 | every entry decodes to its VNI, VRF and address |
| Requests.VxlanRoundTrip | pkg/groutapi/client.go:294-304 | the VXLAN section reads back as VNI, VRF, port and local address |

## Left out

- Netlink and namespace work, prevResult parsing, result conversion, mkdir: that they are called, with which names, and success or failure.
- IPAM plugins: a set of allocations and a count of releases; GC of IPAM may free anything not listed as valid.
- SHA-256 and FNV: arbitrary functions of the right width.
- Handlers.Node.HandleAdd: the methods start after Lock has returned; the lock is a set of transitions in `Processes`, not a class, and opening the lock file is left out.
- Gateways.ComputeGateways: takes the entries as values; `DeriveGateway` covers the slices.
- Machine.SockPath: joins the socket directory and name plainly; path cleaning is not modelled.
- Grout.FindNamed: listings are taken to report the true type of an interface; a grout that misreports types is not modelled.
- Client.GroutClient.Request: an empty reply succeeds without decoding; that InterfaceAdd then returns interface id 0 is not part of the handlers' environment.
- RouteDel, the hello handshake, STATUS, logging, and changes to grout by actors that do not take the lock.
