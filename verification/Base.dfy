/** Bytes, identifiers and the records shared by every part of the model. */
module Base {

  type byte = b: int | 0 <= b < 256
  type bytes = seq<byte>

  /** A grout interface id (uint16); 0 is "undefined". */
  type Id = n: int | 0 <= n < 0x1_0000

  /** A uint32. */
  type Word = n: int | 0 <= n < 0x1_0000_0000

  /** A uint64. */
  type Long = n: int | 0 <= n < 0x1_0000_0000_0000_0000

  datatype Option<+T> = None | Some(value: T)

  /** GR_IFACE_TYPE_* codes the CNI plugin uses; a TAP is a PORT. */
  const KIND_PORT: byte := 2
  const KIND_BRIDGE: byte := 6

  /** One entry of InterfaceList. */
  datatype Info = Info(id: Id, kind: byte, name: bytes, domain: Id)

  /** An attachment is what the runtime names in every CNI call. */
  datatype Attachment = Attachment(container: bytes, ifName: bytes)

  /** net.IPNet: an address with its mask, both as raw bytes. */
  datatype IPNet = IPNet(ip: bytes, mask: bytes)

  /** One entry of an IPAM result; the gateway is optional. */
  datatype IPConfig = IPConfig(address: IPNet, gateway: Option<bytes>)

  /** The addresses of an IPAM result; an entry may be nil. */
  type Entries = seq<Option<IPConfig>>

  predicate HasPrefix(s: bytes, p: bytes) {
    |p| <= |s| && s[..|p|] == p
  }
}
