/** Rust-owned copies of SDL's device lists, with the virtual devices added
    (crosspuck-driver/src/sdl_enumeration.rs). */
module SdlEnumeration {
  import opened Wrappers
  import opened Identity
  import opened ProfilePaths

  /** What a list node says about its device; a null string is None. */
  datatype DeviceInfo = DeviceInfo(
    path: Option<string>,
    vendorId: u16,
    productId: u16,
    serial: Option<string>,
    release: u16,
    manufacturer: Option<string>,
    product: Option<string>,
    usagePage: u16,
    usage: u16,
    interfaceNumber: int,
    interfaceClass: int,
    interfaceSubclass: int,
    interfaceProtocol: int,
    busType: int)

  /** A node of the heap list. */
  class Node {
    var info: DeviceInfo
    var next: Node?

    constructor (info: DeviceInfo)
      ensures this.info == info && next == null
    {
      this.info, next := info, null;
    }
  }

  /** `nodes` are the nodes of the list at `head`, which is acyclic and ends in null. */
  predicate IsList(head: Node?, nodes: seq<Node>)
    reads nodes
  {
    && (head == if nodes == [] then null else nodes[0])
    && (forall i, j :: 0 <= i < j < |nodes| ==> nodes[i] != nodes[j])
    && (forall i :: 0 <= i < |nodes| ==> nodes[i].next == if i + 1 < |nodes| then nodes[i + 1] else null)
  }

  function Contents(nodes: seq<Node>): (r: seq<DeviceInfo>)
    reads nodes
    ensures |r| == |nodes| && forall i :: 0 <= i < |nodes| ==> r[i] == nodes[i].info
  {
    if nodes == [] then [] else [nodes[0].info] + Contents(nodes[1..])
  }

  // ------------------------------------------------------------- the contents

  /** A virtual device's node, unless its path cannot be a C string. */
  function VirtualDevice(catalog: Catalog, profile: Profile): Option<DeviceInfo> {
    match catalog.Find(profile)
    case None => None
    case Some(descriptor) =>
      match DevicePath(catalog, profile)
      case None => None
      case Some(path) =>
        if '\0' in path then None
        else
          var identity := catalog.identity;
          Some(DeviceInfo(Some(path), identity.vendorId, identity.productId, Some(identity.serial), identity.versionNumber,
                          Some(identity.manufacturer), Some(identity.product), descriptor.usagePage, descriptor.usage,
                          descriptor.interfaceNumber, 0, 0, 0, 1))
  }

  /** The profile that a native device stands for. */
  function ProfileOf(catalog: Catalog, info: DeviceInfo): Option<Profile> {
    if info.path.None? then None else ProfileForPath(catalog, info.path.value)
  }

  /** The profile whose virtual device replaces a native one. */
  function Replacing(catalog: Catalog, info: DeviceInfo): Option<Profile> {
    match ProfileOf(catalog, info)
    case None => None
    case Some(profile) => if VirtualDevice(catalog, profile).Some? then Some(profile) else None
  }

  function Replaced(catalog: Catalog, info: DeviceInfo): DeviceInfo {
    match Replacing(catalog, info)
    case None => info
    case Some(profile) => VirtualDevice(catalog, profile).value
  }

  function ReplacedAll(catalog: Catalog, infos: seq<DeviceInfo>): (r: seq<DeviceInfo>)
    ensures |r| == |infos| && forall i :: 0 <= i < |infos| ==> r[i] == Replaced(catalog, infos[i])
  {
    if infos == [] then [] else [Replaced(catalog, infos[0])] + ReplacedAll(catalog, infos[1..])
  }

  function Seen(catalog: Catalog, infos: seq<DeviceInfo>): seq<Profile> {
    if infos == [] then []
    else
      (match Replacing(catalog, infos[0]) case None => [] case Some(profile) => [profile]) + Seen(catalog, infos[1..])
  }

  /** The virtual devices that no native one stood for. */
  function Unseen(catalog: Catalog, descriptors: seq<Descriptor>, seen: seq<Profile>): seq<DeviceInfo> {
    if descriptors == [] then []
    else
      var device := VirtualDevice(catalog, descriptors[0].profile);
      (if descriptors[0].profile !in seen && device.Some? then [device.value] else [])
      + Unseen(catalog, descriptors[1..], seen)
  }

  function Augmented(catalog: Catalog, infos: seq<DeviceInfo>): seq<DeviceInfo> {
    ReplacedAll(catalog, infos) + Unseen(catalog, catalog.Descriptors(), Seen(catalog, infos))
  }

  // ------------------------------------------------------------ the heap list

  lemma OneMoreReplaced(catalog: Catalog, infos: seq<DeviceInfo>, k: nat)
    requires k < |infos|
    ensures ReplacedAll(catalog, infos[..k + 1]) == ReplacedAll(catalog, infos[..k]) + [Replaced(catalog, infos[k])]
  {
    hide Replaced;
  }

  lemma {:induction false} OneMoreSeen(catalog: Catalog, infos: seq<DeviceInfo>, k: nat)
    requires k < |infos|
    ensures var replacing := Replacing(catalog, infos[k]);
            Seen(catalog, infos[..k + 1])
            == Seen(catalog, infos[..k]) + if replacing.Some? then [replacing.value] else []
  {
    hide Replacing;
    if k > 0 {
      OneMoreSeen(catalog, infos[1..], k - 1);
      assert infos[..k + 1][1..] == infos[1..][..k] && infos[..k][1..] == infos[1..][..k - 1];
    } else {
      assert infos[..1][1..] == [] && infos[..0] == [];
    }
  }

  lemma {:induction false} UnseenFrom(catalog: Catalog, descriptors: seq<Descriptor>, seen: seq<Profile>, k: nat)
    requires k < |descriptors|
    ensures var device := VirtualDevice(catalog, descriptors[k].profile);
            Unseen(catalog, descriptors[..k + 1], seen)
            == Unseen(catalog, descriptors[..k], seen)
               + if descriptors[k].profile !in seen && device.Some? then [device.value] else []
  {
    hide VirtualDevice;
    if k > 0 {
      UnseenFrom(catalog, descriptors[1..], seen, k - 1);
      assert descriptors[..k + 1][1..] == descriptors[1..][..k] && descriptors[..k][1..] == descriptors[1..][..k - 1];
    } else {
      assert descriptors[..1][1..] == [] && descriptors[..0] == [];
    }
  }

  predicate DistinctNodes(nodes: seq<Node>) {
    forall i, j :: 0 <= i < j < |nodes| ==> nodes[i] != nodes[j]
  }

  lemma NextNode(head: Node?, nodes: seq<Node>, k: nat)
    requires IsList(head, nodes) && k < |nodes|
    ensures nodes[k].next == if k + 1 < |nodes| then nodes[k + 1] else null
  {}

  lemma DistinctAppend(nodes: seq<Node>, node: Node)
    requires DistinctNodes(nodes) && node !in nodes
    ensures DistinctNodes(nodes + [node])
  {}

  lemma NoNatives(catalog: Catalog)
    ensures ReplacedAll(catalog, []) == [] && Seen(catalog, []) == []
  {}

  lemma NoneUnseen(catalog: Catalog, seen: seq<Profile>)
    ensures Unseen(catalog, [], seen) == []
  {}

  lemma EmptyNodes()
    ensures DistinctNodes([]) && Contents([]) == []
  {}

  lemma ContentsAppend(nodes: seq<Node>, node: Node)
    ensures Contents(nodes + [node]) == Contents(nodes) + [node.info]
  {}

  lemma ContentsConcat(a: seq<Node>, b: seq<Node>)
    ensures Contents(a + b) == Contents(a) + Contents(b)
  {}

  /** A new node for a native device: a copy, or the virtual device it stands for. */
  method CopyNode(info: DeviceInfo, catalog: Catalog) returns (node: Node, replaced: Option<Profile>)
    ensures fresh(node) && node.info == Replaced(catalog, info) && replaced == Replacing(catalog, info)
  {
    hide ProfileForPath, VirtualDevice;
    var profile := ProfileOf(catalog, info);
    var replacement := None;
    replaced := None;
    if profile.Some? {
      replacement := VirtualDevice(catalog, profile.value);
      if replacement.Some? {
        replaced := profile;
      }
    }
    node := new Node(if replacement.Some? then replacement.value else info);
  }

  /** Copies the native nodes, the matching ones as virtual devices. */
  method CopyNatives(original: Node?, ghost natives: seq<Node>, catalog: Catalog) returns (nodes: seq<Node>, seen: seq<Profile>)
    requires IsList(original, natives)
    ensures (forall i :: 0 <= i < |nodes| ==> fresh(nodes[i])) && DistinctNodes(nodes)
    ensures Contents(nodes) == ReplacedAll(catalog, Contents(natives)) && seen == Seen(catalog, Contents(natives))
  {
    hide Replacing, Replaced, ReplacedAll, Seen, Contents, DistinctNodes;
    nodes, seen := [], [];
    EmptyNodes();
    var current := original;
    ghost var k: nat := 0;
    ghost var infos := Contents(natives);
    NoNatives(catalog);
    while current != null
      invariant IsList(original, natives)
      invariant k <= |natives| && current == (if k < |natives| then natives[k] else null)
      invariant (forall i :: 0 <= i < |nodes| ==> fresh(nodes[i])) && DistinctNodes(nodes)
      invariant Contents(nodes) == ReplacedAll(catalog, infos[..k])
      invariant seen == Seen(catalog, infos[..k])
      decreases |natives| - k
    {
      NextNode(original, natives, k);
      assert infos[k] == current.info;
      var node, replaced := CopyNode(current.info, catalog);
      if replaced.Some? {
        seen := seen + [replaced.value];
      }
      OneMoreReplaced(catalog, infos, k);
      OneMoreSeen(catalog, infos, k);
      ContentsAppend(nodes, node);
      DistinctAppend(nodes, node);
      nodes := nodes + [node];
      current := current.next;
      k := k + 1;
    }
    assert infos[..k] == infos;
  }

  /** Nodes for the catalog's devices that were not seen. */
  method UnseenNodes(seen: seq<Profile>, catalog: Catalog) returns (nodes: seq<Node>)
    ensures (forall i :: 0 <= i < |nodes| ==> fresh(nodes[i])) && DistinctNodes(nodes)
    ensures Contents(nodes) == Unseen(catalog, catalog.Descriptors(), seen)
  {
    hide VirtualDevice, DescriptorsFor, Unseen, Contents, DistinctNodes;
    nodes := [];
    EmptyNodes();
    NoneUnseen(catalog, seen);
    var descriptors := catalog.Descriptors();
    for i := 0 to |descriptors|
      invariant (forall i :: 0 <= i < |nodes| ==> fresh(nodes[i])) && DistinctNodes(nodes)
      invariant Contents(nodes) == Unseen(catalog, descriptors[..i], seen)
    {
      UnseenFrom(catalog, descriptors, seen, i);
      if descriptors[i].profile !in seen {
        var device := VirtualDevice(catalog, descriptors[i].profile);
        if device.Some? {
          var node := new Node(device.value);
          ContentsAppend(nodes, node);
          DistinctAppend(nodes, node);
          nodes := nodes + [node];
        }
      }
    }
    assert descriptors[..|descriptors|] == descriptors;
  }

  /** Links the owned nodes into one list. */
  method LinkAll(nodes: seq<Node>)
    requires DistinctNodes(nodes)
    modifies nodes
    ensures IsList(if nodes == [] then null else nodes[0], nodes)
    ensures Contents(nodes) == old(Contents(nodes))
  {
    for i := 0 to |nodes|
      invariant forall k :: 0 <= k < i ==> nodes[k].next == if k + 1 < |nodes| then nodes[k + 1] else null
      invariant forall k :: 0 <= k < |nodes| ==> nodes[k].info == old(nodes[k].info)
    {
      nodes[i].next := if i + 1 < |nodes| then nodes[i + 1] else null;
    }
  }

  /** The augmented list is a new acyclic list; the native one stays as it is. */
  method Augment(original: Node?, ghost natives: seq<Node>, catalog: Catalog) returns (nodes: seq<Node>)
    requires IsList(original, natives)
    ensures forall i :: 0 <= i < |nodes| ==> fresh(nodes[i])
    ensures IsList(if nodes == [] then null else nodes[0], nodes)
    ensures Contents(nodes) == Augmented(catalog, Contents(natives))
    ensures IsList(original, natives) && Contents(natives) == old(Contents(natives))
  {
    hide VirtualDevice, DescriptorsFor, Unseen, ReplacedAll, Seen, Contents;
    var copies, seen := CopyNatives(original, natives, catalog);
    var added := UnseenNodes(seen, catalog);
    assert forall n :: n in added ==> n !in copies;
    nodes := copies + added;
    ContentsConcat(copies, added);
    LinkAll(nodes);
  }
}
