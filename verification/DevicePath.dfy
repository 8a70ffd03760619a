/** UEFI device paths: bounded node reading, segmentation and parsing. */
module DevicePaths {
  import opened Results
  import opened Bytes
  import opened Model
  import Utf16

  const MAX_INPUT_BYTES := 1_048_576
  const NODE_HEADER_BYTES := 4
  const MEDIA_DEVICE_PATH := 0x04
  const HARD_DRIVE_SUBTYPE := 0x01
  const FILE_PATH_SUBTYPE := 0x04
  const END_DEVICE_PATH := 0x7f
  const END_INSTANCE_SUBTYPE := 0x01
  const END_ENTIRE_SUBTYPE := 0xff
  const HARD_DRIVE_NODE_LENGTH := 42

  datatype Termination = NotEnd | EndsInstance | EndsEntire

  datatype BoundedNode = BoundedNode(
    nodeType: Byte, subtype: Byte, length: U16, payload: seq<Byte>, end: nat, termination: Termination)

  function ReadBoundedNode(bytes: seq<Byte>, offset: nat): (r: Result<BoundedNode, Error>)
    ensures r.Ok? ==> offset + NODE_HEADER_BYTES <= r.value.end <= |bytes|
    ensures r.Err? ==> r.error == MalformedDevicePath
  {
    if offset + NODE_HEADER_BYTES > |bytes| then Err(MalformedDevicePath)
    else
      var nodeType, subtype := bytes[offset], bytes[offset + 1];
      var length := U16Of(bytes[offset + 2..offset + 4]);
      if length < NODE_HEADER_BYTES || offset + length > |bytes| then Err(MalformedDevicePath)
      else
        var termination :- TerminationOf(nodeType, subtype, length);
        Ok(BoundedNode(nodeType, subtype, length, bytes[offset + 4..offset + length], offset + length, termination))
  }

  function TerminationOf(nodeType: Byte, subtype: Byte, length: U16): Result<Termination, Error> {
    if nodeType != END_DEVICE_PATH then Ok(NotEnd)
    else if length != NODE_HEADER_BYTES then Err(MalformedDevicePath)
    else if subtype == END_INSTANCE_SUBTYPE then Ok(EndsInstance)
    else if subtype == END_ENTIRE_SUBTYPE then Ok(EndsEntire)
    else Err(MalformedDevicePath)
  }

  function ParseNodeKind(nodeType: Byte, subtype: Byte, length: U16, payload: seq<Byte>, termination: Termination):
    (r: Result<NodeKind, Error>)
    ensures r.Err? ==>
              && r.error == MalformedDevicePath
              && termination == NotEnd
              && nodeType == MEDIA_DEVICE_PATH
              && (subtype == HARD_DRIVE_SUBTYPE || subtype == FILE_PATH_SUBTYPE)
  {
    match termination
    case EndsInstance => Ok(EndInstance)
    case EndsEntire => Ok(EndEntire)
    case NotEnd =>
      if nodeType == MEDIA_DEVICE_PATH && subtype == HARD_DRIVE_SUBTYPE then
        var drive :- ParseHardDrive(length, payload);
        Ok(HardDrive(drive))
      else if nodeType == MEDIA_DEVICE_PATH && subtype == FILE_PATH_SUBTYPE then
        var path :- ParseFilePath(payload);
        Ok(FilePath(path))
      else
        Ok(UnknownKind)
  }

  function ParseHardDrive(length: U16, payload: seq<Byte>): (r: Result<HardDriveNode, Error>)
    ensures r.Err? ==> r.error == MalformedDevicePath
  {
    if length != HARD_DRIVE_NODE_LENGTH || |payload| < 38 then Err(MalformedDevicePath)
    else Ok(HardDriveNode(
              U32Of(payload[0..4]), U64Of(payload[4..12]), U64Of(payload[12..20]),
              payload[20..36], payload[36], payload[37]))
  }

  function ParseFilePath(payload: seq<Byte>): (r: Result<seq<U16>, Error>)
    ensures r.Err? ==> r.error == MalformedDevicePath
  {
    if |payload| < 2 || |payload| % 2 != 0 then Err(MalformedDevicePath)
    else
      var units := Units(payload);
      if units[|units| - 1] != 0 then Err(MalformedDevicePath)
      else
        var path := units[..|units| - 1];
        if 0 in path || !Utf16.ValidUtf16(path) then Err(MalformedDevicePath) else Ok(path)
  }

  function NodeOf(node: BoundedNode, kind: NodeKind): Node {
    Node(node.nodeType, node.subtype, node.length, node.payload, kind)
  }

  /** What the parsing loop returns when it stands at `offset` having pushed `instances` and `nodes`. */
  function ParseNodes(bytes: seq<Byte>, offset: nat, instances: seq<Instance>, nodes: seq<Node>):
    Result<DevicePath, Error>
    decreases |bytes| - offset
  {
    if offset >= |bytes| then Err(MalformedDevicePath)
    else
      var node :- ReadBoundedNode(bytes, offset);
      var kind :- ParseNodeKind(node.nodeType, node.subtype, node.length, node.payload, node.termination);
      var nodes' := nodes + [NodeOf(node, kind)];
      if kind == EndInstance then
        if node.end == |bytes| then Err(MalformedDevicePath)
        else ParseNodes(bytes, node.end, instances + [Instance(nodes')], [])
      else if kind == EndEntire then
        if node.end != |bytes| then Err(MalformedDevicePath)
        else Ok(DevicePath(instances + [Instance(nodes')]))
      else
        ParseNodes(bytes, node.end, instances, nodes')
  }

  function ParseDevicePath(bytes: seq<Byte>): Result<DevicePath, Error> {
    if |bytes| > MAX_INPUT_BYTES then Err(ResourceLimit) else ParseNodes(bytes, 0, [], [])
  }

  method ParseDevicePathLoop(bytes: seq<Byte>) returns (r: Result<DevicePath, Error>)
    ensures r == ParseDevicePath(bytes)
  {
    if |bytes| > MAX_INPUT_BYTES {
      return Err(ResourceLimit);
    }
    var instances: seq<Instance>, nodes: seq<Node>, offset := [], [], 0;
    while offset < |bytes|
      invariant ParseNodes(bytes, offset, instances, nodes) == ParseNodes(bytes, 0, [], [])
    {
      var node :- ReadBoundedNode(bytes, offset);
      var kind :- ParseNodeKind(node.nodeType, node.subtype, node.length, node.payload, node.termination);
      nodes := nodes + [NodeOf(node, kind)];
      offset := node.end;
      if kind == EndInstance {
        if offset == |bytes| {
          return Err(MalformedDevicePath);
        }
        instances, nodes := instances + [Instance(nodes)], [];
      } else if kind == EndEntire {
        if offset != |bytes| {
          return Err(MalformedDevicePath);
        }
        return Ok(DevicePath(instances + [Instance(nodes)]));
      }
    }
    return Err(MalformedDevicePath);
  }

  /** Where the first End Entire node at or after `offset` ends. */
  function FirstPathEnd(bytes: seq<Byte>, offset: nat): (r: Result<nat, Error>)
    ensures r.Ok? ==> offset < r.value <= |bytes|
    ensures r.Err? ==> r.error == MalformedDevicePath
    decreases if offset <= |bytes| then |bytes| - offset else 0
  {
    var node :- ReadBoundedNode(bytes, offset);
    if node.termination == EndsEntire then Ok(node.end) else FirstPathEnd(bytes, node.end)
  }

  function FirstPathLength(bytes: seq<Byte>): Result<nat, Error> {
    FirstPathEnd(bytes, 0)
  }

  method FirstPathLengthLoop(bytes: seq<Byte>) returns (r: Result<nat, Error>)
    ensures r == FirstPathLength(bytes)
  {
    var offset := 0;
    while true
      invariant offset <= |bytes|
      invariant FirstPathEnd(bytes, offset) == FirstPathLength(bytes)
      decreases |bytes| - offset
    {
      var node :- ReadBoundedNode(bytes, offset);
      if node.termination == EndsEntire {
        return Ok(node.end);
      }
      offset := node.end;
    }
  }

  // Printing: the bytes a device path stands for.

  function PrintNode(node: Node): (bytes: seq<Byte>)
    ensures |bytes| == 4 + |node.payload|
  {
    [node.nodeType, node.subtype] + Le(2, node.length) + node.payload
  }

  function PrintNodes(nodes: seq<Node>): seq<Byte> {
    if nodes == [] then [] else PrintNode(nodes[0]) + PrintNodes(nodes[1..])
  }

  function PrintInstances(instances: seq<Instance>): seq<Byte> {
    if instances == [] then [] else PrintNodes(instances[0].nodes) + PrintInstances(instances[1..])
  }

  function PrintPath(path: DevicePath): seq<Byte> {
    PrintInstances(path.instances)
  }

  /** The length field counts the node, and the kind is the reading of the payload. */
  predicate WellFormedNode(node: Node) {
    var termination := TerminationOf(node.nodeType, node.subtype, node.length);
    && node.length == 4 + |node.payload|
    && termination.Ok?
    && ParseNodeKind(node.nodeType, node.subtype, node.length, node.payload, termination.value) == Ok(node.kind)
  }

  predicate IsEnd(node: Node) {
    node.kind == EndInstance || node.kind == EndEntire
  }

  predicate OpenNodes(nodes: seq<Node>) {
    forall i | 0 <= i < |nodes| :: WellFormedNode(nodes[i]) && !IsEnd(nodes[i])
  }

  predicate ClosedBy(instance: Instance, end: NodeKind) {
    var nodes := instance.nodes;
    && nodes != []
    && OpenNodes(nodes[..|nodes| - 1])
    && WellFormedNode(nodes[|nodes| - 1])
    && nodes[|nodes| - 1].kind == end
  }

  /** End nodes occur exactly at instance ends: End Instance between instances, End Entire last. */
  predicate WellFormedPath(path: DevicePath) {
    var instances := path.instances;
    && instances != []
    && (forall i | 0 <= i < |instances| - 1 :: ClosedBy(instances[i], EndInstance))
    && ClosedBy(instances[|instances| - 1], EndEntire)
  }

  lemma {:induction false} PrintNodesAppend(nodes: seq<Node>, more: seq<Node>)
    ensures PrintNodes(nodes + more) == PrintNodes(nodes) + PrintNodes(more)
  {
    if nodes == [] {
      assert nodes + more == more;
    } else {
      PrintNodesAppend(nodes[1..], more);
      assert (nodes + more)[1..] == nodes[1..] + more;
      Assoc(PrintNode(nodes[0]), PrintNodes(nodes[1..]), PrintNodes(more));
    }
  }

  lemma {:induction false} PrintInstancesAppend(instances: seq<Instance>, more: seq<Instance>)
    ensures PrintInstances(instances + more) == PrintInstances(instances) + PrintInstances(more)
  {
    if instances == [] {
      assert instances + more == more;
    } else {
      PrintInstancesAppend(instances[1..], more);
      assert (instances + more)[1..] == instances[1..] + more;
      hide PrintNodes;
      Assoc(PrintNodes(instances[0].nodes), PrintInstances(instances[1..]), PrintInstances(more));
    }
  }

  lemma PrintOneNode(node: Node)
    ensures PrintNodes([node]) == PrintNode(node)
  {
    assert [node][1..] == [];
  }

  lemma PrintOneInstance(instance: Instance)
    ensures PrintInstances([instance]) == PrintNodes(instance.nodes)
  {
    assert [instance][1..] == [];
  }

  /** A node that was read prints as the bytes it was read from. */
  lemma ReadThenPrint(bytes: seq<Byte>, offset: nat, kind: NodeKind)
    requires ReadBoundedNode(bytes, offset).Ok?
    ensures var node := ReadBoundedNode(bytes, offset).value;
            PrintNode(NodeOf(node, kind)) == bytes[offset..node.end]
  {
    var node := ReadBoundedNode(bytes, offset).value;
    LeOfFromLe(bytes[offset + 2..offset + 4]);
    assert bytes[offset..node.end]
        == [bytes[offset], bytes[offset + 1]] + bytes[offset + 2..offset + 4] + bytes[offset + 4..node.end];
  }

  /** A well-formed node that starts at `offset` is read back with its kind. */
  lemma PrintThenRead(bytes: seq<Byte>, offset: nat, node: Node)
    requires WellFormedNode(node)
    requires offset + |PrintNode(node)| <= |bytes|
    requires bytes[offset..offset + |PrintNode(node)|] == PrintNode(node)
    ensures var r := ReadBoundedNode(bytes, offset);
            && r.Ok?
            && r.value.end == offset + |PrintNode(node)|
            && NodeOf(r.value, node.kind) == node
            && ParseNodeKind(r.value.nodeType, r.value.subtype, r.value.length, r.value.payload, r.value.termination)
               == Ok(node.kind)
  {
    var printed := PrintNode(node);
    WordRoundTrips(node.length, 0, 0);
    assert forall k | 0 <= k < |printed| :: bytes[offset + k] == printed[k];
    assert bytes[offset] == node.nodeType && bytes[offset + 1] == node.subtype;
    assert bytes[offset + 2..offset + 4] == printed[2..4] == Le(2, node.length);
    assert bytes[offset + 4..offset + node.length] == printed[4..] == node.payload;
  }

  /** The nodes pushed so far are the bytes consumed so far. */
  ghost predicate Consumed(bytes: seq<Byte>, offset: nat, instances: seq<Instance>, nodes: seq<Node>) {
    && offset <= |bytes|
    && OpenNodes(nodes)
    && AllClosed(instances)
    && PrintInstances(instances) + PrintNodes(nodes) == bytes[..offset]
  }

  ghost predicate AllClosed(instances: seq<Instance>) {
    forall i | 0 <= i < |instances| :: ClosedBy(instances[i], EndInstance)
  }

  /** The node the loop reads at `offset`, with its kind. */
  ghost predicate Reads(bytes: seq<Byte>, offset: nat, node: Node, end: nat) {
    var r := ReadBoundedNode(bytes, offset);
    && r.Ok?
    && r.value.end == end
    && NodeOf(r.value, node.kind) == node
    && ParseNodeKind(node.nodeType, node.subtype, node.length, node.payload, r.value.termination) == Ok(node.kind)
  }

  lemma PushPrints(bytes: seq<Byte>, offset: nat, instances: seq<Instance>, nodes: seq<Node>, node: Node, end: nat)
    requires offset <= |bytes| && PrintInstances(instances) + PrintNodes(nodes) == bytes[..offset]
    requires Reads(bytes, offset, node, end)
    ensures WellFormedNode(node)
    ensures PrintInstances(instances) + PrintNodes(nodes + [node]) == bytes[..end]
  {
    hide ParseNodeKind, PrintInstances, PrintNodes;
    ReadThenPrint(bytes, offset, node.kind);
    PrintNodesAppend(nodes, [node]);
    PrintOneNode(node);
    assert bytes[..end] == bytes[..offset] + bytes[offset..end];
  }

  lemma ClosePrints(instances: seq<Instance>, nodes: seq<Node>, node: Node)
    requires OpenNodes(nodes) && WellFormedNode(node)
    ensures ClosedBy(Instance(nodes + [node]), node.kind)
    ensures PrintInstances(instances + [Instance(nodes + [node])])
         == PrintInstances(instances) + PrintNodes(nodes + [node])
  {
    var closed := Instance(nodes + [node]);
    assert closed.nodes[..|closed.nodes| - 1] == nodes;
    PrintInstancesAppend(instances, [closed]);
    PrintOneInstance(closed);
  }

  lemma {:induction false} ParseNodesSound(bytes: seq<Byte>, offset: nat, instances: seq<Instance>, nodes: seq<Node>)
    requires Consumed(bytes, offset, instances, nodes)
    requires ParseNodes(bytes, offset, instances, nodes).Ok?
    ensures var path := ParseNodes(bytes, offset, instances, nodes).value;
            WellFormedPath(path) && PrintPath(path) == bytes
    decreases |bytes| - offset
  {
    hide ParseNodes, Reads, PrintNodes, PrintInstances, WellFormedNode;
    var node, end := NodeRead(bytes, offset, instances, nodes);
    ParseStep(bytes, offset, instances, nodes, node, end);
    PushPrints(bytes, offset, instances, nodes, node, end);
    if IsEnd(node) {
      var closed := instances + [Instance(nodes + [node])];
      ClosePrints(instances, nodes, node);
      assert PrintInstances(closed) + [] == bytes[..end];
      if node.kind == EndInstance {
        NothingPrinted();
        ParseNodesSound(bytes, end, closed, []);
      } else {
        assert bytes[..end] == bytes;
      }
    } else {
      ParseNodesSound(bytes, end, instances, nodes + [node]);
    }
  }

  lemma NothingPrinted()
    ensures PrintNodes([]) == []
  {
  }

  /** The node a successful loop reads next. */
  lemma NodeRead(bytes: seq<Byte>, offset: nat, instances: seq<Instance>, nodes: seq<Node>)
    returns (node: Node, end: nat)
    requires ParseNodes(bytes, offset, instances, nodes).Ok?
    ensures offset < end <= |bytes| && Reads(bytes, offset, node, end)
  {
    var read := ReadBoundedNode(bytes, offset).value;
    var kind := ParseNodeKind(read.nodeType, read.subtype, read.length, read.payload, read.termination).value;
    node, end := NodeOf(read, kind), read.end;
  }

  /** One turn of the loop on a well-formed node that starts at `offset`. */
  lemma ReadsPrinted(bytes: seq<Byte>, offset: nat, node: Node, rest: seq<Byte>)
    requires WellFormedNode(node)
    requires offset <= |bytes| && bytes[offset..] == PrintNode(node) + rest
    ensures var end := offset + |PrintNode(node)|;
            end <= |bytes| && Reads(bytes, offset, node, end) && bytes[end..] == rest
  {
    var end := offset + |PrintNode(node)|;
    assert bytes[offset..end] == bytes[offset..][..|PrintNode(node)|];
    PrintThenRead(bytes, offset, node);
    assert bytes[end..] == bytes[offset..][|PrintNode(node)|..];
  }

  lemma NodeAtIsWellFormed(path: DevicePath, k: nat, j: nat)
    requires WellFormedPath(path)
    requires k < |path.instances| && j < |path.instances[k].nodes|
    ensures var nodes := path.instances[k].nodes;
            && WellFormedNode(nodes[j])
            && (j < |nodes| - 1 ==> !IsEnd(nodes[j]))
            && (j == |nodes| - 1 ==> nodes[j].kind == if k < |path.instances| - 1 then EndInstance else EndEntire)
  {
    var nodes := path.instances[k].nodes;
    if j < |nodes| - 1 {
      assert nodes[j] == nodes[..|nodes| - 1][j];
    }
  }

  /** What one turn of the loop makes of the node it reads. */
  lemma ParseStep(
    bytes: seq<Byte>, offset: nat, instances: seq<Instance>, nodes: seq<Node>, node: Node, end: nat)
    requires offset < |bytes| && Reads(bytes, offset, node, end)
    ensures ParseNodes(bytes, offset, instances, nodes) ==
            if node.kind == EndInstance then
              if end == |bytes| then Err(MalformedDevicePath)
              else ParseNodes(bytes, end, instances + [Instance(nodes + [node])], [])
            else if node.kind == EndEntire then
              if end != |bytes| then Err(MalformedDevicePath)
              else Ok(DevicePath(instances + [Instance(nodes + [node])]))
            else ParseNodes(bytes, end, instances, nodes + [node])
  {
    hide ReadBoundedNode, ParseNodeKind;
  }

  /** From any split of a well-formed path, the loop rebuilds that path from the bytes still ahead. */
  lemma {:induction false} ParseNodesComplete(bytes: seq<Byte>, offset: nat, path: DevicePath, k: nat, j: nat)
    requires WellFormedPath(path)
    requires k < |path.instances| && j < |path.instances[k].nodes|
    requires offset <= |bytes|
    requires bytes[offset..]
          == PrintNodes(path.instances[k].nodes[j..]) + PrintInstances(path.instances[k + 1..])
    ensures ParseNodes(bytes, offset, path.instances[..k], path.instances[k].nodes[..j]) == Ok(path)
    decreases |bytes| - offset
  {
    hide ParseNodeKind, PrintInstances, WellFormedPath;
    var nodes, later := path.instances[k].nodes, path.instances[k + 1..];
    NodeAtIsWellFormed(path, k, j);
    assert nodes[j..][1..] == nodes[j + 1..];
    hide PrintNode, WellFormedNode;
    var rest := PrintNodes(nodes[j + 1..]) + PrintInstances(later);
    Assoc(PrintNode(nodes[j]), PrintNodes(nodes[j + 1..]), PrintInstances(later));
    assert bytes[offset..] == PrintNode(nodes[j]) + rest;
    ReadsPrinted(bytes, offset, nodes[j], rest);
    var end := offset + |PrintNode(nodes[j])|;
    assert nodes[..j] + [nodes[j]] == nodes[..j + 1];
    ParseStep(bytes, offset, path.instances[..k], nodes[..j], nodes[j], end);
    hide ParseNodes, Reads;
    if j < |nodes| - 1 {
      ParseNodesComplete(bytes, end, path, k, j + 1);
    } else {
      assert nodes[..j + 1] == nodes && PrintNodes(nodes[j + 1..]) == [];
      assert path.instances[..k] + [Instance(nodes)] == path.instances[..k + 1];
      NextInstance(bytes, end, path, k);
      if k < |path.instances| - 1 {
        ParseNodesComplete(bytes, end, path, k + 1, 0);
      }
    }
  }

  lemma NextInstance(bytes: seq<Byte>, end: nat, path: DevicePath, k: nat)
    requires WellFormedPath(path) && k < |path.instances|
    requires end <= |bytes| && bytes[end..] == [] + PrintInstances(path.instances[k + 1..])
    ensures k == |path.instances| - 1 ==> end == |bytes| && path.instances[..k + 1] == path.instances
    ensures k < |path.instances| - 1 ==>
              var nodes := path.instances[k + 1].nodes;
              && end < |bytes| && nodes != [] && nodes[..0] == []
              && bytes[end..] == PrintNodes(nodes[0..]) + PrintInstances(path.instances[k + 2..])
  {
    hide PrintNodes, WellFormedPath;
    assert bytes[end..] == PrintInstances(path.instances[k + 1..]);
    if k < |path.instances| - 1 {
      StartOfInstance(path, k + 1);
    } else {
      assert path.instances[k + 1..] == [];
    }
  }

  lemma StartOfInstance(path: DevicePath, k: nat)
    requires WellFormedPath(path) && k < |path.instances|
    ensures var nodes := path.instances[k].nodes;
            && nodes != [] && nodes[..0] == [] && |PrintNodes(nodes)| >= 4
            && PrintInstances(path.instances[k..])
               == PrintNodes(nodes[0..]) + PrintInstances(path.instances[k + 1..])
  {
    var nodes := path.instances[k].nodes;
    NodeAtIsWellFormed(path, k, |nodes| - 1);
    assert nodes[0..] == nodes;
    assert path.instances[k..][1..] == path.instances[k + 1..];
  }

  /** Parsing and printing are inverse: a path is accepted from exactly its own bytes. */
  lemma ParsePathIffPrints(bytes: seq<Byte>, path: DevicePath)
    ensures ParseDevicePath(bytes) == Ok(path)
       <==> |bytes| <= MAX_INPUT_BYTES && WellFormedPath(path) && PrintPath(path) == bytes
  {
    if ParseDevicePath(bytes) == Ok(path) {
      ParseNodesSound(bytes, 0, [], []);
    }
    if |bytes| <= MAX_INPUT_BYTES && WellFormedPath(path) && PrintPath(path) == bytes {
      StartOfInstance(path, 0);
      assert path.instances[0..] == path.instances && path.instances[..0] == [] && bytes[0..] == bytes;
      ParseNodesComplete(bytes, 0, path, 0, 0);
    }
  }

  // Segmentation.

  lemma ReadWithSuffix(bytes: seq<Byte>, suffix: seq<Byte>, offset: nat)
    requires ReadBoundedNode(bytes, offset).Ok?
    ensures ReadBoundedNode(bytes + suffix, offset) == ReadBoundedNode(bytes, offset)
  {
    var node := ReadBoundedNode(bytes, offset).value;
    var all := bytes + suffix;
    assert all[offset + 2..offset + 4] == bytes[offset + 2..offset + 4];
    assert all[offset + 4..node.end] == bytes[offset + 4..node.end];
  }

  lemma {:induction false} AcceptedSegmentFrom(
    bytes: seq<Byte>, suffix: seq<Byte>, offset: nat, instances: seq<Instance>, nodes: seq<Node>)
    requires ParseNodes(bytes, offset, instances, nodes).Ok?
    ensures FirstPathEnd(bytes + suffix, offset) == Ok(|bytes|)
    decreases |bytes| - offset
  {
    ReadWithSuffix(bytes, suffix, offset);
    var node := ReadBoundedNode(bytes, offset).value;
    var kind :=
      ParseNodeKind(node.nodeType, node.subtype, node.length, node.payload, node.termination).value;
    var nodes' := nodes + [NodeOf(node, kind)];
    if kind == EndInstance {
      AcceptedSegmentFrom(bytes, suffix, node.end, instances + [Instance(nodes')], []);
    } else if kind != EndEntire {
      AcceptedSegmentFrom(bytes, suffix, node.end, instances, nodes');
    }
  }

  /** An accepted path is the first path of every byte string that begins with it. */
  lemma AcceptedPathIsFirstPath(bytes: seq<Byte>, suffix: seq<Byte>)
    requires ParseDevicePath(bytes).Ok?
    ensures FirstPathLength(bytes + suffix) == Ok(|bytes|)
  {
    AcceptedSegmentFrom(bytes, suffix, 0, [], []);
  }

  /** No accepted path is a proper prefix of another accepted path. */
  lemma AcceptedPathsArePrefixFree(bytes: seq<Byte>, suffix: seq<Byte>)
    requires ParseDevicePath(bytes).Ok? && ParseDevicePath(bytes + suffix).Ok?
    ensures suffix == []
  {
    AcceptedPathIsFirstPath(bytes, suffix);
    AcceptedPathIsFirstPath(bytes + suffix, []);
    assert bytes + suffix + [] == bytes + suffix;
  }

  /** Every node from `offset` up to the End Entire node has contents its type allows. */
  predicate ContentsReadable(bytes: seq<Byte>, offset: nat)
    decreases if offset <= |bytes| then |bytes| - offset else 0
  {
    var r := ReadBoundedNode(bytes, offset);
    r.Ok? ==>
      var node := r.value;
      && ParseNodeKind(node.nodeType, node.subtype, node.length, node.payload, node.termination).Ok?
      && (node.termination != EndsEntire ==> ContentsReadable(bytes, node.end))
  }

  lemma {:induction false} CutParsesIffReadable(
    bytes: seq<Byte>, length: nat, offset: nat, instances: seq<Instance>, nodes: seq<Node>)
    requires FirstPathEnd(bytes, offset) == Ok(length)
    ensures ParseNodes(bytes[..length], offset, instances, nodes).Ok? <==> ContentsReadable(bytes, offset)
    decreases |bytes| - offset
  {
    var node := ReadBoundedNode(bytes, offset).value;
    var cut := bytes[..length];
    assert node.end <= length;
    assert cut[offset + 2..offset + 4] == bytes[offset + 2..offset + 4];
    assert cut[offset + 4..node.end] == bytes[offset + 4..node.end];
    assert ReadBoundedNode(cut, offset) == Ok(node);
    var kind :=
      ParseNodeKind(node.nodeType, node.subtype, node.length, node.payload, node.termination);
    if kind.Ok? {
      var nodes' := nodes + [NodeOf(node, kind.value)];
      if kind.value == EndInstance {
        CutParsesIffReadable(bytes, length, node.end, instances + [Instance(nodes')], []);
      } else if kind.value != EndEntire {
        CutParsesIffReadable(bytes, length, node.end, instances, nodes');
      }
    }
  }

  /** On a slice cut by the segmenter, only unreadable hard-drive or file-path contents can fail. */
  lemma CutFailsOnlyOnContents(bytes: seq<Byte>, length: nat)
    requires FirstPathLength(bytes) == Ok(length) && length <= MAX_INPUT_BYTES
    ensures ParseDevicePath(bytes[..length]).Ok? <==> ContentsReadable(bytes, 0)
  {
    CutParsesIffReadable(bytes, length, 0, [], []);
  }
}
