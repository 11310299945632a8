/** runNodes: one loop writes a gRPC port into every node's configuration, a second one advertises
    the ports; nothing but the loops' equal counting ties the two together. */
module NodePorts {
  import opened GoWords

  const DEFAULT_GRPC_PORT: uint16 := 9090

  /** What the network answers for a node name: its own name, its API port, and whether the plugin
      file could be copied to it. */
  datatype NodeInfo = NodeInfo(name: string, apiPort: uint16, copied: bool)

  /** The JSON encoders: of an application configuration (its RPC and gRPC port), and of a VM
      configuration around the JSON of an application configuration. None is a marshalling error. */
  datatype Encoders = Encoders(app: (uint16, uint16) -> Option<bytes>, vm: bytes -> Option<bytes>)

  /** Bytes in an array of their own. */
  method Buffer(content: bytes) returns (a: array<byte>)
    ensures fresh(a) && a[..] == content
  {
    a := new byte[|content|];
    forall i | 0 <= i < |content| {
      a[i] := content[i];
    }
  }

  /** The one application configuration that the loop overwrites for every node. */
  class AppConfig {
    var rpcPort: uint16
    var grpcPort: uint16

    constructor ()
      ensures rpcPort == 0 && grpcPort == 0
    {
      rpcPort, grpcPort := 0, 0;
    }

    method Marshal(e: Encoders) returns (json: Option<array<byte>>)
      ensures json.Some? <==> e.app(rpcPort, grpcPort).Some?
      ensures json.Some? ==> fresh(json.value) && e.app(rpcPort, grpcPort) == Some(json.value[..])
    {
      var encoded := e.app(rpcPort, grpcPort);
      if encoded.None? {
        return None;
      }
      var a := Buffer(encoded.value);
      return Some(a);
    }
  }

  /** The one VM configuration that the loop overwrites for every node; its raw application part is a
      reference to a byte array. */
  class VmConfig {
    var appConfig: array<byte>

    constructor ()
      ensures fresh(appConfig)
    {
      appConfig := new byte[0];
    }

    method Marshal(e: Encoders) returns (json: Option<array<byte>>)
      ensures json.Some? <==> e.vm(appConfig[..]).Some?
      ensures json.Some? ==> fresh(json.value) && e.vm(appConfig[..]) == Some(json.value[..])
    {
      var encoded := e.vm(appConfig[..]);
      if encoded.None? {
        return None;
      }
      var a := Buffer(encoded.value);
      return Some(a);
    }
  }

  /** The port a counter reaches after `i` increments of a uint16 from 9090. */
  function PortOf(i: nat): uint16 {
    (DEFAULT_GRPC_PORT + i) % TWO_16
  }

  lemma NextPort(i: nat)
    ensures Next16(PortOf(i)) == PortOf(i + 1)
  {
    var p := DEFAULT_GRPC_PORT + i;
    assert (p + 1) % TWO_16 == (p % TWO_16 + 1) % TWO_16;
  }

  predicate DistinctNames(names: seq<string>) {
    forall i, j :: 0 <= i < j < |names| ==> names[i] != names[j]
  }

  /** The node fetched under each name goes by that name. */
  predicate OwnNames(getNode: string -> Option<NodeInfo>, names: seq<string>) {
    forall i :: 0 <= i < |names| ==> getNode(names[i]).Some? ==> getNode(names[i]).value.name == names[i]
  }

  /** Node `i` was found, its plugin copied, and both of its configurations marshalled. */
  predicate Configured(e: Encoders, getNode: string -> Option<NodeInfo>, names: seq<string>, i: int)
    requires 0 <= i < |names|
  {
    && getNode(names[i]).Some? && getNode(names[i]).value.copied
    && e.app(getNode(names[i]).value.apiPort, PortOf(i)).Some?
    && e.vm(e.app(getNode(names[i]).value.apiPort, PortOf(i)).value).Some?
  }

  /** The array stored under a node's name holds the VM configuration around the application configuration
      with the node's API port as RPC port and `port` as gRPC port. */
  predicate Holds(e: Encoders, getNode: string -> Option<NodeInfo>, stored: map<string, array<byte>>,
                  name: string, port: uint16)
    reads stored.Values
  {
    && name in stored && getNode(name).Some?
    && e.app(getNode(name).value.apiPort, port).Some?
    && e.vm(e.app(getNode(name).value.apiPort, port).value) == Some(stored[name][..])
  }

  predicate NoSharing(stored: map<string, array<byte>>) {
    forall n, m :: n in stored && m in stored && n != m ==> stored[n] != stored[m]
  }

  /** The first loop. Both configuration objects are overwritten for every node, and every array stored
      earlier keeps its bytes. */
  method ConfigureNodes(e: Encoders, getNode: string -> Option<NodeInfo>, names: seq<string>)
    returns (ok: bool, stored: map<string, array<byte>>)
    ensures ok <==> forall i :: 0 <= i < |names| ==> Configured(e, getNode, names, i)
    ensures NoSharing(stored) && forall n :: n in stored ==> fresh(stored[n])
    ensures ok && DistinctNames(names) && OwnNames(getNode, names) ==>
              forall i :: 0 <= i < |names| ==> Holds(e, getNode, stored, names[i], PortOf(i))
  {
    stored := map[];
    var appCfg := new AppConfig();
    var vmCfg := new VmConfig();
    var grpcPort := DEFAULT_GRPC_PORT;
    var i := 0;
    while i < |names|
      invariant 0 <= i <= |names| && grpcPort == PortOf(i)
      invariant NoSharing(stored) && forall n :: n in stored ==> fresh(stored[n])
      invariant forall c :: 0 <= c < i ==> Configured(e, getNode, names, c)
      invariant DistinctNames(names) && OwnNames(getNode, names) ==>
                  forall c :: 0 <= c < i ==> Holds(e, getNode, stored, names[c], PortOf(c))
      modifies appCfg, vmCfg
    {
      var node := getNode(names[i]);
      if node.None? || !node.value.copied {
        assert !Configured(e, getNode, names, i);
        return false, stored;
      }
      appCfg.grpcPort := grpcPort;
      appCfg.rpcPort := node.value.apiPort;
      var appConfigJson := appCfg.Marshal(e);
      if appConfigJson.None? {
        assert !Configured(e, getNode, names, i);
        return false, stored;
      }
      vmCfg.appConfig := appConfigJson.value;
      var cfgBytes := vmCfg.Marshal(e);
      if cfgBytes.None? {
        assert !Configured(e, getNode, names, i);
        return false, stored;
      }
      stored := stored[node.value.name := cfgBytes.value];
      NextPort(i);
      grpcPort := Next16(grpcPort);
      i := i + 1;
    }
    return true, stored;
  }

  /** The second loop. */
  method AdvertiseNodes(getNode: string -> Option<NodeInfo>, names: seq<string>)
    returns (ok: bool, rpcPorts: seq<uint16>, grpcPorts: seq<uint16>)
    ensures ok <==> forall i :: 0 <= i < |names| ==> getNode(names[i]).Some?
    ensures ok ==> |rpcPorts| == |grpcPorts| == |names|
    ensures ok ==> forall i :: 0 <= i < |names| ==>
                     rpcPorts[i] == getNode(names[i]).value.apiPort && grpcPorts[i] == PortOf(i)
  {
    rpcPorts, grpcPorts := [], [];
    var grpcPort := DEFAULT_GRPC_PORT;
    var i := 0;
    while i < |names|
      invariant 0 <= i <= |names| && grpcPort == PortOf(i)
      invariant |rpcPorts| == |grpcPorts| == i
      invariant forall c :: 0 <= c < i ==> getNode(names[c]).Some?
      invariant forall c :: 0 <= c < i ==> rpcPorts[c] == getNode(names[c]).value.apiPort && grpcPorts[c] == PortOf(c)
    {
      var node := getNode(names[i]);
      if node.None? {
        return false, rpcPorts, grpcPorts;
      }
      rpcPorts := rpcPorts + [node.value.apiPort];
      grpcPorts := grpcPorts + [grpcPort];
      NextPort(i);
      grpcPort := Next16(grpcPort);
      i := i + 1;
    }
    return true, rpcPorts, grpcPorts;
  }

  lemma ConfiguredInFull(e: Encoders, getNode: string -> Option<NodeInfo>, names: seq<string>)
    ensures (forall i :: 0 <= i < |names| ==> Configured(e, getNode, names, i)) <==>
            (forall i :: 0 <= i < |names| ==>
               && getNode(names[i]).Some? && getNode(names[i]).value.copied
               && var json := e.app(getNode(names[i]).value.apiPort, (9090 + i) % 65536);
               json.Some? && e.vm(json.value).Some?)
  {
    forall i | 0 <= i < |names|
      ensures Configured(e, getNode, names, i) <==>
              && getNode(names[i]).Some? && getNode(names[i]).value.copied
              && var json := e.app(getNode(names[i]).value.apiPort, (9090 + i) % 65536);
              json.Some? && e.vm(json.value).Some?
    {
      assert PortOf(i) == (9090 + i) % 65536;
    }
  }

  /** Both loops. `ok` is false for an error return; `chainCreated` is the fate of everything between
      the loops, and the network is asked for every node again in the second one (`getAgain`). Each node
      is given an array of its own, which still holds the node's ports when all are done; and the URL
      advertised for the node names the same gRPC port. */
  method RunNodes(e: Encoders, getNode: string -> Option<NodeInfo>, getAgain: string -> Option<NodeInfo>,
                  names: seq<string>, chainCreated: bool)
    returns (ok: bool, stored: map<string, array<byte>>, rpcPorts: seq<uint16>, grpcPorts: seq<uint16>)
    ensures ok <==> && chainCreated
                    && (forall i :: 0 <= i < |names| ==>
                          && getNode(names[i]).Some? && getNode(names[i]).value.copied
                          && var json := e.app(getNode(names[i]).value.apiPort, (9090 + i) % 65536);
                          json.Some? && e.vm(json.value).Some?)
                    && (forall i :: 0 <= i < |names| ==> getAgain(names[i]).Some?)
    ensures ok ==> |rpcPorts| == |grpcPorts| == |names|
    ensures ok ==> forall i :: 0 <= i < |names| ==>
                     rpcPorts[i] == getAgain(names[i]).value.apiPort && grpcPorts[i] == (9090 + i) % 65536
    ensures ok && DistinctNames(names) && OwnNames(getNode, names) ==>
              forall i :: 0 <= i < |names| ==>
                && names[i] in stored
                && var json := e.app(getNode(names[i]).value.apiPort, grpcPorts[i]);
                json.Some? && e.vm(json.value) == Some(stored[names[i]][..])
    ensures NoSharing(stored)
  {
    rpcPorts, grpcPorts := [], [];
    ok, stored := ConfigureNodes(e, getNode, names);
    ConfiguredInFull(e, getNode, names);
    if !ok || !chainCreated {
      return false, stored, rpcPorts, grpcPorts;
    }
    ok, rpcPorts, grpcPorts := AdvertiseNodes(getAgain, names);
  }

  /** Different arguments have different encodings. */
  ghost predicate Injective(e: Encoders) {
    && (forall a: uint16, p: uint16, b: uint16, q: uint16 ::
          e.app(a, p).Some? && e.app(a, p) == e.app(b, q) ==> a == b && p == q)
    && (forall x: bytes, y: bytes :: e.vm(x).Some? && e.vm(x) == e.vm(y) ==> x == y)
  }

  /** With such encoders the stored bytes tell both ports. */
  lemma BytesTellPorts(e: Encoders, a: uint16, p: uint16, b: uint16, q: uint16)
    requires Injective(e) && e.app(a, p).Some? && e.app(b, q).Some?
    requires e.vm(e.app(a, p).value).Some? && e.vm(e.app(a, p).value) == e.vm(e.app(b, q).value)
    ensures a == b && p == q
  {
    var x, y := e.app(a, p).value, e.app(b, q).value;
    assert x == y;
  }

  /** The ports of n nodes are 9090, 9091, ... exactly up to 56446 nodes, where the uint16 wraps, and
      pairwise distinct exactly up to 65536 nodes. */
  lemma PortsIff(n: nat)
    ensures (forall i :: 0 <= i < n ==> PortOf(i) == 9090 + i) <==> n <= 56446
    ensures (forall i, j :: 0 <= i < j < n ==> PortOf(i) != PortOf(j)) <==> n <= 65536
  {
    if n > 56446 {
      assert PortOf(56446) == 0;
    }
    if n > 65536 {
      assert PortOf(0) == PortOf(65536);
    } else {
      forall i, j | 0 <= i < j < n ensures PortOf(i) != PortOf(j) {
        PortsDiffer(i, j);
      }
    }
  }

  lemma PortsDiffer(i: nat, j: nat)
    requires i < j < i + TWO_16
    ensures PortOf(i) != PortOf(j)
  {
    var p, d := DEFAULT_GRPC_PORT + i, j - i;
    var r := p % TWO_16;
    assert p == (p / TWO_16) * TWO_16 + r;
    assert (p + d) % TWO_16 == (r + d) % TWO_16;
    if r + d < TWO_16 {
      assert PortOf(j) == r + d;
    } else {
      assert PortOf(j) == r + d - TWO_16;
    }
  }
}
