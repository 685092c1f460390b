/** Values shared by every layer: names, peers, the configuration table, request messages,
    XPC objects and status codes. */
module Types {
  datatype Option<+T> = None | Some(value: T)

  /** A network name, compared by value. */
  type Name = string

  /** The identity of one XPC peer connection. */
  type Peer = nat

  const MAX_PEER_NETWORKS: nat := 8
  const IDLE_TIMEOUT: nat := 120
  const EXIT_SUCCESS: nat := 0
  const EXIT_FAILURE: nat := 1

  // Status codes of the public client interface.
  const SUCCESS: int := 0
  const XPC_FAILURE: int := 1
  const INVALID_REPLY: int := 2
  const INVALID_REQUEST: int := 4
  const NOT_FOUND: int := 5
  const CREATE_FAILURE: int := 6
  const INTERNAL_ERROR: int := 7

  // Dictionary keys and the only command.
  const COMMAND_ACQUIRE: string := "acquire"
  const REPLY_NETWORK: string := "network"
  const REPLY_ERROR: string := "error"

  datatype Mode = SharedMode | HostMode

  datatype NetworkConfig =
    NetworkConfig(name: Name, mode: Mode, subnet: Option<string>, mask: Option<string>)

  const BUILTIN_NETWORKS: seq<NetworkConfig> :=
    [NetworkConfig("shared", SharedMode, None, None), NetworkConfig("host", HostMode, None, None)]

  /** The entry a table holds for a name: the first match, as in a linear search. */
  function Find(table: seq<NetworkConfig>, name: Name): (r: Option<NetworkConfig>)
    ensures r.Some? ==> r.value in table && r.value.name == name
    ensures r.None? <==> forall c | c in table :: c.name != name
  {
    if table == [] then None
    else if table[0].name == name then Some(table[0])
    else Find(table[1..], name)
  }

  /** No earlier entry of the table has the name. */
  lemma {:induction false} FindIsFirst(table: seq<NetworkConfig>, name: Name) returns (i: nat)
    requires Find(table, name).Some?
    ensures i < |table| && Find(table, name).value == table[i] && forall j | 0 <= j < i :: table[j].name != name
  {
    i := 0;
    if table[0].name != name {
      var k := FindIsFirst(table[1..], name);
      i := k + 1;
    }
  }

  /** Which of the external calls made on behalf of one request fail. */
  datatype Faults = Faults(
    configure: bool,  // vmnet_network_configuration_create
    subnet: bool,     // inet_pton of the static subnet
    mask: bool,       // inet_pton of the static mask
    apply: bool,      // vmnet_network_configuration_set_ipv4_subnet
    calloc: bool,     // the network structure
    strdup: bool,     // the network name
    create: bool,     // vmnet_network_create
    copy: bool)       // vmnet_network_copy_serialization

  const NO_FAULTS: Faults := Faults(false, false, false, false, false, false, false, false)

  /** A configuration object can be built: a static subnet matters only when both halves are given. */
  predicate Configures(c: NetworkConfig, f: Faults) {
    && !f.configure
    && (c.subnet.Some? && c.mask.Some? ==> !f.subnet && !f.mask && !f.apply)
  }

  /** A network can be built from a configuration. */
  predicate Builds(f: Faults) {
    !f.calloc && !f.strdup && !f.create && !f.copy
  }

  predicate Creates(c: NetworkConfig, f: Faults) {
    Configures(c, f) && Builds(f)
  }

  /** A request dictionary. An absent key and a key that is not a string read the same way.
      `replyTo` says whether the message carries a return address. */
  datatype Message = Message(command: Option<string>, name: Option<Name>, replyTo: bool)

  /** The name a well-formed acquire request asks for. */
  function Parse(m: Message): Option<Name> {
    if m.command == Some(COMMAND_ACQUIRE) then m.name else None
  }

  datatype XpcValue = Int64(code: int) | Serialization(id: nat)

  /** What a client may receive: a connection error, some other object, or a dictionary. */
  datatype XpcObject = XpcError | XpcOther | XpcDictionary(entries: map<string, XpcValue>)

  function ErrorReply(code: int): XpcObject {
    XpcDictionary(map[REPLY_ERROR := Int64(code)])
  }

  function NetworkReply(id: nat): XpcObject {
    XpcDictionary(map[REPLY_NETWORK := Serialization(id)])
  }

  /** A message on its way to a peer. */
  datatype Sent = Sent(peer: Peer, reply: XpcObject)

  ghost predicate Distinct<T>(s: seq<T>) {
    forall i, j :: 0 <= i < j < |s| ==> s[i] != s[j]
  }

  function Elements<T>(s: seq<T>): set<T> {
    set x | x in s
  }

  /** A sequence without repetitions has as many elements as positions. */
  lemma {:induction false} DistinctSize<T>(s: seq<T>)
    requires Distinct(s)
    ensures |Elements(s)| == |s|
  {
    if s != [] {
      var k := |s| - 1;
      DistinctSize(s[..k]);
      assert Elements(s) == Elements(s[..k]) + {s[k]};
    }
  }

  lemma SubsetSize<T>(a: set<T>, b: set<T>)
    requires a <= b
    ensures |a| <= |b|
  {
    assert b == a + (b - a);
  }

  function AddOnce<T(==)>(s: seq<T>, x: T): seq<T> {
    if x in s then s else s + [x]
  }
}
