/** Making and freeing one network (broker/network.c). */
module Networks {
  import opened Types
  import opened Resources
  import opened Runtime
  import opened Config

  /** Release whatever a network, possibly half built, holds, and free it. */
  method FreeNetwork(sys: System, net: Network?)
    requires net != null ==> !net.freed && forall x :: net.Holds(x) <= Count(sys.live, x)
    modifies sys`live, net, (if net != null && net.idleTimer then {sys} else {})`armed
    ensures net == null ==> sys.live == old(sys.live)
    ensures net != null ==>
              && net.freed
              && (forall x :: Count(old(sys.live), x) == Count(sys.live, x) + old(net.Holds(x)))
              && sys.armed == if old(net.idleTimer) then old(sys.armed) - {net} else old(sys.armed)
  {
    hide Count;
    if net == null {
      return;
    }
    assert net.Holds(Structure(net.id)) == 1 && net.Holds(NetworkRef(net.id)) == One(net.ref.Some?);
    assert net.Holds(SerialRef(net.id)) == One(net.serialization.Some?);
    assert net.Holds(RemovalTimer(net.id)) == One(net.idleTimer);
    assert net.Holds(NameBuffer(net.id)) == One(net.name.Some?);
    if net.ref.Some? {
      sys.Drop(NetworkRef(net.id));
    }
    if net.serialization.Some? {
      sys.Drop(SerialRef(net.id));
    }
    if net.idleTimer {
      sys.CancelRemoval(net);
    }
    if net.name.Some? {
      sys.Drop(NameBuffer(net.id));
    }
    sys.Drop(Structure(net.id));
    net.freed := true;
  }

  /** The steps that complete a network, in order, up to the first that fails. Whatever they take is held
      through the network. */
  method CompleteNetwork(sys: System, net: Network, name: Name, configuration: Mode, f: Faults) returns (ok: bool)
    requires !net.freed && net.name.None? && net.ref.None? && net.serialization.None? && !net.idleTimer
    modifies sys`live, net
    ensures ok <==> !f.strdup && !f.create && !f.copy
    ensures ok ==> net.name == Some(name) && net.ref == Some(configuration) && net.serialization == Some(net.id)
    ensures !net.freed && !net.idleTimer && net.peers == old(net.peers)
    ensures forall x :: Count(sys.live, x) == Count(old(sys.live), x) + net.Holds(x) - One(x == Structure(net.id))
  {
    hide Count;
    if f.strdup { return false; }
    net.name := Some(name);
    sys.Hold(NameBuffer(net.id));

    if f.create { return false; }
    net.ref := Some(configuration);
    sys.Hold(NetworkRef(net.id));

    if f.copy { return false; }
    net.serialization := Some(net.id);
    sys.Hold(SerialRef(net.id));
    return true;
  }

  /** Build a network from a configuration; if any step fails, undo the ones before it. */
  method CreateNetwork(sys: System, name: Name, configuration: Mode, f: Faults, err: int)
    returns (net: Network?, error: int)
    requires Count(sys.live, Configuration) > 0
    modifies sys`live, sys`created
    ensures net != null <==> !f.calloc && !f.strdup && !f.create && !f.copy
    ensures error == if net == null then CREATE_FAILURE else err
    ensures net == null ==>
              && (forall x :: Count(sys.live, x) == Count(old(sys.live), x))
              && sys.created == old(sys.created)
    ensures net != null ==>
              && fresh(net) && !net.freed && net.id == old(sys.created) && net.name == Some(name)
              && net.peers == 0 && net.ref == Some(configuration) && net.serialization == Some(net.id) && !net.idleTimer
              && (forall x :: Count(sys.live, x) == Count(old(sys.live), x) + NetDue(net.id, false, x))
              && sys.created == old(sys.created) + 1
  {
    hide Count;
    net := null;
    if !f.calloc {
      net := new Network(sys.created);
      sys.Hold(Structure(net.id));
      var ok := CompleteNetwork(sys, net, name, configuration, f);
      if ok {
        sys.created := sys.created + 1;
        return net, err;
      }
    }
    FreeNetwork(sys, net);
    return null, CREATE_FAILURE;
  }

  /** Configure and create a network; the configuration is released either way. */
  method ConfigureNetwork(sys: System, table: seq<NetworkConfig>, name: Name, f: Faults, err: int)
    returns (net: Network?, error: int)
    modifies sys`live, sys`created
    ensures net != null <==> Find(table, name).Some? && Creates(Find(table, name).value, f)
    ensures error == if net != null then err
                     else if Find(table, name).None? then NOT_FOUND
                     else CREATE_FAILURE
    ensures net == null ==> sys.created == old(sys.created)
    ensures net != null ==>
              && fresh(net) && !net.freed && net.id == old(sys.created) && net.name == Some(name)
              && net.peers == 0 && net.ref == Some(Find(table, name).value.mode)
              && net.serialization == Some(net.id) && !net.idleTimer
              && sys.created == old(sys.created) + 1
    ensures forall x :: Count(sys.live, x) == Count(old(sys.live), x)
                        + if net != null then NetDue(old(sys.created), false, x) else 0
  {
    var configuration;
    configuration, error := CreateNetworkConfiguration(sys, table, name, f, err);
    if configuration.None? {
      return null, error;
    }
    net, error := CreateNetwork(sys, name, configuration.value, f, error);
    sys.Drop(Configuration);
  }
}
