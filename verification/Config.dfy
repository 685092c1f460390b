/** The configuration table and the configurations made from it (broker/config.c). */
module Config {
  import opened Types
  import opened Resources
  import opened Runtime

  /** Linear search; `error` is written only when nothing is found. */
  method FindNetworkConfig(table: seq<NetworkConfig>, name: Name, err: int)
    returns (found: Option<NetworkConfig>, error: int)
    ensures found == Find(table, name)
    ensures error == if found.None? then NOT_FOUND else err
  {
    for i := 0 to |table|
      invariant Find(table, name) == Find(table[i..], name)
    {
      if table[i].name == name {
        return Some(table[i]), err;
      }
    }
    return None, NOT_FOUND;
  }

  /** A vmnet configuration is known by the mode it was created with. On every failure path a configuration
      that was created is released. */
  method CreateVmnetConfiguration(sys: System, config: NetworkConfig, f: Faults, err: int)
    returns (configuration: Option<Mode>, error: int)
    modifies sys`live
    ensures configuration.Some? <==>
              !f.configure && (config.subnet.None? || config.mask.None? || (!f.subnet && !f.mask && !f.apply))
    ensures configuration.Some? ==> configuration.value == config.mode
    ensures error == if configuration.Some? then err else CREATE_FAILURE
    ensures forall x :: Count(sys.live, x)
                        == Count(old(sys.live), x) + One(configuration.Some? && x == Configuration)
  {
    if f.configure {
      return None, CREATE_FAILURE;
    }
    sys.Hold(Configuration);
    label build: {
      if config.subnet.Some? && config.mask.Some? {
        if f.subnet { break build; }
        if f.mask { break build; }
        if f.apply { break build; }
      }
      return Some(config.mode), err;
    }
    sys.Drop(Configuration);
    return None, CREATE_FAILURE;
  }

  method CreateNetworkConfiguration(
    sys: System, table: seq<NetworkConfig>, name: Name, f: Faults, err: int)
    returns (configuration: Option<Mode>, error: int)
    modifies sys`live
    ensures configuration.Some? <==> Find(table, name).Some? && Configures(Find(table, name).value, f)
    ensures configuration.Some? ==> configuration.value == Find(table, name).value.mode
    ensures error == if Find(table, name).None? then NOT_FOUND
                     else if configuration.Some? then err
                     else CREATE_FAILURE
    ensures forall x :: Count(sys.live, x)
                        == Count(old(sys.live), x) + One(configuration.Some? && x == Configuration)
  {
    var config;
    config, error := FindNetworkConfig(table, name, err);
    if config.None? {
      return None, error;
    }
    configuration, error := CreateVmnetConfiguration(sys, config.value, f, error);
  }
}
