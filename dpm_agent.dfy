/**
 * The DPM Neutron agent (networking_dpm/ml2/dpm_neutron_agent.py): it
 * resolves the configured physical networks to virtual switches of the CPC
 * at start-up, and on every poll reports the NICs on those switches that
 * belong to this host.
 *
 * The zhmcclient inventory is abstract: a `Cpc` value carries the two
 * lookups the agent makes as functions. `sys.exit(1)` is a `SysExit`
 * failure; an exception that escapes an operation is a `Failure` too.
 */
module DpmAgent {
  import opened Wrappers
  import opened Strings
  import MechDpm

  const DPM_AGENT_BINARY := "neutron-dpm-agent"
  const EXTENSION_DRIVER_TYPE := "dpm"
  const ADAPTER_URI := "/api/adapters/"
  /** The only firewall drivers the agent starts with. */
  const SUPPORTED_FIREWALL_DRIVERS := ["neutron.agent.firewall.NoopFirewallDriver", "noop"]
  /** The status every fatal condition exits with. */
  const EXIT_FAILURE := 1

  /** A port as the configuration may give it: absent, a number or a string. */
  datatype PortValue = NoPort | IntPort(n: int) | StrPort(s: string)

  /** Python truthiness: None, 0 and "" are false; "0" is a true string. */
  predicate IsFalsy(p: PortValue)
  {
    p.NoPort? || p == IntPort(0) || p == StrPort("")
  }

  /** "If no port-element-id was defined, default to 0." */
  function DefaultPort(p: PortValue): PortValue
  {
    if IsFalsy(p) then IntPort(0) else p
  }

  /** Why the agent terminated. */
  datatype Fatal =
    | MappingsNotSpecified
    | NotSingleVswitch(physnet: string, count: nat)
    | VswitchNotFound(physnet: string, adapterUuid: string, port: PortValue)
    | UnsupportedFirewallDriver(driver: string)
    | CpcNotFound(cpcName: string)
    | CpcNotInDpmMode(cpcName: string)

  /** `sys.exit(status)`, with the condition that was logged before it. */
  datatype SysExit = SysExit(status: int, reason: Fatal)

  /** An exception that escapes `get_all_devices`. */
  datatype PollError =
    | VswitchLookupFailed(vswitchId: string)  // `vswitches.find(object-id=...)` raised NotFound
    | ConnectedNicsFailed(vswitchId: string)  // `get_connected_nics()` raised HTTPError

  /** A property read of a NIC: its value, or the HTTPError the read raised. */
  datatype PropertyRead = Value(s: string) | HttpError

  /** A NIC connected to a virtual switch, as seen through its `name` and `description` reads. */
  datatype Nic = Nic(name: PropertyRead, description: PropertyRead)

  /** A CPC of the inventory. */
  datatype Cpc = Cpc(
    name: string,
    dpmEnabled: bool,
    /** `vswitches.find(backing-adapter-uri=uri, port=port)`: the object-id of the match, or None for NotFound. */
    findVswitch: (string, PortValue) -> Option<string>,
    /** `vswitches.find(object-id=id).get_connected_nics()`. */
    connectedNics: string -> Result<seq<Nic>, PollError>)

  /** The configuration `physnet -> {adapter_uuid: port}`, in iteration order. */
  type InterfaceMappings = seq<(string, seq<(string, PortValue)>)>

  /** The resolved `{physnet: [vswitch object-id]}`. */
  type PhysnetVswitchMap = map<string, seq<string>>

  // ---------------------------------------------------------------------
  // _get_physnet_vswitch_map

  /** The key the vswitch is looked up by: the adapter's URI and the defaulted port. */
  function VswitchKey(adapterUuid: string, port: PortValue): (string, PortValue)
  {
    (ADAPTER_URI + adapterUuid, DefaultPort(port))
  }

  /** One physical network's entry: exactly one adapter, whose vswitch must be found. */
  function ResolveEntry(find: (string, PortValue) -> Option<string>, entry: (string, seq<(string, PortValue)>))
    : Result<string, SysExit>
  {
    var (physnet, adapterPorts) := entry;
    if |adapterPorts| != 1 then Failure(SysExit(EXIT_FAILURE, NotSingleVswitch(physnet, |adapterPorts|)))
    else
      var (adapterUuid, port) := adapterPorts[0];
      match find(ADAPTER_URI + adapterUuid, DefaultPort(port))
      case None => Failure(SysExit(EXIT_FAILURE, VswitchNotFound(physnet, adapterUuid, DefaultPort(port))))
      case Some(objectId) => Success(objectId)
  }

  /**
   * Appends `objectId` to `physnet`'s list, starting a new list when the key is
   * absent or its list is empty (`if not mappings.get(physnet)`).
   */
  function AppendVswitch(mappings: PhysnetVswitchMap, physnet: string, objectId: string): PhysnetVswitchMap
  {
    mappings[physnet := (if physnet in mappings then mappings[physnet] else []) + [objectId]]
  }

  /** The entries from index `i` on, resolved into `acc`, stopping at the first failing entry. */
  function ResolveFrom(find: (string, PortValue) -> Option<string>, entries: InterfaceMappings, i: nat,
                       acc: PhysnetVswitchMap): (r: Result<PhysnetVswitchMap, SysExit>)
    requires i <= |entries|
    ensures r.Success? <==> forall j :: i <= j < |entries| ==> EntryResolves(find, entries[j])
    ensures r.Failure? ==> r.error.status == EXIT_FAILURE
    decreases |entries| - i
  {
    if i == |entries| then Success(acc)
    else
      match ResolveEntry(find, entries[i])
      case Failure(e) => Failure(e)
      case Success(objectId) => ResolveFrom(find, entries, i + 1, AppendVswitch(acc, entries[i].0, objectId))
  }

  /** What `_get_physnet_vswitch_map` computes: the whole map, or the first fatal condition. */
  function PhysnetVswitchMapOf(find: (string, PortValue) -> Option<string>, entries: InterfaceMappings)
    : (r: Result<PhysnetVswitchMap, SysExit>)
    ensures r.Failure? ==> r.error.status == EXIT_FAILURE
    ensures entries == [] ==> r == Failure(SysExit(EXIT_FAILURE, MappingsNotSpecified))
  {
    if entries == [] then Failure(SysExit(EXIT_FAILURE, MappingsNotSpecified))
    else ResolveFrom(find, entries, 0, map[])
  }

  /**
   * `_get_physnet_vswitch_map(cpc)` with `interfaceMappings` the configured
   * mappings (an unset option reads as empty).
   */
  method GetPhysnetVswitchMap(cpc: Cpc, interfaceMappings: InterfaceMappings)
    returns (r: Result<PhysnetVswitchMap, SysExit>)
    ensures r == PhysnetVswitchMapOf(cpc.findVswitch, interfaceMappings)
  {
    if |interfaceMappings| == 0 {
      return Failure(SysExit(EXIT_FAILURE, MappingsNotSpecified));
    }
    var mappings: PhysnetVswitchMap := map[];
    var i := 0;
    while i < |interfaceMappings|
      invariant 0 <= i <= |interfaceMappings|
      invariant ResolveFrom(cpc.findVswitch, interfaceMappings, 0, map[]) ==
                ResolveFrom(cpc.findVswitch, interfaceMappings, i, mappings)
    {
      ghost var previous := mappings;
      var (physnet, adapterPortDict) := interfaceMappings[i];
      if |adapterPortDict| != 1 {
        return Failure(SysExit(EXIT_FAILURE, NotSingleVswitch(physnet, |adapterPortDict|)));
      }
      // The dictionary has exactly one item, so its loop runs once.
      var (adapterUuid, port) := adapterPortDict[0];
      if IsFalsy(port) {
        port := IntPort(0);
      }
      var vswitch := cpc.findVswitch(ADAPTER_URI + adapterUuid, port);
      if vswitch.None? {
        return Failure(SysExit(EXIT_FAILURE, VswitchNotFound(physnet, adapterUuid, port)));
      }
      if physnet !in mappings || mappings[physnet] == [] {
        mappings := mappings[physnet := []];
      }
      mappings := mappings[physnet := mappings[physnet] + [vswitch.value]];
      assert port == DefaultPort(interfaceMappings[i].1[0].1);
      assert ResolveEntry(cpc.findVswitch, interfaceMappings[i]) == Success(vswitch.value);
      assert mappings == AppendVswitch(previous, physnet, vswitch.value);
      i := i + 1;
    }
    return Success(mappings);
  }

  /** An entry that resolves: one adapter, whose vswitch is found. */
  predicate EntryResolves(find: (string, PortValue) -> Option<string>, entry: (string, seq<(string, PortValue)>))
  {
    ResolveEntry(find, entry).Success?
  }

  /**
   * Resolution succeeds exactly when the configuration is non-empty and every
   * physical network has one adapter whose vswitch is found; otherwise the
   * agent exits with status 1 and no map at all.
   */
  lemma PhysnetVswitchMapSucceedsIff(find: (string, PortValue) -> Option<string>, entries: InterfaceMappings)
    ensures PhysnetVswitchMapOf(find, entries).Success? <==>
      entries != [] && forall j :: 0 <= j < |entries| ==> EntryResolves(find, entries[j])
  {
  }

  lemma {:induction false} ResolveFromFirstError(find: (string, PortValue) -> Option<string>,
                                                 entries: InterfaceMappings, i: nat, acc: PhysnetVswitchMap)
    requires i <= |entries|
    requires ResolveFrom(find, entries, i, acc).Failure?
    ensures exists k :: (i <= k < |entries| && (forall j :: i <= j < k ==> EntryResolves(find, entries[j])) &&
      !EntryResolves(find, entries[k]) && ResolveFrom(find, entries, i, acc) == Failure(ResolveEntry(find, entries[k]).error))
    decreases |entries| - i
  {
    if EntryResolves(find, entries[i]) {
      ResolveFromFirstError(find, entries, i + 1, AppendVswitch(acc, entries[i].0, ResolveEntry(find, entries[i]).value));
      var k :| i + 1 <= k < |entries| && (forall j :: i + 1 <= j < k ==> EntryResolves(find, entries[j])) &&
        !EntryResolves(find, entries[k]) && ResolveFrom(find, entries, i + 1, AppendVswitch(acc, entries[i].0, ResolveEntry(find, entries[i]).value))
          == Failure(ResolveEntry(find, entries[k]).error);
      assert forall j :: i <= j < k ==> EntryResolves(find, entries[j]);
    }
  }

  /**
   * A failed resolution reports the first physical network, in configuration
   * order, that has other than one adapter or whose vswitch is not found;
   * the entries after it are never looked up.
   */
  lemma PhysnetVswitchMapFirstError(find: (string, PortValue) -> Option<string>, entries: InterfaceMappings)
    requires entries != []
    requires PhysnetVswitchMapOf(find, entries).Failure?
    ensures exists k :: (0 <= k < |entries| && (forall j :: 0 <= j < k ==> EntryResolves(find, entries[j])) &&
      !EntryResolves(find, entries[k]) && PhysnetVswitchMapOf(find, entries) == Failure(ResolveEntry(find, entries[k]).error))
  {
    ResolveFromFirstError(find, entries, 0, map[]);
  }

  /** The configuration is a dictionary: its physical networks are distinct. */
  predicate DistinctPhysnets(entries: InterfaceMappings)
  {
    forall j, k :: 0 <= j < k < |entries| ==> entries[j].0 != entries[k].0
  }

  lemma {:induction false} ResolveFromValue(find: (string, PortValue) -> Option<string>,
                                            entries: InterfaceMappings, i: nat, acc: PhysnetVswitchMap)
    requires i <= |entries|
    requires ResolveFrom(find, entries, i, acc).Success?
    requires DistinctPhysnets(entries)
    requires forall j :: i <= j < |entries| ==> entries[j].0 !in acc
    ensures var m := ResolveFrom(find, entries, i, acc).value;
      m.Keys == acc.Keys + (set j | i <= j < |entries| :: entries[j].0) &&
      (forall p :: p in acc ==> m[p] == acc[p]) &&
      (forall j :: i <= j < |entries| ==>
         EntryResolves(find, entries[j]) && m[entries[j].0] == [ResolveEntry(find, entries[j]).value])
    decreases |entries| - i
  {
    if i < |entries| {
      var objectId := ResolveEntry(find, entries[i]).value;
      var acc' := AppendVswitch(acc, entries[i].0, objectId);
      assert acc'[entries[i].0] == [objectId];
      ResolveFromValue(find, entries, i + 1, acc');
      assert (set j | i <= j < |entries| :: entries[j].0) ==
        {entries[i].0} + (set j | i + 1 <= j < |entries| :: entries[j].0);
    }
  }

  /**
   * A successful resolution maps exactly the configured physical networks,
   * each to a one-element list holding the object-id of the vswitch found for
   * its adapter's URI and its (defaulted) port.
   */
  lemma PhysnetVswitchMapValue(find: (string, PortValue) -> Option<string>, entries: InterfaceMappings)
    requires DistinctPhysnets(entries)
    requires PhysnetVswitchMapOf(find, entries).Success?
    ensures var m := PhysnetVswitchMapOf(find, entries).value;
      m.Keys == (set j | 0 <= j < |entries| :: entries[j].0) &&
      forall j :: 0 <= j < |entries| ==>
        |entries[j].1| == 1 &&
        var key := VswitchKey(entries[j].1[0].0, entries[j].1[0].1);
        find(key.0, key.1).Some? && m[entries[j].0] == [find(key.0, key.1).value]
  {
    ResolveFromValue(find, entries, 0, map[]);
    PhysnetVswitchMapSucceedsIff(find, entries);
    forall j | 0 <= j < |entries|
      ensures |entries[j].1| == 1
      ensures var key := VswitchKey(entries[j].1[0].0, entries[j].1[0].1); find(key.0, key.1).Some?
    {
      assert EntryResolves(find, entries[j]);
    }
  }

  /** A physical network with no adapter, or with several, ends the agent whatever the inventory holds. */
  lemma NotSingleAdapterFails(find: (string, PortValue) -> Option<string>, entries: InterfaceMappings, k: nat)
    requires k < |entries| && |entries[k].1| != 1
    ensures PhysnetVswitchMapOf(find, entries).Failure?
    ensures PhysnetVswitchMapOf(find, entries).error.status == EXIT_FAILURE
  {
    PhysnetVswitchMapSucceedsIff(find, entries);
    assert !EntryResolves(find, entries[k]);
  }

  /** A vswitch lookup that misses ends the agent; no partial map is returned. */
  lemma MissingVswitchFails(find: (string, PortValue) -> Option<string>, entries: InterfaceMappings, k: nat)
    requires k < |entries| && |entries[k].1| == 1
    requires var key := VswitchKey(entries[k].1[0].0, entries[k].1[0].1); find(key.0, key.1).None?
    ensures PhysnetVswitchMapOf(find, entries).Failure?
    ensures PhysnetVswitchMapOf(find, entries).error.status == EXIT_FAILURE
  {
    PhysnetVswitchMapSucceedsIff(find, entries);
    assert !EntryResolves(find, entries[k]);
  }

  /** A falsy port is looked up as the integer 0; any other port value, "0" included, as given. */
  lemma VswitchKeyPort(adapterUuid: string, port: PortValue)
    ensures VswitchKey(adapterUuid, port).0 == ADAPTER_URI + adapterUuid
    ensures IsFalsy(port) ==> VswitchKey(adapterUuid, port).1 == IntPort(0)
    ensures !IsFalsy(port) ==> VswitchKey(adapterUuid, port).1 == port
    ensures VswitchKey(adapterUuid, StrPort("0")).1 == StrPort("0")
  {
  }

  /** How start-up can end before the map exists: an exit, or an exception nobody catches. */
  datatype StartFailure = Exited(exit: SysExit) | AttributeError(attribute: string)

  /**
   * `_get_physnet_vswitch_map` applied to the option as networking_dpm/ml2/config.py
   * registers it: a MultiStrOpt, whose value is a list of strings. An empty
   * list exits; any other list has no `items` method to iterate with.
   */
  function PhysnetVswitchMapOfOption(lines: seq<string>): (r: Result<PhysnetVswitchMap, StartFailure>)
    ensures r.Failure?
    ensures lines == [] ==> r.error == Exited(SysExit(EXIT_FAILURE, MappingsNotSpecified))
    ensures lines != [] ==> r.error.AttributeError?
  {
    if lines == [] then Failure(Exited(SysExit(EXIT_FAILURE, MappingsNotSpecified)))
    else Failure(AttributeError("items"))
  }

  /**
   * No configuration lets the agent as written resolve its mappings, while the
   * same loop over the dictionary it is written for resolves as soon as every
   * physical network has one adapter whose vswitch exists.
   */
  lemma OptionNeverResolves(lines: seq<string>, find: (string, PortValue) -> Option<string>,
                            entries: InterfaceMappings)
    requires entries != [] && forall j :: 0 <= j < |entries| ==> EntryResolves(find, entries[j])
    ensures PhysnetVswitchMapOfOption(lines).Failure?
    ensures lines != [] ==> PhysnetVswitchMapOfOption(lines) == Failure(AttributeError("items"))
    ensures PhysnetVswitchMapOf(find, entries).Success?
  {
    PhysnetVswitchMapSucceedsIff(find, entries);
  }

  // ---------------------------------------------------------------------
  // _managed_by_agent and get_all_devices

  /** What `_managed_by_agent(nic)` does: returns True or False, or raises HTTPError. */
  datatype NicCheck = Managed | NotManaged | Raised

  /**
   * `_managed_by_agent(nic)`: the NIC's name is UUID-like and the host is a
   * substring of its description. A failing property read raises.
   */
  function ManagedByAgent(nic: Nic, host: string, isUuidLike: string -> bool): (r: NicCheck)
    ensures r == Managed <==>
      nic.name.Value? && isUuidLike(nic.name.s) &&
      nic.description.Value? && exists i :: OccursAt(host, nic.description.s, i)
    ensures r == Raised <==>
      nic.name.HttpError? || (isUuidLike(nic.name.s) && nic.description.HttpError?)
  {
    match nic.name
    case HttpError => Raised
    case Value(name) =>
      if !isUuidLike(name) then NotManaged
      else
        match nic.description
        case HttpError => Raised
        case Value(description) =>
          IsSubstringIff(host, description);
          if IsSubstring(host, description) then Managed else NotManaged
  }

  /** `nic` is managed by the agent and named `name`. */
  predicate IsOwnedAs(nic: Nic, host: string, isUuidLike: string -> bool, name: string)
  {
    ManagedByAgent(nic, host, isUuidLike) == Managed && nic.name.s == name
  }

  /** The name a managed NIC contributes to the device set. */
  function NicDevice(nic: Nic, host: string, isUuidLike: string -> bool): set<string>
  {
    if ManagedByAgent(nic, host, isUuidLike) == Managed then {nic.name.s} else {}
  }

  /** The names of the managed NICs of `nics`, skipping every NIC whose check raised. */
  function OwnedNames(nics: seq<Nic>, host: string, isUuidLike: string -> bool): set<string>
    decreases |nics|
  {
    if nics == [] then {}
    else OwnedNames(nics[..|nics| - 1], host, isUuidLike) + NicDevice(nics[|nics| - 1], host, isUuidLike)
  }

  /** A name is collected exactly when some NIC of the list is managed and has that name. */
  lemma {:induction false} OwnedNamesIff(nics: seq<Nic>, host: string, isUuidLike: string -> bool, name: string)
    ensures name in OwnedNames(nics, host, isUuidLike) <==>
      exists k :: 0 <= k < |nics| && IsOwnedAs(nics[k], host, isUuidLike, name)
    decreases |nics|
  {
    if nics != [] {
      var init := nics[..|nics| - 1];
      OwnedNamesIff(init, host, isUuidLike, name);
      if k :| 0 <= k < |init| && IsOwnedAs(init[k], host, isUuidLike, name) {
        assert nics[k] == init[k];
      }
      if k :| 0 <= k < |nics| && IsOwnedAs(nics[k], host, isUuidLike, name) {
        if k < |init| {
          assert init[k] == nics[k];
        }
      }
    }
  }

  /**
   * A NIC whose check raises HTTPError (for instance because it was deleted
   * concurrently) is skipped on its own: the NICs before and after it count
   * as if it were not there.
   */
  lemma RaisingNicSkipped(before: seq<Nic>, nic: Nic, after: seq<Nic>, host: string, isUuidLike: string -> bool)
    requires ManagedByAgent(nic, host, isUuidLike) == Raised
    ensures OwnedNames(before + [nic] + after, host, isUuidLike) == OwnedNames(before + after, host, isUuidLike)
  {
    var with := before + [nic] + after;
    var without := before + after;
    forall name | true
      ensures name in OwnedNames(with, host, isUuidLike) <==> name in OwnedNames(without, host, isUuidLike)
    {
      OwnedNamesIff(with, host, isUuidLike, name);
      OwnedNamesIff(without, host, isUuidLike, name);
      if k :| 0 <= k < |with| && IsOwnedAs(with[k], host, isUuidLike, name) {
        if k < |before| {
          assert without[k] == with[k];
        } else {
          assert k > |before|;
          assert without[k - 1] == with[k];
        }
      }
      if k :| 0 <= k < |without| && IsOwnedAs(without[k], host, isUuidLike, name) {
        if k < |before| {
          assert with[k] == without[k];
        } else {
          assert with[k + 1] == without[k];
        }
      }
    }
  }

  /** The devices of a physical network's vswitches, in list order; the first failing vswitch ends the poll. */
  function PollVswitches(vswitchIds: seq<string>, cpc: Cpc, host: string, isUuidLike: string -> bool)
    : Result<set<string>, PollError>
    decreases |vswitchIds|
  {
    if vswitchIds == [] then Success({})
    else
      match PollVswitches(vswitchIds[..|vswitchIds| - 1], cpc, host, isUuidLike)
      case Failure(e) => Failure(e)
      case Success(devices) =>
        match cpc.connectedNics(vswitchIds[|vswitchIds| - 1])
        case Failure(e) => Failure(e)
        case Success(nics) => Success(devices + OwnedNames(nics, host, isUuidLike))
  }

  /** A failure on a prefix of the list is the failure of the whole list. */
  lemma {:induction false} PollVswitchesPrefixFailure(vswitchIds: seq<string>, j: nat, cpc: Cpc, host: string,
                                                      isUuidLike: string -> bool)
    requires j <= |vswitchIds|
    requires PollVswitches(vswitchIds[..j], cpc, host, isUuidLike).Failure?
    ensures PollVswitches(vswitchIds, cpc, host, isUuidLike) == PollVswitches(vswitchIds[..j], cpc, host, isUuidLike)
    decreases |vswitchIds| - j
  {
    if j < |vswitchIds| {
      var prefix := vswitchIds[..j + 1];
      assert prefix[..|prefix| - 1] == vswitchIds[..j];
      PollVswitchesPrefixFailure(vswitchIds, j + 1, cpc, host, isUuidLike);
    } else {
      assert vswitchIds[..j] == vswitchIds;
    }
  }

  /** `name` is the name of a managed NIC connected to vswitch `vswitchId`. */
  predicate OwnedOnVswitch(cpc: Cpc, vswitchId: string, host: string, isUuidLike: string -> bool, name: string)
  {
    cpc.connectedNics(vswitchId).Success? &&
    exists k :: 0 <= k < |cpc.connectedNics(vswitchId).value| &&
      IsOwnedAs(cpc.connectedNics(vswitchId).value[k], host, isUuidLike, name)
  }

  /**
   * Polling a list of vswitches succeeds exactly when every one answers, and
   * then yields exactly the names of the managed NICs connected to them.
   */
  lemma {:induction false} PollVswitchesIff(vswitchIds: seq<string>, cpc: Cpc, host: string,
                                            isUuidLike: string -> bool, name: string)
    ensures PollVswitches(vswitchIds, cpc, host, isUuidLike).Success? <==>
      forall j :: 0 <= j < |vswitchIds| ==> cpc.connectedNics(vswitchIds[j]).Success?
    ensures PollVswitches(vswitchIds, cpc, host, isUuidLike).Success? ==>
      (name in PollVswitches(vswitchIds, cpc, host, isUuidLike).value <==>
       exists j :: 0 <= j < |vswitchIds| && OwnedOnVswitch(cpc, vswitchIds[j], host, isUuidLike, name))
    decreases |vswitchIds|
  {
    if vswitchIds != [] {
      var n := |vswitchIds| - 1;
      var init := vswitchIds[..n];
      PollVswitchesIff(init, cpc, host, isUuidLike, name);
      assert forall j :: 0 <= j < n ==> init[j] == vswitchIds[j];
      var last := cpc.connectedNics(vswitchIds[n]);
      if last.Success? {
        OwnedNamesIff(last.value, host, isUuidLike, name);
      }
      if PollVswitches(vswitchIds, cpc, host, isUuidLike).Success? {
        if j :| 0 <= j < |vswitchIds| && OwnedOnVswitch(cpc, vswitchIds[j], host, isUuidLike, name) {
          if j < n {
            assert OwnedOnVswitch(cpc, init[j], host, isUuidLike, name);
          }
        }
        if j :| 0 <= j < n && OwnedOnVswitch(cpc, init[j], host, isUuidLike, name) {
          assert OwnedOnVswitch(cpc, vswitchIds[j], host, isUuidLike, name);
        }
      }
    }
  }

  /** The devices of the physical networks in `physnets`, for those whose poll succeeds. */
  ghost function DevicesOf(m: PhysnetVswitchMap, physnets: set<string>, cpc: Cpc, host: string,
                           isUuidLike: string -> bool): set<string>
  {
    set p, name | p in physnets && p in m && PollVswitches(m[p], cpc, host, isUuidLike).Success? &&
      name in PollVswitches(m[p], cpc, host, isUuidLike).value :: name
  }

  /** Adding one physical network adds its devices. */
  lemma DevicesOfAdd(m: PhysnetVswitchMap, physnets: set<string>, p: string, cpc: Cpc, host: string,
                     isUuidLike: string -> bool)
    requires p in m && PollVswitches(m[p], cpc, host, isUuidLike).Success?
    ensures DevicesOf(m, physnets + {p}, cpc, host, isUuidLike) ==
      DevicesOf(m, physnets, cpc, host, isUuidLike) + PollVswitches(m[p], cpc, host, isUuidLike).value
  {
  }

  /** Some physical network's vswitches fail to answer. */
  ghost predicate PollFails(m: PhysnetVswitchMap, cpc: Cpc, host: string, isUuidLike: string -> bool)
  {
    exists p :: p in m && PollVswitches(m[p], cpc, host, isUuidLike).Failure?
  }

  /**
   * When no vswitch fails, the device set holds exactly the names of the
   * managed NICs connected to some vswitch of some physical network, each
   * name once.
   */
  lemma DevicesOfIff(m: PhysnetVswitchMap, cpc: Cpc, host: string, isUuidLike: string -> bool, name: string)
    requires !PollFails(m, cpc, host, isUuidLike)
    ensures name in DevicesOf(m, m.Keys, cpc, host, isUuidLike) <==>
      exists p, j :: p in m && 0 <= j < |m[p]| && OwnedOnVswitch(cpc, m[p][j], host, isUuidLike, name)
  {
    forall p | p in m
      ensures name in PollVswitches(m[p], cpc, host, isUuidLike).value <==>
        exists j :: 0 <= j < |m[p]| && OwnedOnVswitch(cpc, m[p][j], host, isUuidLike, name)
    {
      PollVswitchesIff(m[p], cpc, host, isUuidLike, name);
    }
  }

  /** A device-set poll: the fields `get_all_devices` reads, fixed when the manager is built. */
  class DpmManager {
    const physnetAdapterMap: PhysnetVswitchMap
    const cpc: Cpc
    /** `cfg.CONF.host`. */
    const host: string
    /** `uuidutils.is_uuid_like`. */
    const isUuidLike: string -> bool

    constructor (physnetAdapterMap: PhysnetVswitchMap, cpc: Cpc, host: string, isUuidLike: string -> bool)
      ensures this.physnetAdapterMap == physnetAdapterMap && this.cpc == cpc
      ensures this.host == host && this.isUuidLike == isUuidLike
    {
      this.physnetAdapterMap := physnetAdapterMap;
      this.cpc := cpc;
      this.host := host;
      this.isUuidLike := isUuidLike;
    }

    /** `get_agent_configurations`: the resolved map, reported under `adapter_mappings`. */
    function GetAgentConfigurations(): (r: map<string, PhysnetVswitchMap>)
      ensures r.Keys == {MechDpm.ADAPTER_MAPPINGS} && r[MechDpm.ADAPTER_MAPPINGS] == physnetAdapterMap
    {
      map[MechDpm.ADAPTER_MAPPINGS := physnetAdapterMap]
    }

    /** `get_agent_id`: "dpm-" followed by the host. */
    function GetAgentId(): (r: string)
      ensures |r| == 4 + |host| && r[..4] == "dpm-" && r[4..] == host
    {
      "dpm-" + host
    }

    /** `get_extension_driver_type`. */
    function GetExtensionDriverType(): (r: string)
      ensures r == EXTENSION_DRIVER_TYPE
    {
      EXTENSION_DRIVER_TYPE
    }

    /**
     * `get_all_devices`: walks every vswitch of every physical network and
     * collects the names of the NICs managed by this agent. A NIC whose check
     * raises HTTPError is skipped; a vswitch that cannot be found or cannot
     * list its NICs ends the poll with that error. The dictionary is walked in
     * no particular order.
     */
    method GetAllDevices() returns (r: Result<set<string>, PollError>)
      ensures r.Failure? <==> PollFails(physnetAdapterMap, cpc, host, isUuidLike)
      ensures r.Failure? ==> exists p :: (p in physnetAdapterMap &&
        PollVswitches(physnetAdapterMap[p], cpc, host, isUuidLike) == Failure(r.error))
      ensures r.Success? ==> r.value == DevicesOf(physnetAdapterMap, physnetAdapterMap.Keys, cpc, host, isUuidLike)
    {
      var devices: set<string> := {};
      var pending := physnetAdapterMap.Keys;
      while pending != {}
        invariant pending <= physnetAdapterMap.Keys
        invariant forall p :: p in physnetAdapterMap && p !in pending ==>
          PollVswitches(physnetAdapterMap[p], cpc, host, isUuidLike).Success?
        invariant devices == DevicesOf(physnetAdapterMap, physnetAdapterMap.Keys - pending, cpc, host, isUuidLike)
        decreases pending
      {
        var physnet :| physnet in pending;
        var physnetDevices := DevicesOfVswitches(physnetAdapterMap[physnet]);
        if physnetDevices.Failure? {
          return Failure(physnetDevices.error);
        }
        DevicesOfAdd(physnetAdapterMap, physnetAdapterMap.Keys - pending, physnet, cpc, host, isUuidLike);
        devices := devices + physnetDevices.value;
        assert physnetAdapterMap.Keys - (pending - {physnet}) == (physnetAdapterMap.Keys - pending) + {physnet};
        pending := pending - {physnet};
      }
      return Success(devices);
    }

    /** The inner loops of `get_all_devices` for one physical network's vswitches, in list order. */
    method DevicesOfVswitches(vswitchIds: seq<string>) returns (r: Result<set<string>, PollError>)
      ensures r == PollVswitches(vswitchIds, cpc, host, isUuidLike)
    {
      var devices: set<string> := {};
      var j := 0;
      while j < |vswitchIds|
        invariant 0 <= j <= |vswitchIds|
        invariant PollVswitches(vswitchIds[..j], cpc, host, isUuidLike) == Success(devices)
      {
        var nics := cpc.connectedNics(vswitchIds[j]);
        assert vswitchIds[..j + 1][..j] == vswitchIds[..j];
        if nics.Failure? {
          PollVswitchesPrefixFailure(vswitchIds, j + 1, cpc, host, isUuidLike);
          return Failure(nics.error);
        }
        var owned := ManagedNicNames(nics.value);
        devices := devices + owned;
        j := j + 1;
      }
      assert vswitchIds[..j] == vswitchIds;
      return Success(devices);
    }

    /** The innermost loop of `get_all_devices`: the names of the managed NICs of one vswitch. */
    method ManagedNicNames(nics: seq<Nic>) returns (names: set<string>)
      ensures names == OwnedNames(nics, host, isUuidLike)
    {
      names := {};
      var k := 0;
      while k < |nics|
        invariant 0 <= k <= |nics|
        invariant names == OwnedNames(nics[..k], host, isUuidLike)
      {
        assert nics[..k + 1][..k] == nics[..k];
        // An HTTPError raised by the check is caught and the NIC skipped.
        if ManagedByAgent(nics[k], host, isUuidLike) == Managed {
          names := names + {nics[k].name.s};
        }
        k := k + 1;
      }
      assert nics[..k] == nics;
    }
  }

  /** The server reads back, as the agent's mappings, exactly the map the agent reports. */
  lemma ReportedMappingsReachDriver(manager: DpmManager)
    ensures MechDpm.GetMappings(MechDpm.AgentRecord(Some(manager.GetAgentConfigurations())))
      == manager.physnetAdapterMap
  {
  }

  /**
   * End to end: once the agent has resolved its configuration and reported
   * it, a segment of a configured physical network that passes the segment
   * check is bound to the vswitch found for that network's adapter and port.
   */
  lemma ResolvedPhysnetBindsFoundVswitch(find: (string, PortValue) -> Option<string>, entries: InterfaceMappings,
                                         k: nat, segmentId: string)
    requires DistinctPhysnets(entries)
    requires PhysnetVswitchMapOf(find, entries).Success?
    requires k < |entries|
    ensures var reported := map[MechDpm.ADAPTER_MAPPINGS := PhysnetVswitchMapOf(find, entries).value];
      |entries[k].1| == 1 &&
      var key := VswitchKey(entries[k].1[0].0, entries[k].1[0].1);
      find(key.0, key.1).Some? &&
      MechDpm.DecideBinding(true, MechDpm.Segment(segmentId, entries[k].0), MechDpm.AgentRecord(Some(reported)))
        == MechDpm.BindTo(find(key.0, key.1).value)
  {
    PhysnetVswitchMapValue(find, entries);
  }

  // ---------------------------------------------------------------------
  // Start-up checks

  /** `_validate_firewall_driver`: only the no-op firewall drivers pass. */
  function ValidateFirewallDriver(firewallDriver: string): (r: Outcome<SysExit>)
    ensures r.Pass? <==> firewallDriver == "noop" || firewallDriver == "neutron.agent.firewall.NoopFirewallDriver"
    ensures r.Fail? ==> r.error == SysExit(EXIT_FAILURE, UnsupportedFirewallDriver(firewallDriver))
  {
    if firewallDriver !in SUPPORTED_FIREWALL_DRIVERS
    then Fail(SysExit(EXIT_FAILURE, UnsupportedFirewallDriver(firewallDriver)))
    else Pass
  }

  /** `_get_cpc`: the CPC of that name when it exists and is in DPM mode. */
  function GetCpc(findCpc: string -> Option<Cpc>, cpcName: string): (r: Result<Cpc, SysExit>)
    ensures r.Success? <==> findCpc(cpcName).Some? && findCpc(cpcName).value.dpmEnabled
    ensures r.Success? ==> r.value == findCpc(cpcName).value
    ensures findCpc(cpcName).None? ==> r == Failure(SysExit(EXIT_FAILURE, CpcNotFound(cpcName)))
    ensures findCpc(cpcName).Some? && !findCpc(cpcName).value.dpmEnabled ==>
      r == Failure(SysExit(EXIT_FAILURE, CpcNotInDpmMode(cpcName)))
  {
    match findCpc(cpcName)
    case None => Failure(SysExit(EXIT_FAILURE, CpcNotFound(cpcName)))
    case Some(cpc) =>
      if cpc.dpmEnabled then Success(cpc) else Failure(SysExit(EXIT_FAILURE, CpcNotInDpmMode(cpcName)))
  }

  // ---------------------------------------------------------------------
  // DPMRPCCallBack

  /** The port dictionary of a `port_update` notification. */
  datatype Port = Port(id: string, macAddress: string)

  /** The RPC callback object; `updatedDevices` is the set the agent loop drains. */
  class DpmRpcCallBack {
    var updatedDevices: set<string>

    constructor ()
      ensures updatedDevices == {}
    {
      updatedDevices := {};
    }

    /** `port_update`: records the port's MAC address and nothing else. */
    method PortUpdate(port: Port)
      modifies this
      ensures updatedDevices == old(updatedDevices) + {port.macAddress}
    {
      updatedDevices := updatedDevices + {port.macAddress};
    }
  }

  /** A fresh callback that receives one update holds exactly that port's MAC address. */
  method PortUpdateOnFreshCallBack(port: Port) returns (callback: DpmRpcCallBack)
    ensures fresh(callback) && callback.updatedDevices == {port.macAddress}
  {
    callback := new DpmRpcCallBack();
    callback.PortUpdate(port);
  }
}
