# networking-dpm core in Dafny

This project models the core of networking-dpm, the OpenStack Neutron
integration for IBM Z and LinuxONE systems running in DPM (Dynamic
Partition Manager) mode. It has three parts:

- **Mapping option type** (`networking_dpm/conf/types.py`, module `MappingType`).
  A configuration line has the form `<physical-network>:<adapter-object-id>[:<port>]`.
  The line is checked against `MAPPING_REGEX`, compiled with `ignore_case`.
  It is then split at `:`, the adapter id is lowercased, and the port
  defaults to the string `"0"`. The regular expression is written out
  character by character. This includes two Python details: `$` also
  matches just before a final newline, and the class `[0,1]` also admits `,`.
- **DPM agent** (`networking_dpm/ml2/dpm_neutron_agent.py`, module `DpmAgent`).
  - The start-up checks: the firewall driver and the CPC lookup.
  - The resolver `_get_physnet_vswitch_map`. It maps each physical network
    to the object-id of the virtual switch (vswitch) that backs its
    adapter and port, or exits with status 1.
  - `DPMManager`: the reported configuration, the agent id and the device
    poll `get_all_devices`. The poll collects the names of the NICs on
    those vswitches that this host owns.
  - `DPMRPCCallBack.port_update`.
- **ML2 mechanism driver** (`networking_dpm/ml2/mech_dpm.py`, module `MechDpm`).
  It reads an agent's `adapter_mappings` and binds a segment to the first
  vswitch object-id reported for the segment's physical network. It writes
  that id into the driver's own `vif_details` dictionary, which every
  binding shares.

Modules `Wrappers` (Option, Result, Outcome) and `Strings` model the Python
string operations the core uses: `split`, ASCII `lower` and `in`, with
`IndexOf` (the position of the first separator) as their helper.

External pieces are parameters:

- The HMC inventory (zhmcclient) is a `Cpc` value. Its two lookups are
  functions: find a vswitch by adapter URI and port, and list the NICs
  connected to a vswitch.
- `cfg.CONF.host` is a field of `DpmManager`.
- `uuidutils.is_uuid_like` is a function field of `DpmManager`.
- The base class's `check_segment_for_agent` is a boolean argument.

`sys.exit(1)` is modelled as a `SysExit` failure. An exception that escapes
is a `Failure` value.

What the code does and does not do:

- The resolver does not check that the adapter exists, that it is a
  network adapter, or that the port exists. It looks up the vswitch by
  adapter URI and port, and a miss is the only "not found" exit.
- The resolver does not check that adapter/port pairs are unique.
- An HTTP error from `get_connected_nics`, and a vswitch lookup by
  object-id that finds nothing, both escape `get_all_devices`. They are
  not turned into an empty contribution or a special exit.
- Ownership is "the NIC name is UUID-like and the host name is a substring
  of the description".
- The poll returns NIC names (Neutron port ids), not MAC addresses.
- `port_update` records the port's MAC address.

## Model

| member | source | states |
|---|---|---|
| MappingType.Parse | networking_dpm/conf/types.py:40-49 | a value is accepted exactly when it matches MAPPING_REGEX; a rejected value fails with an error carrying that value |
| MappingType.MatchesMappingRegexIff | networking_dpm/conf/types.py:18-20 | the regex (under ignore_case) accepts exactly `net:id` followed by nothing, `:` or `:` plus one of `0`, `1`, `,`, with at most one final newline; `net` is non-empty and has no `:`; `id` is 8-4-4-4-12 hex digits |
| MappingType.ParseAccepted | networking_dpm/conf/types.py:44-49 | for every accepted value: the network is the text before the first `:`; the adapter id is the lowercased second field; the port is `"0"` when absent or empty, otherwise the third field as text; a final newline stays in the last field |
| MappingType.ParseNetIsFirstField | networking_dpm/conf/types.py:44-45 | the network name is exactly the text before the first `:`, is non-empty and contains no `:` |
| MappingType.ParsePlainLine | networking_dpm/conf/types.py:44-48 | for a line without a final newline: the adapter id is a lowercase object id equal to the lowered id field; the port is `"0"`, `"1"` or `","`: it is `"0"` when nothing follows the adapter id or its `:`, and otherwise the port character itself |
| MappingType.ParseIdempotent | networking_dpm/conf/types.py:40-49 | for a line without a final newline, re-parsing the line `net:adapter-id:port` formatted from its parse result gives the same result |
| MappingType.ParseRoundTrip | networking_dpm/conf/types.py:40-49 | for every accepted value, formatting its parse result and parsing again gives the same result exactly unless the value is `net:id\n` (no `:` after the adapter id, and a final newline); `net:id:\n` round-trips, its port being the newline |
| MappingType.ParseWithoutPort | networking_dpm/tests/unit/conf/test_cfg.py:59-65 | `net:id` and `net:id:` both parse to `(net, lower(id), "0")` |
| MappingType.ParseCommaPort | networking_dpm/conf/types.py:19-20 | the class `[0,1]` lets `,` through as the port, returned verbatim |
| MappingType.ParseKeepsFinalNewline | networking_dpm/conf/types.py:20 | `net:id\n` is accepted with the newline inside the adapter id, and the line formatted from that result is then rejected |
| MappingType.ParseRejectsPort | networking_dpm/conf/types.py:19-20 | any port character other than `0`, `1`, `,` or a newline is rejected |
| MappingType.ParseRejectsEmptyNet | networking_dpm/conf/types.py:20 | a value with an empty network name is rejected |
| MappingType.MatchedValueHasTwoFields | networking_dpm/conf/types.py:41-46 | a value that passed the regex splits into at least two fields, so `split_result[1]` exists |
| MappingType.FieldsOfShape | networking_dpm/conf/types.py:44 | an accepted value splits into `[net, id+nl]` without a port, `[net, id, port+nl]` with one |
| MappingType.LowerObjectId | networking_dpm/conf/types.py:46 | lowering an object id gives an object id with no upper-case letter |
| Strings.Split | networking_dpm/conf/types.py:44 | `split` gives at least one piece and no piece contains the separator |
| Strings.JoinSplit | networking_dpm/conf/types.py:44 | joining the pieces of `split` with the separator gives the string back |
| Strings.IsSubstringIff | networking_dpm/ml2/dpm_neutron_agent.py:116 | Python's `in` on strings holds exactly when the host text occurs at some index of the description |
| DpmAgent.GetPhysnetVswitchMap | networking_dpm/ml2/dpm_neutron_agent.py:171-223 | the loop computes exactly `PhysnetVswitchMapOf` of the configuration: the full map, or the first fatal exit |
| DpmAgent.PhysnetVswitchMapOf | networking_dpm/ml2/dpm_neutron_agent.py:181-186 | an empty configuration exits with status 1 (mappings not specified); every failure has status 1 |
| DpmAgent.ResolveFrom | networking_dpm/ml2/dpm_neutron_agent.py:190-222 | resolving the remaining entries succeeds exactly when each of them has one adapter whose vswitch is found; every failure has exit status 1 |
| DpmAgent.PhysnetVswitchMapSucceedsIff | networking_dpm/ml2/dpm_neutron_agent.py:181-222 | resolution succeeds exactly when the configuration is non-empty and each physical network has exactly one adapter whose vswitch is found; otherwise no map is produced |
| DpmAgent.PhysnetVswitchMapFirstError | networking_dpm/ml2/dpm_neutron_agent.py:190-222 | a failure is the exit of the first failing physical network in configuration order |
| DpmAgent.PhysnetVswitchMapValue | networking_dpm/ml2/dpm_neutron_agent.py:188-223 | a successful map has exactly the configured physical networks as keys, each mapped to `[object-id]` of the vswitch found for `/api/adapters/<uuid>` and the defaulted port |
| DpmAgent.NotSingleAdapterFails | networking_dpm/ml2/dpm_neutron_agent.py:192-198 | a physical network with zero or several adapters makes the agent exit with status 1 |
| DpmAgent.MissingVswitchFails | networking_dpm/ml2/dpm_neutron_agent.py:209-222 | an adapter/port with no vswitch makes the agent exit with status 1 |
| DpmAgent.VswitchKeyPort | networking_dpm/ml2/dpm_neutron_agent.py:199-212 | the lookup uses the adapter URI `/api/adapters/<uuid>`; a falsy port (None, 0, "") becomes the integer 0; any other port, the string "0" included, is used as given |
| DpmAgent.PhysnetVswitchMapOfOption | networking_dpm/ml2/dpm_neutron_agent.py:181-190 | on the option's real value, a list of strings, resolution always fails: status 1 for an empty list, AttributeError otherwise |
| DpmAgent.OptionNeverResolves | networking_dpm/ml2/dpm_neutron_agent.py:181-190 | no list value resolves, while every dictionary input whose entries all resolve does |
| DpmAgent.ManagedByAgent | networking_dpm/ml2/dpm_neutron_agent.py:94-120 | a NIC is managed exactly when its name is UUID-like and the host occurs in its description; the check raises exactly when the name read fails, or the name is UUID-like and the description read fails |
| DpmAgent.OwnedNamesIff | networking_dpm/ml2/dpm_neutron_agent.py:131-139 | a name is collected from a NIC list exactly when some NIC of the list is managed and has that name |
| DpmAgent.RaisingNicSkipped | networking_dpm/ml2/dpm_neutron_agent.py:132-139 | a NIC whose check raises HTTPError is skipped alone; the NICs around it count as if it were absent |
| DpmAgent.PollVswitchesPrefixFailure | networking_dpm/ml2/dpm_neutron_agent.py:129-131 | the first vswitch that fails ends the walk of a physical network's vswitches with its error |
| DpmAgent.PollVswitchesIff | networking_dpm/ml2/dpm_neutron_agent.py:129-139 | walking a vswitch list succeeds exactly when each vswitch lists its NICs, and then yields exactly the managed NIC names on those vswitches |
| DpmAgent.DpmManager.ManagedNicNames | networking_dpm/ml2/dpm_neutron_agent.py:131-139 | the NIC loop yields exactly `OwnedNames` of the vswitch's NICs |
| DpmAgent.DpmManager.DevicesOfVswitches | networking_dpm/ml2/dpm_neutron_agent.py:129-139 | the vswitch loop yields exactly `PollVswitches` of the physical network's vswitch list: the first failure, or the union of their managed NIC names |
| DpmAgent.DevicesOfIff | networking_dpm/ml2/dpm_neutron_agent.py:122-140 | with no failing vswitch, the device set is exactly the names of managed NICs on any vswitch of any physical network |
| DpmAgent.DevicesOfAdd | networking_dpm/ml2/dpm_neutron_agent.py:127-128 | adding one physical network adds exactly its devices |
| DpmAgent.DpmManager.constructor | networking_dpm/ml2/dpm_neutron_agent.py:73-76 | the manager keeps the resolved map and the CPC it was given |
| DpmAgent.DpmManager.GetAgentConfigurations | networking_dpm/ml2/dpm_neutron_agent.py:83-84 | the reported configuration has the single key `adapter_mappings`, holding the resolved map |
| DpmAgent.DpmManager.GetAgentId | networking_dpm/ml2/dpm_neutron_agent.py:86-87 | the agent id is `dpm-` followed by the host name |
| DpmAgent.DpmManager.GetExtensionDriverType | networking_dpm/ml2/dpm_neutron_agent.py:142-143 | the extension driver type is `dpm` |
| DpmAgent.DpmManager.GetAllDevices | networking_dpm/ml2/dpm_neutron_agent.py:122-140 | the poll fails exactly when some physical network's vswitches fail, with that network's first error; otherwise it returns the device set above |
| DpmAgent.ReportedMappingsReachDriver | networking_dpm/ml2/mech_dpm.py:53-54 | the mappings the driver reads from a reported configuration are exactly the agent's resolved map |
| DpmAgent.ResolvedPhysnetBindsFoundVswitch | networking_dpm/ml2/mech_dpm.py:60-91 | after resolution and reporting, a checked segment of a configured physical network binds to the vswitch found for its adapter and port |
| DpmAgent.ValidateFirewallDriver | networking_dpm/ml2/dpm_neutron_agent.py:226-237 | start-up passes exactly for `noop` and `neutron.agent.firewall.NoopFirewallDriver`; any other driver exits with status 1 naming it |
| DpmAgent.GetCpc | networking_dpm/ml2/dpm_neutron_agent.py:240-248 | the named CPC is returned exactly when it exists and is in DPM mode; a missing CPC and a non-DPM CPC each exit with status 1 |
| DpmAgent.DpmRpcCallBack.PortUpdate | networking_dpm/ml2/dpm_neutron_agent.py:61-69 | the updated-device set gains the port's MAC address and nothing else |
| DpmAgent.PortUpdateOnFreshCallBack | networking_dpm/tests/unit/ml2/test_dpm_neutron_agent.py:55-58 | a fresh callback that receives one update holds exactly that MAC address |
| MechDpm.GetMappings | networking_dpm/ml2/mech_dpm.py:53-54 | an agent's `adapter_mappings`, or an empty map when `configurations` or the key is missing |
| MechDpm.DecideBinding | networking_dpm/ml2/mech_dpm.py:60-79 | refuse when the segment check fails or the list is empty; KeyError exactly when the physical network is missing; otherwise bind the first object-id of the list, however many there are |
| MechDpm.DpmMechanismDriver.constructor | networking_dpm/ml2/mech_dpm.py:44-48 | agent type `DPM agent`, VIF types `[dpm_vswitch, dpm_adapter]`, details `{port_filter: False}` |
| MechDpm.DpmMechanismDriver.GetAllowedNetworkTypes | networking_dpm/ml2/mech_dpm.py:50-51 | only `flat`, whatever the agent |
| MechDpm.DpmMechanismDriver.CheckVlanTransparency | networking_dpm/ml2/mech_dpm.py:56-58 | never transparent |
| MechDpm.DpmMechanismDriver.TryToBindSegmentForAgent | networking_dpm/ml2/mech_dpm.py:60-91 | on refusal returns False and changes nothing; on a missing physical network raises KeyError and changes nothing; otherwise sets `object_id` in the driver's own details and binds the segment as `dpm_vswitch` with that same dictionary |
| MechDpm.PortContext.SetBinding | networking_dpm/ml2/mech_dpm.py:89-90 | the context records the segment id, VIF type and the details object |
| MechDpm.BindingsShareVifDetails | networking_dpm/ml2/mech_dpm.py:81-90 | after two bindings by one driver, the first binding's details show the second binding's object-id |

## Findings

| source | as written | input that shows it | evidently intended | confidence | as-written member | corrected member |
|---|---|---|---|---|---|---|
| networking_dpm/ml2/dpm_neutron_agent.py:181-190 | reads `physical_adapter_mappings`, which networking_dpm/ml2/config.py:30 registers as a MultiStrOpt (a list of strings), and calls `.items()` on it | any non-empty option, e.g. `physical_adapter_mappings = physnet1:<adapter-uuid>` | iterate a dictionary from physical network to `{adapter-uuid: port}` | medium, from reading the option registration and tests/unit/ml2/test_config.py:39; not executed | DpmAgent.PhysnetVswitchMapOfOption, DpmAgent.OptionNeverResolves | DpmAgent.PhysnetVswitchMapOf, DpmAgent.PhysnetVswitchMapSucceedsIff |

`ParseKeepsFinalNewline` shows that a value ending in a newline is accepted
and keeps the newline in its last field. Configuration files strip line
endings before values reach the type, so this is recorded as behaviour,
not as a defect.

## Left out

- `main`, `setup_logging`, the zhmcclient session and client, the agent loop
  and the service launch: process plumbing with no logic of its own.
  Logging calls are left out everywhere.
- `get_rpc_callbacks`, `get_rpc_consumers`, `plug_interface`,
  `ensure_port_admin_state`, `get_devices_modified_timestamps` and the three
  ARP-spoofing methods: each returns a constant or does nothing.
- `mac_device_name_mappings`: the manager sets it in its constructor and
  never reads it.
- `format_defaults` of the option type: it only renders sample defaults
  for documentation.
- The uniqueness rules in the option's help text
  (networking_dpm/conf/config.py:62-64): the code never enforces them. The
  resolver accepts any sequence of physical networks; only the lemmas about
  the resolved map's value (`PhysnetVswitchMapValue`,
  `ResolvedPhysnetBindsFoundVswitch`) assume the physical networks are
  distinct, because the source iterates a dictionary.
- DpmAgent.GetPhysnetVswitchMap: the input is the dictionary shape the loop
  is written for. An unset option and an empty one both give the
  "not specified" exit.
- `NoUniqueMatch` and any other zhmcclient exception: they are not caught
  by the source and are not distinguished from a plain lookup result here.
- DpmAgent.DpmManager.GetAllDevices: when several physical networks fail,
  the contract says only that the error comes from one of them. Python's
  dictionary order is not modelled.
- DpmAgent.ManagedByAgent: every property read of a NIC either gives a value
  or raises HTTPError, the same way each time. The second `name` read in
  `get_all_devices` therefore agrees with the first. zhmcclient's lazy
  property fetching is not modelled.
- `uuidutils.is_uuid_like` and `check_segment_for_agent` are inputs. Their
  own rules belong to oslo.utils and Neutron.
- Strings.Lower: only ASCII letters are lowered. The source lowers only
  object-id characters, which are ASCII.
- The mechanism driver's base class (agent selection, `bind_port`) belongs
  to Neutron. Only the methods the DPM driver defines are modelled.
