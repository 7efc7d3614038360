/**
 * The ML2 mechanism driver of the DPM agent (networking_dpm/ml2/mech_dpm.py):
 * it binds a flat network segment to the virtual switch the agent on the
 * port's host reported for the segment's physical network.
 *
 * The base-class check `check_segment_for_agent` is not part of this model;
 * its answer is an input of the binding operation.
 */
module MechDpm {
  import opened Wrappers

  const AGENT_TYPE_DPM := "DPM agent"
  const VIF_TYPE_DPM_VSWITCH := "dpm_vswitch"
  const VIF_TYPE_DPM_ADAPTER := "dpm_adapter"
  const VIF_DETAILS_OBJECT_ID := "object_id"
  /** The agent configuration key the driver reads its mappings from. */
  const ADAPTER_MAPPINGS := "adapter_mappings"
  /** Neutron's name of the flat network type. */
  const TYPE_FLAT := "flat"
  /** Neutron's `portbindings.CAP_PORT_FILTER` key. */
  const CAP_PORT_FILTER := "port_filter"

  /** Physical network name to the object-ids of its virtual switches. */
  type AdapterMappings = map<string, seq<string>>

  /**
   * The agent record the server holds: its `configurations` dictionary, if
   * the record has one, of which only `adapter_mappings` is modelled.
   */
  datatype AgentRecord = AgentRecord(configurations: Option<map<string, AdapterMappings>>)

  /** A network segment: its ID and its physical network. */
  datatype Segment = Segment(id: string, physicalNetwork: string)

  /** A value of the VIF details dictionary. */
  datatype VifValue = BoolValue(b: bool) | StrValue(s: string)

  /** A Python dictionary of VIF details, shared by reference. */
  class VifDetails {
    var items: map<string, VifValue>

    constructor (items: map<string, VifValue>)
      ensures this.items == items
    {
      this.items := items;
    }
  }

  /** What `context.set_binding` receives; the details are the dictionary object itself, not a copy. */
  datatype Binding = Binding(segmentId: string, vifType: string, vifDetails: VifDetails)

  /** The part of the port context the driver writes to. */
  class PortContext {
    var binding: Option<Binding>

    constructor ()
      ensures binding == None
    {
      binding := None;
    }

    method SetBinding(segmentId: string, vifType: string, vifDetails: VifDetails)
      modifies this
      ensures binding == Some(Binding(segmentId, vifType, vifDetails))
    {
      binding := Some(Binding(segmentId, vifType, vifDetails));
    }
  }

  /** `get_mappings`: the agent's `adapter_mappings`, or an empty map when either level is missing. */
  function GetMappings(agent: AgentRecord): (r: AdapterMappings)
    ensures agent.configurations.None? ==> r == map[]
    ensures agent.configurations.Some? && ADAPTER_MAPPINGS !in agent.configurations.value ==> r == map[]
    ensures agent.configurations.Some? && ADAPTER_MAPPINGS in agent.configurations.value ==>
      r == agent.configurations.value[ADAPTER_MAPPINGS]
  {
    match agent.configurations
    case None => map[]
    case Some(configurations) =>
      if ADAPTER_MAPPINGS in configurations then configurations[ADAPTER_MAPPINGS] else map[]
  }

  /** The outcome of `try_to_bind_segment_for_agent`, apart from its effects. */
  datatype BindDecision =
    | Refuse                         // returns False without binding
    | MissingPhysnet(physnet: string) // `get_mappings(agent)[physnet]` raises KeyError
    | BindTo(objectId: string)       // binds the segment to this vswitch and returns True

  /**
   * The binding rule: refuse when the segment check fails or the physical
   * network's object-id list is empty, otherwise bind the first object-id of
   * the list, however many there are.
   */
  function DecideBinding(segmentOk: bool, segment: Segment, agent: AgentRecord): (d: BindDecision)
    ensures !segmentOk ==> d == Refuse
    ensures d.MissingPhysnet? <==> segmentOk && segment.physicalNetwork !in GetMappings(agent)
    ensures d.BindTo? <==>
      segmentOk && segment.physicalNetwork in GetMappings(agent) && GetMappings(agent)[segment.physicalNetwork] != []
    ensures d.BindTo? ==>
      d.objectId == GetMappings(agent)[segment.physicalNetwork][0] &&
      d.objectId in GetMappings(agent)[segment.physicalNetwork]
    ensures d.MissingPhysnet? ==> d.physnet == segment.physicalNetwork
  {
    if !segmentOk then Refuse
    else
      var mappings := GetMappings(agent);
      if segment.physicalNetwork !in mappings then MissingPhysnet(segment.physicalNetwork)
      else
        var objectIds := mappings[segment.physicalNetwork];
        if objectIds == [] then Refuse else BindTo(objectIds[0])
  }

  /** The KeyError `try_to_bind_segment_for_agent` lets escape. */
  datatype BindError = KeyError(key: string)

  class DpmMechanismDriver {
    const agentType: string
    /** The VIF types handed to the base class (a list, as the source passes it). */
    const vifTypes: seq<string>
    /** `self.vif_details`: one dictionary object for every binding this driver makes. */
    const vifDetails: VifDetails

    constructor ()
      ensures agentType == AGENT_TYPE_DPM
      ensures vifTypes == [VIF_TYPE_DPM_VSWITCH, VIF_TYPE_DPM_ADAPTER]
      ensures fresh(vifDetails) && vifDetails.items == map[CAP_PORT_FILTER := BoolValue(false)]
    {
      agentType := AGENT_TYPE_DPM;
      vifTypes := [VIF_TYPE_DPM_VSWITCH, VIF_TYPE_DPM_ADAPTER];
      vifDetails := new VifDetails(map[CAP_PORT_FILTER := BoolValue(false)]);
    }

    /** `get_allowed_network_types`: only flat networks, whatever the agent. */
    function GetAllowedNetworkTypes(agent: AgentRecord): (r: seq<string>)
      ensures |r| == 1 && TYPE_FLAT in r
    {
      [TYPE_FLAT]
    }

    /** `check_vlan_transparency`: never supported. */
    function CheckVlanTransparency(): (r: bool)
      ensures !r
    {
      false
    }

    /**
     * `try_to_bind_segment_for_agent`, with `segmentOk` the answer of the base
     * class's `check_segment_for_agent(segment, agent)`. On success it writes
     * the object-id into the driver's own details dictionary and binds the
     * segment with that very dictionary.
     */
    method TryToBindSegmentForAgent(context: PortContext, segment: Segment, agent: AgentRecord, segmentOk: bool)
      returns (r: Result<bool, BindError>)
      modifies context, vifDetails
      ensures DecideBinding(segmentOk, segment, agent).Refuse? ==>
        r == Success(false) && unchanged(context, vifDetails)
      ensures DecideBinding(segmentOk, segment, agent).MissingPhysnet? ==>
        r == Failure(KeyError(segment.physicalNetwork)) && unchanged(context, vifDetails)
      ensures DecideBinding(segmentOk, segment, agent).BindTo? ==>
        var objectId := DecideBinding(segmentOk, segment, agent).objectId;
        r == Success(true) &&
        vifDetails.items == old(vifDetails.items)[VIF_DETAILS_OBJECT_ID := StrValue(objectId)] &&
        context.binding == Some(Binding(segment.id, VIF_TYPE_DPM_VSWITCH, vifDetails))
    {
      if !segmentOk {
        return Success(false);
      }
      var physnet := segment.physicalNetwork;
      var mappings := GetMappings(agent);
      if physnet !in mappings {
        return Failure(KeyError(physnet));
      }
      var objectIds := mappings[physnet];
      if objectIds == [] {
        return Success(false);
      }
      // More than one object-id: only a warning is logged, and the first one is taken.
      var objectId := objectIds[0];
      var vifDetailsSegment := vifDetails;
      vifDetailsSegment.items := vifDetailsSegment.items[VIF_DETAILS_OBJECT_ID := StrValue(objectId)];
      context.SetBinding(segment.id, VIF_TYPE_DPM_VSWITCH, vifDetailsSegment);
      return Success(true);
    }
  }

  /**
   * Two successful bindings by one driver share its details dictionary: the
   * first port's binding afterwards shows the second port's object-id.
   */
  method BindingsShareVifDetails(driver: DpmMechanismDriver, first: PortContext, second: PortContext,
                                 segment1: Segment, segment2: Segment, agent: AgentRecord)
    returns (r1: Result<bool, BindError>, r2: Result<bool, BindError>)
    requires DecideBinding(true, segment1, agent).BindTo? && DecideBinding(true, segment2, agent).BindTo?
    modifies first, second, driver.vifDetails
    ensures r1 == Success(true) && r2 == Success(true)
    ensures first.binding.Some? && first.binding.value.vifDetails == driver.vifDetails
    ensures VIF_DETAILS_OBJECT_ID in first.binding.value.vifDetails.items
    ensures first.binding.value.vifDetails.items[VIF_DETAILS_OBJECT_ID] ==
      StrValue(DecideBinding(true, segment2, agent).objectId)
  {
    r1 := driver.TryToBindSegmentForAgent(first, segment1, agent, true);
    r2 := driver.TryToBindSegmentForAgent(second, segment2, agent, true);
  }
}
