/**
 * The static authorisation table: roles, activity definitions, capabilities,
 * client types and the registry of activity definitions. Definitions and
 * client types are built once when the server starts and never change
 * afterwards, so they are values here; the registry is an object.
 */
module Authorization {
  import opened Wrappers

  /** A role in an activity. Only an active role may start an activity. */
  datatype Role = Role(name: string, active: bool)

  /** Which activity class a definition's createActivity builds. */
  datatype ActivityKind = Plain | Control | WebRtc | VideoStream

  /** An activity definition: its name, its roles keyed by role name, and its activity class. */
  datatype ActivityDefinition = ActivityDefinition(name: string, roles: map<string, Role>, kind: ActivityKind)

  /** A definition of plain activities with no roles yet. */
  function NewActivityDefinition(name: string): ActivityDefinition {
    ActivityDefinition(name, map[], Plain)
  }

  /** addRole: stores the role under its name, replacing a role of the same name. */
  function AddRole(d: ActivityDefinition, role: Role): ActivityDefinition {
    d.(roles := d.roles[role.name := role])
  }

  predicate HasRole(d: ActivityDefinition, name: string) {
    name in d.roles
  }

  /** getRole: the role of that name, or null. */
  function GetRole(d: ActivityDefinition, name: string): Option<Role> {
    if name in d.roles then Some(d.roles[name]) else None
  }

  /** Every role is stored under its own name. */
  predicate RolesKeyedByName(d: ActivityDefinition) {
    forall n :: n in d.roles ==> d.roles[n].name == n
  }

  /** After addRole, the added role answers its name and every other name answers as before. */
  lemma AddRoleKeysByName(d: ActivityDefinition, role: Role, n: string)
    ensures GetRole(AddRole(d, role), n) == (if n == role.name then Some(role) else GetRole(d, n))
    ensures RolesKeyedByName(d) ==> RolesKeyedByName(AddRole(d, role))
  {
  }

  /** hasRole holds exactly when getRole gives a role. */
  lemma HasRoleIffGetRole(d: ActivityDefinition, n: string)
    ensures HasRole(d, n) <==> GetRole(d, n).Some?
    ensures GetRole(d, n).Some? ==> RolesKeyedByName(d) ==> GetRole(d, n).value.name == n
  {
  }

  const ControlName: string := "control"
  const RoleController: string := "controller"
  const RoleRobot: string := "robot"
  const WebRtcName: string := "webrtc"
  const RoleCaller: string := "caller"
  const RoleCallee: string := "callee"
  const VideoStreamName: string := "videostream"
  const RoleSender: string := "sender"
  const RoleReceiver: string := "receiver"

  /** The control activity: an active controller drives a passive robot. */
  function ControlDefinition(): ActivityDefinition {
    var d := ActivityDefinition(ControlName, map[], Control);
    AddRole(AddRole(d, Role(RoleController, true)), Role(RoleRobot, false))
  }

  /** The WebRTC call: an active caller calls a passive callee. */
  function WebRtcDefinition(): ActivityDefinition {
    var d := ActivityDefinition(WebRtcName, map[], WebRtc);
    AddRole(AddRole(d, Role(RoleCaller, true)), Role(RoleCallee, false))
  }

  /** The video stream: a passive sender streams to an active receiver. */
  function VideoStreamDefinition(): ActivityDefinition {
    var d := ActivityDefinition(VideoStreamName, map[], VideoStream);
    AddRole(AddRole(d, Role(RoleSender, false)), Role(RoleReceiver, true))
  }

  /** The role tables of the three built-in definitions. */
  lemma BuiltInRoles()
    ensures ControlDefinition().roles
      == map[RoleController := Role(RoleController, true), RoleRobot := Role(RoleRobot, false)]
    ensures WebRtcDefinition().roles
      == map[RoleCaller := Role(RoleCaller, true), RoleCallee := Role(RoleCallee, false)]
    ensures VideoStreamDefinition().roles
      == map[RoleSender := Role(RoleSender, false), RoleReceiver := Role(RoleReceiver, true)]
    ensures RolesKeyedByName(ControlDefinition())
    ensures RolesKeyedByName(WebRtcDefinition())
    ensures RolesKeyedByName(VideoStreamDefinition())
  {
  }

  /** The brief, serialisable form of a capability. */
  datatype CapabilityInfo = CapabilityInfo(activity: string, role: string)

  /** The capability to take a role in activities of a definition. */
  datatype Capability = Capability(definition: ActivityDefinition, role: Role) {
    function Info(): CapabilityInfo {
      CapabilityInfo(definition.name, role.name)
    }

    /** getName: definition name, '#', role name. */
    function Name(): string {
      definition.name + "#" + role.name
    }
  }

  /** Capability names determine the definition and role names, since neither built-in name holds '#'. */
  lemma CapabilityNameSplits(c: Capability)
    requires '#' !in c.definition.name
    ensures c.Name()[..|c.definition.name|] == c.definition.name
    ensures c.Name()[|c.definition.name|] == '#'
    ensures c.Name()[|c.definition.name| + 1..] == c.role.name
  {
  }

  /**
   * The name-based constructor: looks the definition up in the registry and
   * the role up in the definition, and throws when either is missing.
   */
  function CapabilityNamed(registry: map<string, ActivityDefinition>, definitionName: string, roleName: string): (r: Result<Capability>)
    ensures r.Success? <==> definitionName in registry && roleName in registry[definitionName].roles
    ensures r.Success? ==>
      r.value.definition == registry[definitionName] && r.value.role == registry[definitionName].roles[roleName]
    ensures definitionName !in registry ==> r == Failure("No such activity definition: " + definitionName)
    ensures definitionName in registry && roleName !in registry[definitionName].roles
            ==> r == Failure("No such role for activity: " + definitionName + "#" + roleName)
  {
    if definitionName !in registry then
      Failure("No such activity definition: " + definitionName)
    else
      var role := GetRole(registry[definitionName], roleName);
      if role.None? then Failure("No such role for activity: " + definitionName + "#" + roleName)
      else Success(Capability(registry[definitionName], role.value))
  }

  /** hasActivityRole: some capability names both the definition and the role. */
  function HasActivityRole(capabilities: seq<Capability>, d: ActivityDefinition, role: Role): (r: bool)
    ensures r <==> exists i :: 0 <= i < |capabilities|
                     && capabilities[i].definition.name == d.name && capabilities[i].role.name == role.name
  {
    if |capabilities| == 0 then false
    else if capabilities[0].definition.name == d.name && capabilities[0].role.name == role.name then true
    else HasActivityRole(capabilities[1..], d, role)
  }

  /** getPassiveCapabilityInfos: the infos of the capabilities with passive roles, in order. */
  function PassiveCapabilityInfos(capabilities: seq<Capability>): (r: seq<CapabilityInfo>)
    ensures |r| <= |capabilities|
    ensures forall info :: info in r <==> exists c :: c in capabilities && !c.role.active && c.Info() == info
  {
    if |capabilities| == 0 then []
    else
      var rest := PassiveCapabilityInfos(capabilities[1..]);
      assert forall c :: c in capabilities[1..] ==> c in capabilities;
      if capabilities[0].role.active then rest else [capabilities[0].Info()] + rest
  }

  /** The passive infos of a concatenation are the concatenation of the passive infos: order is kept. */
  lemma {:induction false} PassiveCapabilityInfosAppend(a: seq<Capability>, b: seq<Capability>)
    ensures PassiveCapabilityInfos(a + b) == PassiveCapabilityInfos(a) + PassiveCapabilityInfos(b)
  {
    if |a| == 0 {
      assert a + b == b;
    } else {
      assert (a + b)[0] == a[0];
      assert (a + b)[1..] == a[1..] + b;
      PassiveCapabilityInfosAppend(a[1..], b);
    }
  }

  /**
   * A client type and its capabilities. The Java map from capability name to
   * capability is kept as a list without two entries of the same name, in
   * the order the names were first added.
   */
  datatype ClientType = ClientType(name: string, capabilities: seq<Capability>)

  predicate NamesDistinct(capabilities: seq<Capability>) {
    forall i, j :: 0 <= i < j < |capabilities| ==> capabilities[i].Name() != capabilities[j].Name()
  }

  function IndexOfName(capabilities: seq<Capability>, name: string): (r: int)
    ensures -1 <= r < |capabilities|
    ensures r >= 0 ==> capabilities[r].Name() == name
    ensures r == -1 <==> forall i :: 0 <= i < |capabilities| ==> capabilities[i].Name() != name
    ensures r >= 0 ==> forall i :: 0 <= i < r ==> capabilities[i].Name() != name
  {
    if |capabilities| == 0 then -1
    else if capabilities[|capabilities| - 1].Name() == name && IndexOfName(capabilities[..|capabilities| - 1], name) == -1 then
      |capabilities| - 1
    else IndexOfName(capabilities[..|capabilities| - 1], name)
  }

  /** addCapability: stores the capability under its name, replacing one of the same name. */
  function AddCapability(ct: ClientType, c: Capability): ClientType {
    var i := IndexOfName(ct.capabilities, c.Name());
    if i < 0 then ct.(capabilities := ct.capabilities + [c])
    else ct.(capabilities := ct.capabilities[i := c])
  }

  predicate HasCapability(ct: ClientType, name: string) {
    IndexOfName(ct.capabilities, name) >= 0
  }

  /** getCapability: the capability of that name, or null. */
  function GetCapability(ct: ClientType, name: string): Option<Capability> {
    var i := IndexOfName(ct.capabilities, name);
    if i < 0 then None else Some(ct.capabilities[i])
  }

  /**
   * After addCapability, the added capability answers its name, every other
   * name answers as before, names stay distinct, and the list grows exactly
   * when the name is new.
   */
  lemma AddCapabilityKeysByName(ct: ClientType, c: Capability, n: string)
    requires NamesDistinct(ct.capabilities)
    ensures GetCapability(AddCapability(ct, c), n) == (if n == c.Name() then Some(c) else GetCapability(ct, n))
    ensures NamesDistinct(AddCapability(ct, c).capabilities)
    ensures |AddCapability(ct, c).capabilities| == |ct.capabilities| + (if HasCapability(ct, c.Name()) then 0 else 1)
  {
    if IndexOfName(ct.capabilities, c.Name()) >= 0 {
      AddReplacingKeys(ct, c, n);
    } else {
      AddAppendingKeys(ct, c, n);
    }
  }

  /** addCapability over a name already present: the entry is replaced in place. */
  lemma AddReplacingKeys(ct: ClientType, c: Capability, n: string)
    requires NamesDistinct(ct.capabilities) && IndexOfName(ct.capabilities, c.Name()) >= 0
    ensures GetCapability(AddCapability(ct, c), n) == (if n == c.Name() then Some(c) else GetCapability(ct, n))
    ensures NamesDistinct(AddCapability(ct, c).capabilities)
  {
    var i := IndexOfName(ct.capabilities, c.Name());
    var caps := AddCapability(ct, c).capabilities;
    assert caps == ct.capabilities[i := c];
    SameNamesSameIndex(caps, ct.capabilities, n);
  }

  /** addCapability over a new name: the entry goes at the end. */
  lemma AddAppendingKeys(ct: ClientType, c: Capability, n: string)
    requires IndexOfName(ct.capabilities, c.Name()) < 0
    ensures GetCapability(AddCapability(ct, c), n) == (if n == c.Name() then Some(c) else GetCapability(ct, n))
  {
    var caps := AddCapability(ct, c).capabilities;
    assert caps[..|caps| - 1] == ct.capabilities;
  }

  /** Two lists with the same name at every position find a name at the same position. */
  lemma {:induction false} SameNamesSameIndex(a: seq<Capability>, b: seq<Capability>, n: string)
    requires |a| == |b| && forall k :: 0 <= k < |a| ==> a[k].Name() == b[k].Name()
    ensures IndexOfName(a, n) == IndexOfName(b, n)
  {
    if |a| > 0 {
      SameNamesSameIndex(a[..|a| - 1], b[..|b| - 1], n);
    }
  }

  /** hasCapability holds exactly when getCapability gives a capability of that name. */
  lemma HasCapabilityIffGetCapability(ct: ClientType, n: string)
    ensures HasCapability(ct, n) <==> GetCapability(ct, n).Some?
    ensures GetCapability(ct, n).Some? ==> GetCapability(ct, n).value.Name() == n
  {
  }

  /** The registry content after construction: the three built-in definitions under their names. */
  function BuiltInDefinitions(): map<string, ActivityDefinition> {
    map[ControlName := ControlDefinition(),
        WebRtcName := WebRtcDefinition(),
        VideoStreamName := VideoStreamDefinition()]
  }

  /** A capability named by definition and role, as the client types build theirs. */
  function BuiltInCapability(definitionName: string, roleName: string): Capability
    requires CapabilityNamed(BuiltInDefinitions(), definitionName, roleName).Success?
  {
    CapabilityNamed(BuiltInDefinitions(), definitionName, roleName).value
  }

  const WebClientName: string := "web"
  const InterbotClientName: string := "interbot"

  /** The browser client: controller, caller, callee and video receiver. */
  function WebClientType(): ClientType {
    BuiltInRoles();
    var ct := ClientType(WebClientName, []);
    var ct := AddCapability(ct, BuiltInCapability(ControlName, RoleController));
    var ct := AddCapability(ct, BuiltInCapability(WebRtcName, RoleCaller));
    var ct := AddCapability(ct, BuiltInCapability(WebRtcName, RoleCallee));
    AddCapability(ct, BuiltInCapability(VideoStreamName, RoleReceiver))
  }

  /** The robot client: only the robot role of control activities. */
  function InterbotClientType(): ClientType {
    BuiltInRoles();
    AddCapability(ClientType(InterbotClientName, []), BuiltInCapability(ControlName, RoleRobot))
  }

  /** The capabilities the client types look up by name. */
  lemma BuiltInCapabilities()
    ensures BuiltInCapability(ControlName, RoleController) == Capability(ControlDefinition(), Role(RoleController, true))
    ensures BuiltInCapability(ControlName, RoleRobot) == Capability(ControlDefinition(), Role(RoleRobot, false))
    ensures BuiltInCapability(WebRtcName, RoleCaller) == Capability(WebRtcDefinition(), Role(RoleCaller, true))
    ensures BuiltInCapability(WebRtcName, RoleCallee) == Capability(WebRtcDefinition(), Role(RoleCallee, false))
    ensures BuiltInCapability(VideoStreamName, RoleReceiver) == Capability(VideoStreamDefinition(), Role(RoleReceiver, true))
    ensures BuiltInCapability(VideoStreamName, RoleSender) == Capability(VideoStreamDefinition(), Role(RoleSender, false))
  {
    BuiltInRoles();
  }

  /** The web client grants controller, caller, callee and receiver, in that order; only callee is passive. */
  lemma WebClientCapabilities()
    ensures WebClientType().capabilities == [
      Capability(ControlDefinition(), Role(RoleController, true)),
      Capability(WebRtcDefinition(), Role(RoleCaller, true)),
      Capability(WebRtcDefinition(), Role(RoleCallee, false)),
      Capability(VideoStreamDefinition(), Role(RoleReceiver, true))]
    ensures PassiveCapabilityInfos(WebClientType().capabilities) == [CapabilityInfo(WebRtcName, RoleCallee)]
  {
    WebClientList();
    var callee := Capability(WebRtcDefinition(), Role(RoleCallee, false));
    var receiver := Capability(VideoStreamDefinition(), Role(RoleReceiver, true));
    assert PassiveCapabilityInfos([receiver]) == [];
    assert PassiveCapabilityInfos([callee, receiver]) == [callee.Info()];
    assert PassiveCapabilityInfos(WebClientType().capabilities[1..]) == [callee.Info()];
  }

  /** The web client's capabilities, in the order they were added. */
  lemma WebClientList()
    ensures WebClientType().capabilities == [
      Capability(ControlDefinition(), Role(RoleController, true)),
      Capability(WebRtcDefinition(), Role(RoleCaller, true)),
      Capability(WebRtcDefinition(), Role(RoleCallee, false)),
      Capability(VideoStreamDefinition(), Role(RoleReceiver, true))]
  {
    BuiltInCapabilities();
    var control := Capability(ControlDefinition(), Role(RoleController, true));
    var caller := Capability(WebRtcDefinition(), Role(RoleCaller, true));
    var callee := Capability(WebRtcDefinition(), Role(RoleCallee, false));
    var receiver := Capability(VideoStreamDefinition(), Role(RoleReceiver, true));
    AddNew(ClientType(WebClientName, []), control);
    assert caller.Name()[0] != control.Name()[0];
    AddNew(ClientType(WebClientName, [control]), caller);
    assert callee.Name()[0] != control.Name()[0];
    assert callee.Name()[|WebRtcName| + 6] != caller.Name()[|WebRtcName| + 6];
    AddNew(ClientType(WebClientName, [control, caller]), callee);
    assert receiver.Name()[0] != control.Name()[0];
    assert receiver.Name()[0] != caller.Name()[0];
    assert receiver.Name()[0] != callee.Name()[0];
    AddNew(ClientType(WebClientName, [control, caller, callee]), receiver);
  }

  /** addCapability under a name no capability has yet appends the capability. */
  lemma AddNew(ct: ClientType, c: Capability)
    requires forall k :: 0 <= k < |ct.capabilities| ==> ct.capabilities[k].Name() != c.Name()
    ensures AddCapability(ct, c) == ct.(capabilities := ct.capabilities + [c])
  {
  }

  /** The interbot client grants exactly the passive robot role of control activities. */
  lemma InterbotClientCapabilities()
    ensures InterbotClientType().capabilities == [Capability(ControlDefinition(), Role(RoleRobot, false))]
    ensures PassiveCapabilityInfos(InterbotClientType().capabilities) == [CapabilityInfo(ControlName, RoleRobot)]
    ensures forall d: ActivityDefinition, r: Role :: d.name != ControlName ==> !HasActivityRole(InterbotClientType().capabilities, d, r)
    ensures WebClientType() != InterbotClientType()
  {
    BuiltInCapabilities();
  }

  /** The registry of activity definitions, keyed by name. */
  class ActivityManager {
    var definitions: map<string, ActivityDefinition>

    /** Registers the control, webrtc and videostream definitions. */
    constructor()
      ensures definitions == BuiltInDefinitions()
    {
      definitions := map[];
      new;
      AddActivityDefinition(ControlDefinition());
      AddActivityDefinition(WebRtcDefinition());
      AddActivityDefinition(VideoStreamDefinition());
    }

    /** Stores the definition under its name, replacing one of the same name. */
    method AddActivityDefinition(d: ActivityDefinition)
      modifies this
      ensures definitions == old(definitions)[d.name := d]
    {
      definitions := definitions[d.name := d];
    }

    predicate HasActivityDefinition(name: string)
      reads this
    {
      name in definitions
    }

    /** The definition of that name, or null. */
    function GetActivityDefinition(name: string): Option<ActivityDefinition>
      reads this
    {
      if name in definitions then Some(definitions[name]) else None
    }
  }

  /** hasActivityDefinition holds exactly when getActivityDefinition gives the definition stored under that name. */
  lemma RegistryLookup(m: ActivityManager, name: string)
    ensures m.HasActivityDefinition(name) <==> m.GetActivityDefinition(name).Some?
    ensures m.GetActivityDefinition(name).Some? ==> m.GetActivityDefinition(name).value == m.definitions[name]
  {
  }

  /** After construction: each built-in name gives its definition, any other name gives null. */
  lemma BuiltInRegistry(name: string)
    ensures name in BuiltInDefinitions() <==> name == ControlName || name == WebRtcName || name == VideoStreamName
    ensures forall n :: n in BuiltInDefinitions() ==> BuiltInDefinitions()[n].name == n
    ensures BuiltInDefinitions()[ControlName].kind == Control
    ensures BuiltInDefinitions()[WebRtcName].kind == WebRtc
    ensures BuiltInDefinitions()[VideoStreamName].kind == VideoStream
  {
  }
}
