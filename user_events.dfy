/**
 * User events: what the server publishes on a user's event topic. Each
 * factory fixes the layout of the event's data list; setType parses a type
 * name and falls back to Undefined.
 */
module UserEvents {
  import opened Wrappers
  import opened Authorization

  /** Account kinds; each is a User subclass on the server. */
  datatype UserType = Admin | Human | Robot

  /** Whether a user is logged in through at least one session. */
  datatype Status = Offline | Online

  /** Status.name(). */
  function StatusName(s: Status): string {
    match s
    case Offline => "Offline"
    case Online => "Online"
  }

  datatype EventType =
    | Undefined
    | SystemLogout
    | StatusUpdate
    | CapabilityUpdate
    | PropertyUpdate
    | ActivityInvitation
    | InvitationReply
    | CancelInvitation
    | JoinActivity
    | ExitActivity

  /** Type.name(). */
  function TypeName(t: EventType): string {
    match t
    case Undefined => "Undefined"
    case SystemLogout => "SystemLogout"
    case StatusUpdate => "StatusUpdate"
    case CapabilityUpdate => "CapabilityUpdate"
    case PropertyUpdate => "PropertyUpdate"
    case ActivityInvitation => "ActivityInvitation"
    case InvitationReply => "InvitationReply"
    case CancelInvitation => "CancelInvitation"
    case JoinActivity => "JoinActivity"
    case ExitActivity => "ExitActivity"
  }

  /** Enum.valueOf on the type names, with Undefined for a name that is not one. */
  function ParseType(name: string): (t: EventType)
    ensures name != TypeName(t) ==> t == Undefined
  {
    if name == "SystemLogout" then SystemLogout
    else if name == "StatusUpdate" then StatusUpdate
    else if name == "CapabilityUpdate" then CapabilityUpdate
    else if name == "PropertyUpdate" then PropertyUpdate
    else if name == "ActivityInvitation" then ActivityInvitation
    else if name == "InvitationReply" then InvitationReply
    else if name == "CancelInvitation" then CancelInvitation
    else if name == "JoinActivity" then JoinActivity
    else if name == "ExitActivity" then ExitActivity
    else Undefined
  }

  /** Parsing a type's name gives the type back; a name that is no type's gives Undefined. */
  lemma ParseTypeRoundTrip(t: EventType, name: string)
    ensures ParseType(TypeName(t)) == t
    ensures (forall u :: TypeName(u) != name) ==> ParseType(name) == Undefined
  {
  }

  /** The system properties a robot reports about itself. */
  datatype SystemProperty = NetworkInterfaces | Devices

  /** SystemProperty.name(), the key a reported property is stored under. */
  function SystemPropertyName(p: SystemProperty): string {
    match p
    case NetworkInterfaces => "NetworkInterfaces"
    case Devices => "Devices"
  }

  /**
   * A user property value: plain text, or a list of device descriptions
   * (each a map from attribute name to value), as a robot reports under
   * "Devices".
   */
  datatype PropertyValue = Text(text: string) | DeviceList(devices: seq<map<string, string>>)

  /** One element of an event's data list. */
  datatype Datum =
    | Str(str: string)
    | Flag(flag: bool)
    | Info(info: CapabilityInfo)
    | Properties(properties: map<string, PropertyValue>)
    | Null

  datatype UserEvent = UserEvent(username: string, eventType: EventType, data: seq<Datum>)

  /** The default event: no user, Undefined, no data. */
  function DefaultEvent(): UserEvent {
    UserEvent("", Undefined, [])
  }

  /** setType. */
  function SetType(e: UserEvent, name: string): UserEvent {
    e.(eventType := ParseType(name))
  }

  /** An optional string as an event datum: null stays null. */
  function OptionDatum(extra: Option<string>): Datum {
    if extra.Some? then Str(extra.value) else Null
  }

  function SystemLogoutEvent(username: string): UserEvent {
    UserEvent(username, SystemLogout, [])
  }

  function StatusUpdateEvent(username: string, status: Status): UserEvent {
    UserEvent(username, StatusUpdate, [Str(StatusName(status))])
  }

  function CapabilityUpdateEvent(username: string, capabilities: seq<CapabilityInfo>): UserEvent {
    UserEvent(username, CapabilityUpdate, seq(|capabilities|, i requires 0 <= i < |capabilities| => Info(capabilities[i])))
  }

  function PropertyUpdateEvent(username: string, properties: map<string, PropertyValue>): UserEvent {
    UserEvent(username, PropertyUpdate, [Properties(properties)])
  }

  /** Sent to the invitee, from the inviter: activity name, role name, invitation id, extra. */
  function ActivityInvitationEvent(inviter: string, activityName: string, roleName: string,
                                   invitationId: string, extra: Option<string>): UserEvent {
    UserEvent(inviter, ActivityInvitation, [Str(activityName), Str(roleName), Str(invitationId), OptionDatum(extra)])
  }

  /** Sent to the inviter, from the invitee: invitation id, accepted, extra. */
  function InvitationReplyEvent(invitee: string, invitationId: string, accepted: bool, extra: Option<string>): UserEvent {
    UserEvent(invitee, InvitationReply, [Str(invitationId), Flag(accepted), OptionDatum(extra)])
  }

  /** Sent to the invitee, from the inviter: invitation id. */
  function CancelInvitationEvent(inviter: string, invitationId: string): UserEvent {
    UserEvent(inviter, CancelInvitation, [Str(invitationId)])
  }

  /** From the joining user: activity id, role name, participant id. */
  function JoinActivityEvent(username: string, activityId: string, roleName: string, participantId: string): UserEvent {
    UserEvent(username, JoinActivity, [Str(activityId), Str(roleName), Str(participantId)])
  }

  /** From the exiting user: activity id, participant id. */
  function ExitActivityEvent(username: string, activityId: string, participantId: string): UserEvent {
    UserEvent(username, ExitActivity, [Str(activityId), Str(participantId)])
  }

  /**
   * A subscriber can read every argument back from the event: each factory
   * is injective, and its type tells which factory built it.
   */
  lemma EventsCarryTheirArguments(u1: string, a1: string, r1: string, p1: string,
                                  u2: string, a2: string, r2: string, p2: string)
    ensures JoinActivityEvent(u1, a1, r1, p1) == JoinActivityEvent(u2, a2, r2, p2)
            <==> u1 == u2 && a1 == a2 && r1 == r2 && p1 == p2
    ensures ExitActivityEvent(u1, a1, p1) == ExitActivityEvent(u2, a2, p2) <==> u1 == u2 && a1 == a2 && p1 == p2
    ensures JoinActivityEvent(u1, a1, r1, p1) != ExitActivityEvent(u2, a2, p2)
    ensures ActivityInvitationEvent(u1, a1, r1, p1, None).data[2] == Str(p1)
    ensures InvitationReplyEvent(u1, p1, true, None) != InvitationReplyEvent(u1, p1, false, None)
  {
    if JoinActivityEvent(u1, a1, r1, p1) == JoinActivityEvent(u2, a2, r2, p2) {
      assert JoinActivityEvent(u1, a1, r1, p1).data[0] == Str(a1);
      assert JoinActivityEvent(u2, a2, r2, p2).data[0] == Str(a2);
      assert JoinActivityEvent(u1, a1, r1, p1).data[1] == Str(r1);
      assert JoinActivityEvent(u1, a1, r1, p1).data[2] == Str(p1);
    }
    if ExitActivityEvent(u1, a1, p1) == ExitActivityEvent(u2, a2, p2) {
      assert ExitActivityEvent(u1, a1, p1).data[0] == Str(a1);
      assert ExitActivityEvent(u1, a1, p1).data[1] == Str(p1);
    }
  }

  /** The capability update lists one Info per capability, in order. */
  lemma CapabilityUpdateLayout(username: string, capabilities: seq<CapabilityInfo>)
    ensures |CapabilityUpdateEvent(username, capabilities).data| == |capabilities|
    ensures forall i :: 0 <= i < |capabilities| ==> CapabilityUpdateEvent(username, capabilities).data[i] == Info(capabilities[i])
  {
  }
}
