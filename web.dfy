/**
 * The server's activity and session engine: users with their sessions,
 * activities with their participants, invitations between participants
 * and users, video channels, and the events all of these publish through
 * the message directory.
 *
 * The engine's singletons (the directory, the channel registry, the user
 * registry, the activity registry and the task manager) hang off one
 * Server object. It also keeps a ghost record of every live engine object,
 * so that a method can name the objects it may change and promise that the
 * references between live objects stay inside the record.
 */
module Web {
  import opened Wrappers
  import opened Strings
  import opened Authorization
  import opened UserEvents
  import opened VideoInstructions
  import opened InvitationResults
  import opened Transport
  import opened UserUris
  import opened Tasks
  import opened Validation

  /** kMaxMissedPings: the pong count a session starts from and is reset to. */
  const MaxMissedPings: int := 2
  /** UserManager.kSessionPingIntervalMillis. */
  const SessionPingIntervalMillis: int := 20000
  /** RequestSystemInfoTask.kDelayMillis. */
  const SystemInfoDelayMillis: int := 30000
  /** The user types the user database stores. */
  const UserTypeHuman: int := 2
  const UserTypeRobot: int := 3
  /** Length of the random part of activity, invitation and channel ids. */
  const ActivityRandomLength: nat := 12
  const InvitationIdLength: nat := 10
  const ChannelIdLength: nat := 16

  /** RandomString.nextString: some string of the requested length. */
  method RandomString(length: nat) returns (s: string)
    ensures |s| == length
  {
    assert |seq(length, _ => 'a')| == length;
    s :| |s| == length;
  }

  // ---------------------------------------------------------------------
  // The user database, seen through the queries the engine makes.
  // ---------------------------------------------------------------------

  /** The tables the engine reads: user types, passwords and friend lists. */
  datatype UserDatabase = UserDatabase(
    userTypes: map<string, int>,
    passwords: map<string, string>,
    friendNames: map<string, seq<string>>)

  /** authenticateUser: both strings must be SQL-safe and the password must match. */
  predicate AuthenticateUser(db: UserDatabase, username: string, password: string) {
    SqlSafe(username) && SqlSafe(password)
    && username in db.passwords && db.passwords[username] == password
  }

  /** getUserType: 0 for an unsafe name, -1 for an unknown user. */
  function GetUserType(db: UserDatabase, username: string): (r: int)
    ensures !SqlSafe(username) ==> r == 0
    ensures SqlSafe(username) && username !in db.userTypes ==> r == -1
  {
    if !SqlSafe(username) then 0
    else if username in db.userTypes then db.userTypes[username]
    else -1
  }

  /** listFriends: no friends for an unsafe or unknown name. */
  function ListFriends(db: UserDatabase, username: string): seq<string> {
    if SqlSafe(username) && username in db.friendNames then db.friendNames[username] else []
  }

  /** getUser finds the name: it is SQL-safe, and either loaded already or of a human or robot. */
  predicate Loadable(db: UserDatabase, loaded: set<string>, username: string) {
    SqlSafe(username) && (username in loaded || NewlyLoadable(db, username))
  }

  /** The database knows the name as a human or a robot. */
  predicate NewlyLoadable(db: UserDatabase, username: string) {
    GetUserType(db, username) == UserTypeHuman || GetUserType(db, username) == UserTypeRobot
  }

  /** The names getUser finds, in their order. */
  function LoadableNames(db: UserDatabase, loaded: set<string>, names: seq<string>): (r: seq<string>)
    ensures forall n :: n in r ==> n in names && Loadable(db, loaded, n)
    ensures forall n :: n in names && Loadable(db, loaded, n) ==> n in r
  {
    if names == [] then []
    else
      var rest := LoadableNames(db, loaded, names[..|names| - 1]);
      var last := names[|names| - 1];
      assert names == names[..|names| - 1] + [last];
      if Loadable(db, loaded, last) then rest + [last] else rest
  }

  // ---------------------------------------------------------------------
  // Publications the engine makes.
  // ---------------------------------------------------------------------

  /** userEvent: the event published on the user's own event topic. */
  function Notice(u: User, e: UserEvent): Publication {
    Publication(UserHomePath(u.username), EventUri(u.username, UserEventTopic), Event(e))
  }

  /** UserEvent.joinActivity: sent on behalf of the joining participant's user. */
  function JoinEventOf(p: Participant): UserEvent {
    JoinActivityEvent(p.session.user.username, p.activity.activityId, p.role.name, p.participantId)
  }

  /** UserEvent.exitActivity: sent on behalf of the exiting participant's user. */
  function ExitEventOf(p: Participant): UserEvent {
    ExitActivityEvent(p.session.user.username, p.activity.activityId, p.participantId)
  }

  /** The event to each participant listed under `keys`, in that order. */
  function NoticesTo(keys: seq<string>, m: map<string, Participant>, e: UserEvent): seq<Publication>
    requires forall k :: k in keys ==> k in m
  {
    seq(|keys|, i requires 0 <= i < |keys| => Notice(m[keys[i]].session.user, e))
  }

  /** The video instruction published on a robot's video topic. */
  function VideoNotice(username: string, instruction: VideoInstruction): Publication {
    Publication(UserHomePath(username), EventUri(username, RobotVideoTopic), Video(instruction))
  }

  // ---------------------------------------------------------------------
  // Maps in iteration order.
  // ---------------------------------------------------------------------

  /** A HashMap iteration order: every key of the map exactly once. */
  ghost predicate IsKeyOrder<V>(keys: seq<string>, m: map<string, V>) {
    (forall k :: k in keys <==> k in m)
    && (forall i, j :: 0 <= i < j < |keys| ==> keys[i] != keys[j])
  }

  /** An iteration order lists as many keys as the map has. */
  lemma {:induction false} KeyOrderSize<V>(keys: seq<string>, m: map<string, V>)
    requires IsKeyOrder(keys, m)
    ensures |keys| == |m|
  {
    if keys == [] {
      assert m.Keys == {};
    } else {
      var m' := m - {keys[0]};
      forall k ensures k in keys[1..] <==> k in m' {
        if k in keys[1..] {
          var i :| 0 <= i < |keys[1..]| && keys[1..][i] == k;
          assert keys[i + 1] == k;
        }
        if k in m' {
          var i :| 0 <= i < |keys| && keys[i] == k;
          assert keys[1..][i - 1] == k;
        }
      }
      KeyOrderSize(keys[1..], m');
      assert m'.Keys == m.Keys - {keys[0]};
    }
  }

  /** The iteration order of a map is not specified: any order of its keys. */
  method KeyOrder<V>(m: map<string, V>) returns (keys: seq<string>)
    ensures IsKeyOrder(keys, m)
  {
    keys := [];
    var rest := m.Keys;
    while rest != {}
      invariant forall k :: k in m <==> k in keys || k in rest
      invariant forall k :: k in keys ==> k !in rest
      invariant forall i, j :: 0 <= i < j < |keys| ==> keys[i] != keys[j]
      decreases |rest|
    {
      var k :| k in rest;
      keys := keys + [k];
      rest := rest - {k};
    }
  }

  /** The values of the map in the order of `keys`. */
  function ValuesAt<V>(keys: seq<string>, m: map<string, V>): seq<V>
    requires forall k :: k in keys ==> k in m
  {
    seq(|keys|, i requires 0 <= i < |keys| => m[keys[i]])
  }

  /** One map is the other with some entries left out. */
  ghost predicate Submap<V>(small: map<string, V>, large: map<string, V>) {
    forall k :: k in small ==> k in large && small[k] == large[k]
  }

  // ---------------------------------------------------------------------
  // Participant searches (Participant.java's static helpers).
  // ---------------------------------------------------------------------

  /** getFirstWithRole: the first participant, in iteration order, whose role has that name. */
  function FirstWithRole(ps: seq<Participant>, roleName: string): (r: Option<Participant>)
    ensures r.None? <==> forall i :: 0 <= i < |ps| ==> ps[i].role.name != roleName
    ensures r.Some? ==> exists i :: 0 <= i < |ps| && ps[i] == r.value && r.value.role.name == roleName
                                    && forall j :: 0 <= j < i ==> ps[j].role.name != roleName
  {
    if ps == [] then None
    else if ps[0].role.name == roleName then Some(ps[0])
    else
      var r := FirstWithRole(ps[1..], roleName);
      assert r.Some? ==> exists i :: 1 <= i < |ps| && ps[i] == r.value
                                     && forall j :: 0 <= j < i ==> ps[j].role.name != roleName
      by {
        if r.Some? {
          var i :| 0 <= i < |ps[1..]| && ps[1..][i] == r.value && r.value.role.name == roleName
                   && forall j :: 0 <= j < i ==> ps[1..][j].role.name != roleName;
          assert ps[i + 1] == r.value;
          assert forall j :: 0 <= j < i + 1 ==> ps[j].role.name != roleName by {
            forall j | 0 <= j < i + 1 ensures ps[j].role.name != roleName {
              if j > 0 { assert ps[j] == ps[1..][j - 1]; }
            }
          }
        }
      }
      r
  }

  /** hasRole: some participant holds the named role. */
  predicate HasRole(ps: seq<Participant>, roleName: string) {
    FirstWithRole(ps, roleName).Some?
  }

  /** hasRole holds exactly when some participant in the collection has a role of that name. */
  lemma HasRoleIffSomeHolds(ps: seq<Participant>, roleName: string)
    ensures HasRole(ps, roleName) <==> exists i :: 0 <= i < |ps| && ps[i].role.name == roleName
  {
  }

  /** hasActivity: some participant belongs to an activity of that definition. */
  function HasActivity(ps: seq<Participant>, d: ActivityDefinition): (r: bool)
    ensures r <==> exists i :: 0 <= i < |ps| && ps[i].activity.definition == d
  {
    if ps == [] then false
    else if ps[0].activity.definition == d then true
    else
      var r := HasActivity(ps[1..], d);
      assert r ==> exists i :: 0 <= i < |ps| && ps[i].activity.definition == d by {
        if r {
          var i :| 0 <= i < |ps[1..]| && ps[1..][i].activity.definition == d;
          assert ps[i + 1] == ps[1..][i];
        }
      }
      r
  }

  /** Some participant of the map holds the named role. */
  ghost predicate HasRoleIn(m: map<string, Participant>, roleName: string) {
    exists k :: k in m && m[k].role.name == roleName
  }

  /**
   * getFirstWithRole over a participant map: walks the map in its (unspecified)
   * iteration order and returns the first holder of the role, if any.
   */
  method FindWithRole(m: map<string, Participant>, roleName: string) returns (r: Option<Participant>)
    ensures r.None? <==> !HasRoleIn(m, roleName)
    ensures r.Some? ==> r.value.role.name == roleName && exists k :: k in m && m[k] == r.value
  {
    var keys := KeyOrder(m);
    var values := ValuesAt(keys, m);
    r := FirstWithRole(values, roleName);
    if r.None? {
      forall k | k in m
        ensures m[k].role.name != roleName
      {
        var i :| 0 <= i < |keys| && keys[i] == k;
        assert values[i] == m[k];
      }
    } else {
      var i :| 0 <= i < |values| && values[i] == r.value && r.value.role.name == roleName;
      assert m[keys[i]] == r.value;
    }
  }

  // ---------------------------------------------------------------------
  // Control activities: the robot-controller pair.
  // ---------------------------------------------------------------------

  /** More than one participant, among them a controller and a robot. */
  ghost predicate Paired(m: map<string, Participant>) {
    |m| > 1 && HasRoleIn(m, RoleController) && HasRoleIn(m, RoleRobot)
  }

  /** The link granting a controller of the map access to a robot of the map. */
  ghost predicate PairLink(m: map<string, Participant>, l: Link) {
    exists r, c :: r in m.Values && c in m.Values && r.role.name == RoleRobot && c.role.name == RoleController
                   && l == ControlLink(r.session.user.username, c.session.user.username)
  }

  /** No robot is left without a controller. */
  ghost predicate Attended(m: map<string, Participant>) {
    HasRoleIn(m, RoleController) || !HasRoleIn(m, RoleRobot)
  }

  /** Each of the participants is a robot that was in `before` and is gone from `after`. */
  ghost predicate RobotsGone(ps: seq<Participant>, before: map<string, Participant>, after: map<string, Participant>) {
    forall i :: 0 <= i < |ps| ==>
      ps[i].role.name == RoleRobot && ps[i].participantId in before && ps[i].participantId !in after
  }

  /** One more robot gone, from a map that has only lost entries since. */
  lemma RobotsGoneExtend(ps: seq<Participant>, r: Participant, before: map<string, Participant>,
                         mid: map<string, Participant>, after: map<string, Participant>)
    requires RobotsGone(ps, before, mid) && after.Keys <= mid.Keys
    requires r.role.name == RoleRobot && r.participantId in before && r.participantId !in after
    ensures RobotsGone(ps + [r], before, after)
  {
    forall i | 0 <= i < |ps| + 1
      ensures (ps + [r])[i].participantId !in after
    {
      if i < |ps| {
        assert ps[i].participantId !in mid;
      }
    }
  }

  // ---------------------------------------------------------------------
  // Video stream activities: winding down.
  // ---------------------------------------------------------------------

  /** No sender is left alone, and no channel stays open once everyone has left. */
  ghost predicate WoundDown(m: map<string, Participant>, channel: VideoChannel?) {
    (m == map[] ==> channel == null) && !LoneSender(m)
  }

  /** One participant is left, and it is a sender. */
  ghost predicate LoneSender(m: map<string, Participant>) {
    |m| == 1 && HasRoleIn(m, RoleSender)
  }

  /** A map with one entry is that entry alone. */
  lemma SingletonMap<V>(m: map<string, V>, k: string)
    requires k in m && |m| == 1
    ensures m == map[k := m[k]]
  {
    forall j | j in m
      ensures j == k
    {
      if j != k {
        assert {k, j} <= m.Keys;
        assert |{k, j}| == 2;
        SubsetCardinality({k, j}, m.Keys);
      }
    }
  }

  lemma SubsetCardinality<T>(a: set<T>, b: set<T>)
    requires a <= b
    ensures |a| <= |b|
  {
    assert b == a + (b - a);
  }

  // ---------------------------------------------------------------------
  // Participant ids.
  // ---------------------------------------------------------------------

  /** The id of an activity's n-th participant: activity id, "#", n. */
  function ParticipantId(activityId: string, n: nat): string {
    activityId + "#" + NatToString(n)
  }

  /** Different counter values give different participant ids within one activity. */
  lemma ParticipantIdInjective(activityId: string, i: nat, j: nat)
    ensures ParticipantId(activityId, i) == ParticipantId(activityId, j) ==> i == j
  {
    if ParticipantId(activityId, i) == ParticipantId(activityId, j) {
      assert ParticipantId(activityId, i)[|activityId| + 1..] == NatToString(i);
      assert ParticipantId(activityId, j)[|activityId| + 1..] == NatToString(j);
      NatToStringInjective(i, j);
    }
  }

  /** A WebRTC call: its private topic and its two ends, set together by invite. */
  datatype P2PCall = P2PCall(p2pTopic: string, caller: User, callee: User)

  /** The jobs the task manager runs. */
  datatype Job = RequestSystemInfo(robot: User)

  /** A receiver of a video channel's frames, waiting on its participant's behalf. */
  datatype VideoReceiver = VideoReceiver(participant: Participant)

  // ---------------------------------------------------------------------
  // The server and its record of live objects.
  // ---------------------------------------------------------------------

  class Server {
    const dir: Directory
    const channelManager: VideoChannelManager
    const userManager: UserManager
    const activityManager: ActivityManager
    const taskManager: TaskManager<Job>
    /** Activity.activity_count: activities created so far. */
    var activityCount: nat

    ghost var activities: set<Activity>
    ghost var participants: set<Participant>
    ghost var sessions: set<Session>
    ghost var lists: set<InvitationList>
    ghost var invitations: set<Invitation>
    ghost var users: set<User>
    ghost var channels: set<VideoChannel>

    /** Activities keep their invariant and refer to live participants and channels. */
    ghost predicate ActivitiesClosed()
      reads this`activities, this`participants, activities`participants
    {
      forall a {:trigger a.participants} :: a in activities ==>
        a.Valid() && forall id :: id in a.participants ==> a.participants[id] in participants
    }

    /** Activities refer to live channels. */
    ghost predicate ChannelsClosed()
      reads this`activities, this`channels, activities`channel
    {
      forall a {:trigger a.channel} :: a in activities && a.channel != null ==> a.channel in channels
    }

    /** Participants refer to live activities, sessions and invitation lists. */
    ghost predicate ParticipantsClosed()
      reads this`participants, this`activities, this`sessions, this`lists
    {
      (forall p {:trigger p.activity} :: p in participants ==> p.activity in activities)
      && (forall p {:trigger p.session} :: p in participants ==> p.session in sessions)
      && (forall p {:trigger p.pendingInvitations} :: p in participants ==> p.pendingInvitations in lists)
    }

    /** Sessions hold live participations. */
    ghost predicate SessionsClosed()
      reads this`sessions, this`participants, sessions`activities
    {
      forall s {:trigger s.activities} :: s in sessions ==>
        forall id :: id in s.activities ==> s.activities[id] in participants
    }

    /** Invitation lists are keyed by invitation id and hold live invitations. */
    ghost predicate ListsClosed()
      reads this`lists, this`invitations, lists`entries
    {
      forall l {:trigger l.entries} :: l in lists ==> l.Keyed() && l.entries.Values <= invitations
    }

    /** Invitations come from live participants to live users. */
    ghost predicate InvitationsClosed()
      reads this`invitations, this`participants, this`users
    {
      (forall i {:trigger i.inviter} :: i in invitations ==> i.inviter in participants)
      && (forall i {:trigger i.user} :: i in invitations ==> i.user in users)
    }

    /** Users hold live invitation lists and sessions, and know only live users. */
    ghost predicate UsersClosed()
      reads this`users, this`lists, this`sessions, users`sessions, users`friends, users`followers
    {
      (forall u {:trigger u.pendingInvitations} :: u in users ==> u.pendingInvitations in lists)
      && (forall u {:trigger u.sessions} :: u in users ==>
            forall k :: 0 <= k < |u.sessions| ==> u.sessions[k] in sessions)
      && (forall u {:trigger u.friends} :: u in users && u.friends.Some? ==>
            forall k :: 0 <= k < |u.friends.value| ==> u.friends.value[k] in users)
      && (forall u {:trigger u.followers} :: u in users ==>
            forall k :: 0 <= k < |u.followers| ==> u.followers[k] in users)
    }

    /** The user registry holds live users under their own names. */
    ghost predicate RegistryClosed()
      reads this`users, userManager`users
    {
      forall n :: n in userManager.users ==> userManager.users[n] in users && userManager.users[n].username == n
    }

    /**
     * Every reference from a live object leads to a live object, every
     * activity and invitation list keeps its own invariant, and the user
     * registry holds live users under their own names.
     */
    ghost predicate Closed()
      reads this, activities, sessions, lists, users, userManager
    {
      ActivitiesClosed() && ChannelsClosed() && ParticipantsClosed() && SessionsClosed() && ListsClosed()
      && InvitationsClosed() && UsersClosed() && RegistryClosed()
    }

    /** Directory.handle with a publish request; the record of live objects is untouched. */
    method Publish(path: string, uri: Uri, payload: Payload)
      requires Closed()
      modifies dir`log
      ensures Closed() && dir.log == old(dir.log) + [Publication(path, uri, payload)]
    {
      dir.Publish(path, uri, payload);
    }

    /** UserUris.grantRobotControlAccess between two users. */
    method GrantControl(robot: string, controller: string)
      requires Closed()
      modifies dir`links
      ensures Closed() && dir.links == old(dir.links) + multiset{ControlLink(robot, controller)}
    {
      GrantRobotControlAccess(dir, robot, controller);
    }

    /** UserUris.denyRobotControlAccess between two users. */
    method DenyControl(robot: string, controller: string)
      requires Closed()
      modifies dir`links
      ensures Closed() && dir.links == old(dir.links) - multiset{ControlLink(robot, controller)}
    {
      DenyRobotControlAccess(dir, robot, controller);
    }

    /** UserUris.createWebRtcP2PTopic with a fresh random topic name. */
    method CreateP2PTopic(caller: string, callee: string) returns (p2pTopic: string, ghost random: string)
      requires Closed()
      modifies dir`paths, dir`links
      ensures Closed()
      ensures |random| == P2PRandomLength && p2pTopic == P2PTopicName(random)
      ensures dir.paths == old(dir.paths) + {P2PTopicPath(caller, "/p2p" + random)}
      ensures dir.links == old(dir.links) + multiset{P2PLink(caller, callee, "/p2p" + random)}
    {
      var r := RandomString(P2PRandomLength);
      random := r;
      p2pTopic := CreateWebRtcP2PTopic(dir, caller, callee, r);
    }

    /** UserUris.destroyWebRtcP2PTopic. */
    method DestroyP2PTopic(p2pTopic: string, caller: string, callee: string)
      requires Closed()
      modifies dir`paths, dir`links
      ensures Closed()
      ensures P2PTopicOf(p2pTopic).None? ==> dir.paths == old(dir.paths) && dir.links == old(dir.links)
      ensures P2PTopicOf(p2pTopic).Some? ==>
        dir.paths == old(dir.paths) - {P2PTopicPath(caller, P2PTopicOf(p2pTopic).value)}
        && dir.links == old(dir.links) - multiset{P2PLink(caller, callee, P2PTopicOf(p2pTopic).value)}
    {
      DestroyWebRtcP2PTopic(dir, p2pTopic, caller, callee);
    }

    /** Records a new participant, and its empty invitation list, as live. */
    method AddParticipant(p: Participant)
      requires Closed() && p.activity in activities && p.session in sessions
      requires p.pendingInvitations.entries == map[]
      modifies this`participants, this`lists
      ensures Closed()
      ensures participants == old(participants) + {p} && lists == old(lists) + {p.pendingInvitations}
    {
      AddList(p.pendingInvitations);
      participants := participants + {p};
      assert ActivitiesClosed() && SessionsClosed() && InvitationsClosed();
    }

    /** Records a new, empty invitation list as live. */
    method AddList(l: InvitationList)
      requires Closed() && l.entries == map[]
      modifies this`lists
      ensures Closed() && lists == old(lists) + {l}
    {
      lists := lists + {l};
      assert forall l' :: l' in old(lists) ==> old(l'.entries) == l'.entries;
    }

    /** Records a new activity as live. */
    method AddActivity(a: Activity)
      requires Closed() && a.participants == map[] && a.channel == null && a.Valid()
      modifies this`activities
      ensures Closed() && activities == old(activities) + {a}
    {
      activities := activities + {a};
      assert forall a' :: a' in old(activities) ==> old(a'.participants) == a'.participants;
    }

    /**
     * ActivityDefinition.createActivity: a new activity of the definition's
     * kind, whose id is a random part followed by the bumped activity count.
     */
    method CreateActivity(definition: ActivityDefinition) returns (a: Activity, ghost random: string)
      requires Closed()
      modifies this`activityCount, this`activities
      ensures Closed()
      ensures fresh(a) && a.definition == definition && activityCount == old(activityCount) + 1
      ensures |random| == ActivityRandomLength && a.activityId == random + NatToString(activityCount)
      ensures a.participants == map[] && a.participantIdCount == 0
      ensures a.call == None && a.channel == null
      ensures activities == old(activities) + {a}
    {
      activityCount := activityCount + 1;
      var r := RandomString(ActivityRandomLength);
      random := r;
      a := new Activity(r + NatToString(activityCount), definition);
      AddActivity(a);
    }

    /** Records a new channel as live. */
    method AddChannel(c: VideoChannel)
      requires Closed() && c.activity in activities
      modifies this`channels
      ensures Closed() && channels == old(channels) + {c}
    {
      channels := channels + {c};
      assert forall a :: a in activities ==> old(a.channel) == a.channel && old(a.participants) == a.participants;
    }

    /** Records a new invitation as live. */
    method AddInvitation(i: Invitation)
      requires Closed() && i.inviter in participants && i.user in users
      modifies this`invitations
      ensures Closed() && invitations == old(invitations) + {i}
    {
      invitations := invitations + {i};
      assert forall l :: l in lists ==> old(l.entries) == l.entries;
    }

    /** Records a new session as live. */
    method AddSession(s: Session)
      requires Closed() && s.activities == map[]
      modifies this`sessions
      ensures Closed() && sessions == old(sessions) + {s}
    {
      sessions := sessions + {s};
    }

    /** Records a newly loaded user, and its invitation list, as live. */
    method AddUser(u: User)
      requires Closed() && u.pendingInvitations.entries == map[]
      requires u.sessions == [] && u.friends == None && u.followers == []
      modifies this`users, this`lists
      ensures Closed() && users == old(users) + {u} && lists == old(lists) + {u.pendingInvitations}
    {
      users := users + {u};
      lists := lists + {u.pendingInvitations};
      assert u.pendingInvitations.Keyed() && u.pendingInvitations.entries.Values <= invitations;
      assert forall l :: l in old(lists) ==> l.Keyed() && l.entries.Values <= invitations;
    }

    /** The engine at start-up: empty registries and the built-in activity definitions. */
    constructor()
      ensures Closed()
      ensures activityCount == 0 && fresh(dir) && dir.log == []
      ensures activityManager.definitions == BuiltInDefinitions()
      ensures userManager.users == map[] && channelManager.channels == map[]
      ensures activities == {} && participants == {} && sessions == {} && users == {}
    {
      dir := new Directory();
      channelManager := new VideoChannelManager();
      userManager := new UserManager();
      activityManager := new ActivityManager();
      taskManager := new TaskManager<Job>();
      activityCount := 0;
      activities := {};
      participants := {};
      sessions := {};
      lists := {};
      invitations := {};
      users := {};
      channels := {};
    }
  }

  /** ExitActivity on behalf of each participant, to its own user, last one first. */
  function OwnExitNotices(ps: seq<Participant>): (r: seq<Publication>)
    ensures |r| == |ps|
    ensures forall i :: 0 <= i < |ps| ==> r[|ps| - 1 - i] == Notice(ps[i].session.user, ExitEventOf(ps[i]))
  {
    if ps == [] then [] else OwnExitNotices(ps[1..]) + [Notice(ps[0].session.user, ExitEventOf(ps[0]))]
  }

  /** userEvent(exitActivity) to each participant's own user, from the last to the first. */
  method NotifyExitedInReverse(server: Server, ps: seq<Participant>)
    requires server.Closed()
    modifies server.dir`log
    ensures server.Closed()
    ensures server.dir.log == old(server.dir.log) + OwnExitNotices(ps)
  {
    var i := |ps|;
    while i > 0
      invariant 0 <= i <= |ps| && server.Closed()
      invariant server.dir.log == old(server.dir.log) + OwnExitNotices(ps[i..])
    {
      i := i - 1;
      ps[i].session.user.UserEvent(server, ExitEventOf(ps[i]));
      assert ps[i..][1..] == ps[i + 1..];
    }
  }

  /** The event to the user of every participant of the map, in its iteration order. */
  method NotifyParticipants(server: Server, m: map<string, Participant>, e: UserEvent) returns (ghost keys: seq<string>)
    requires server.Closed()
    modifies server.dir`log
    ensures server.Closed() && IsKeyOrder(keys, m)
    ensures server.dir.log == old(server.dir.log) + NoticesTo(keys, m, e)
  {
    var order := KeyOrder(m);
    keys := order;
    NotifyInOrder(server, order, m, e);
  }

  /** userEvent to the user of each participant under `keys`, in order. */
  method NotifyInOrder(server: Server, keys: seq<string>, m: map<string, Participant>, e: UserEvent)
    requires server.Closed() && forall k :: k in keys ==> k in m
    modifies server.dir`log
    ensures server.Closed()
    ensures server.dir.log == old(server.dir.log) + NoticesTo(keys, m, e)
  {
    var i := 0;
    while i < |keys|
      invariant 0 <= i <= |keys| && server.Closed()
      invariant server.dir.log == old(server.dir.log) + NoticesTo(keys[..i], m, e)
    {
      m[keys[i]].session.user.UserEvent(server, e);
      assert NoticesTo(keys[..i + 1], m, e) == NoticesTo(keys[..i], m, e) + [Notice(m[keys[i]].session.user, e)];
      i := i + 1;
    }
    assert keys[..i] == keys;
  }

  /** A session as beginSession makes it: the user's, under that id and client type, idle, with a full pong count. */
  ghost predicate NewSession(s: Session, u: User, sessionId: string, clientType: ClientType)
    reads s
  {
    s.user == u && s.sessionId == sessionId && s.clientType == clientType
    && s.activities == map[] && s.pongCount == MaxMissedPings
  }

  /** The session ping published on the user's home path, announcing the next one within two intervals. */
  function SessionPingNotice(username: string): Publication {
    Publication(UserHomePath(username), EventUri(username, SessionPingTopic), SessionPing(2 * SessionPingIntervalMillis))
  }

  /** No two of the sessions share an id. */
  predicate DistinctIds(ss: seq<Session>) {
    forall i, j :: 0 <= i < j < |ss| ==> ss[i].sessionId != ss[j].sessionId
  }

  /** Among sessions with distinct ids, the id picks out the session. */
  lemma SameIdSameSession(ss: seq<Session>, s: Session, t: Session)
    requires DistinctIds(ss) && s in ss && t in ss && s.sessionId == t.sessionId
    ensures s == t
  {
    var i :| 0 <= i < |ss| && ss[i] == s;
    var j :| 0 <= j < |ss| && ss[j] == t;
  }

  /** The ids of the sessions, in order. */
  function SessionIds(ss: seq<Session>): (r: seq<string>)
    ensures |r| == |ss| && forall i :: 0 <= i < |ss| ==> r[i] == ss[i].sessionId
  {
    seq(|ss|, i requires 0 <= i < |ss| => ss[i].sessionId)
  }

  /**
   * RequestSystemInfoTask.run: a robot that is online and has no properties
   * yet is asked for its network interfaces; otherwise nothing happens.
   */
  method RequestSystemInfoRun(server: Server, robot: User)
    requires server.Closed()
    modifies server.dir`log
    ensures server.Closed()
    ensures robot.status == Online && robot.properties == map[] ==>
              server.dir.log == old(server.dir.log) + [SystemInfoRequestNotice(robot.username)]
    ensures robot.status != Online || robot.properties != map[] ==> server.dir.log == old(server.dir.log)
  {
    if robot.status != Online {
      return;
    }
    if |robot.properties| > 0 {
      return;
    }
    server.Publish(UserHomePath(robot.username), EventUri(robot.username, RobotSystemInfoRequestTopic),
                   SystemInfoRequest([NetworkInterfaces]));
  }

  /** The system-info request for exactly the network interfaces, on the robot's request topic. */
  function SystemInfoRequestNotice(username: string): Publication {
    Publication(UserHomePath(username), EventUri(username, RobotSystemInfoRequestTopic), SystemInfoRequest([NetworkInterfaces]))
  }

  /** What running one task publishes: the request, when its robot is online without properties. */
  function TaskPublications(t: Task<Job>): seq<Publication>
    reads t.job.robot
  {
    if t.job.robot.status == Online && t.job.robot.properties == map[] then [SystemInfoRequestNotice(t.job.robot.username)] else []
  }

  /** What running a batch of tasks in order publishes. */
  function BatchPublications(ts: seq<Task<Job>>): seq<Publication>
    reads set t | t in ts :: t.job.robot
  {
    if ts == [] then [] else TaskPublications(ts[0]) + BatchPublications(ts[1..])
  }

  /** Running a batch in two parts publishes the first part's requests, then the second's. */
  lemma {:induction false} BatchPublicationsAppend(a: seq<Task<Job>>, b: seq<Task<Job>>)
    ensures BatchPublications(a + b) == BatchPublications(a) + BatchPublications(b)
  {
    if a == [] {
      assert a + b == b;
    } else {
      assert (a + b)[1..] == a[1..] + b;
      BatchPublicationsAppend(a[1..], b);
    }
  }

  /** Running one more task of a batch publishes that task's request after the earlier ones. */
  lemma BatchPublicationsStep(batch: seq<Task<Job>>, k: nat)
    requires k < |batch|
    ensures BatchPublications(batch[..k + 1]) == BatchPublications(batch[..k]) + TaskPublications(batch[k])
  {
    assert BatchPublications([batch[k]]) == TaskPublications(batch[k]) by {
      assert [batch[k]][1..] == [];
    }
    BatchPublicationsAppend(batch[..k], [batch[k]]);
    assert batch[..k + 1] == batch[..k] + [batch[k]];
  }

  /**
   * A batch publishes at most one request per task, and every request goes to
   * the robot of some task in the batch that is online without properties.
   */
  lemma {:induction false} BatchPublicationsAreRequests(ts: seq<Task<Job>>)
    ensures |BatchPublications(ts)| <= |ts|
    ensures forall k :: 0 <= k < |BatchPublications(ts)| ==>
              exists i :: 0 <= i < |ts| && ts[i].job.robot.status == Online && ts[i].job.robot.properties == map[]
                          && BatchPublications(ts)[k] == SystemInfoRequestNotice(ts[i].job.robot.username)
  {
    if ts != [] {
      BatchPublicationsAreRequests(ts[1..]);
      var head := TaskPublications(ts[0]);
      forall k | 0 <= k < |BatchPublications(ts)|
        ensures exists i :: 0 <= i < |ts| && ts[i].job.robot.status == Online && ts[i].job.robot.properties == map[]
                            && BatchPublications(ts)[k] == SystemInfoRequestNotice(ts[i].job.robot.username)
      {
        if k < |head| {
          assert BatchPublications(ts)[k] == SystemInfoRequestNotice(ts[0].job.robot.username);
        } else {
          var j :| 0 <= j < |ts[1..]| && ts[1..][j].job.robot.status == Online && ts[1..][j].job.robot.properties == map[]
                   && BatchPublications(ts[1..])[k - |head|] == SystemInfoRequestNotice(ts[1..][j].job.robot.username);
          assert ts[1..][j] == ts[j + 1];
        }
      }
    }
  }

  /**
   * One round of TaskManager.run: the due tasks are drained into the batch,
   * each task of the batch runs in order, and the batch is cleared.
   */
  method RunTaskRound(server: Server, nowMillis: int)
    requires server.Closed() && server.taskManager.Valid()
    modifies server.taskManager`queue, server.taskManager`currentTasks, server.dir`log
    ensures server.Closed() && server.taskManager.Valid()
    ensures server.taskManager.queue == WaitingTasks(old(server.taskManager.queue), nowMillis)
    ensures server.taskManager.currentTasks == []
    ensures server.dir.log == old(server.dir.log)
      + BatchPublications(old(server.taskManager.currentTasks) + DueTasks(old(server.taskManager.queue), nowMillis))
  {
    server.taskManager.DrainDue(nowMillis);
    var batch := server.taskManager.currentTasks;
    RunBatch(server, batch);
    assert forall i :: 0 <= i < |batch| ==> allocated(batch[i].job.robot);
    server.taskManager.ClearBatch();
  }

  /** The for loop of TaskManager.run: each task of the batch runs, in order. */
  method RunBatch(server: Server, batch: seq<Task<Job>>)
    requires server.Closed()
    modifies server.dir`log
    ensures server.Closed()
    ensures server.dir.log == old(server.dir.log) + BatchPublications(batch)
  {
    var k := 0;
    while k < |batch|
      invariant 0 <= k <= |batch| && server.Closed()
      invariant server.dir.log == old(server.dir.log) + BatchPublications(batch[..k])
    {
      RunNext(server, batch, k, old(server.dir.log));
      k := k + 1;
    }
    assert batch[..k] == batch;
  }

  /** The next task of the batch runs, and its request follows the earlier ones'. */
  method RunNext(server: Server, batch: seq<Task<Job>>, k: nat, ghost start: seq<Publication>)
    requires server.Closed() && k < |batch| && server.dir.log == start + BatchPublications(batch[..k])
    modifies server.dir`log
    ensures server.Closed() && server.dir.log == start + BatchPublications(batch[..k + 1])
  {
    // what the earlier tasks published depends only on robots allocated before this call
    assert forall i :: 0 <= i < k ==> allocated(batch[..k][i].job.robot);
    RequestSystemInfoRun(server, batch[k].job.robot);
    BatchPublicationsStep(batch, k);
  }

  /** The event to each user, in order. */
  function NoticesToUsers(us: seq<User>, e: UserEvent): (r: seq<Publication>)
    ensures |r| == |us| && forall i :: 0 <= i < |us| ==> r[i] == Notice(us[i], e)
  {
    seq(|us|, i requires 0 <= i < |us| => Notice(us[i], e))
  }

  /** userEvent on each user's topic, in order. */
  method NotifyUsers(server: Server, us: seq<User>, e: UserEvent)
    requires server.Closed()
    modifies server.dir`log
    ensures server.Closed()
    ensures server.dir.log == old(server.dir.log) + NoticesToUsers(us, e)
  {
    var i := 0;
    while i < |us|
      invariant 0 <= i <= |us| && server.Closed()
      invariant server.dir.log == old(server.dir.log) + NoticesToUsers(us[..i], e)
    {
      us[i].UserEvent(server, e);
      assert NoticesToUsers(us[..i + 1], e) == NoticesToUsers(us[..i], e) + [Notice(us[i], e)];
      i := i + 1;
    }
    assert us[..i] == us;
  }

  /** The usernames of the users, in order. */
  function Usernames(us: seq<User>): (r: seq<string>)
    ensures |r| == |us| && forall i :: 0 <= i < |us| ==> r[i] == us[i].username
  {
    seq(|us|, i requires 0 <= i < |us| => us[i].username)
  }

  /** n entries of the same user. */
  function Copies(u: User, n: nat): (r: seq<User>)
    ensures |r| == n && forall i :: 0 <= i < n ==> r[i] == u
  {
    seq(n, i => u)
  }

  /** One more element of fs counted: one more copy for that element, none for the others. */
  lemma CopiesStep(fs: seq<User>, k: nat, u: User)
    requires k < |fs|
    ensures forall f :: Copies(u, Count(fs[..k + 1], f)) == Copies(u, Count(fs[..k], f)) + (if f == fs[k] then [u] else [])
  {
    CountStep(fs, k);
  }

  /** The number of entries of u in us. */
  function Count(us: seq<User>, u: User): nat {
    if us == [] then 0
    else Count(us[..|us| - 1], u) + (if us[|us| - 1] == u then 1 else 0)
  }

  /** One more element counted. */
  lemma CountStep(us: seq<User>, k: nat)
    requires k < |us|
    ensures forall u :: Count(us[..k + 1], u) == Count(us[..k], u) + (if us[k] == u then 1 else 0)
  {
    assert us[..k + 1][..k] == us[..k];
  }

  /** Count agrees with the multiplicity of the multiset of the sequence. */
  lemma {:induction false} CountIsMultiplicity(us: seq<User>, u: User)
    ensures Count(us, u) == multiset(us)[u]
  {
    if us != [] {
      CountIsMultiplicity(us[..|us| - 1], u);
      assert us == us[..|us| - 1] + [us[|us| - 1]];
    }
  }

  /** List.remove(u), n times over. */
  function RemoveTimes(us: seq<User>, u: User, n: nat): seq<User> {
    if n == 0 then us else RemoveFirst(RemoveTimes(us, u, n - 1), u)
  }

  /** Removing n times takes away n copies of u, or all of them when there are fewer. */
  lemma {:induction false} RemoveTimesCount(us: seq<User>, u: User, n: nat)
    ensures multiset(RemoveTimes(us, u, n)) == multiset(us) - multiset(Copies(u, n))
  {
    if n > 0 {
      var before := RemoveTimes(us, u, n - 1);
      var fewer := multiset(Copies(u, n - 1));
      RemoveTimesCount(us, u, n - 1);
      assert multiset(before) == multiset(us) - fewer;
      RemoveFirstCount(before, u);
      assert multiset(RemoveTimes(us, u, n)) == (multiset(us) - fewer) - multiset{u};
      CopiesSucc(u, n);
      MinusMinus(multiset(us), fewer, multiset{u});
    } else {
      assert multiset(Copies(u, 0)) == multiset{};
    }
  }

  lemma CopiesSucc(u: User, n: nat)
    requires n > 0
    ensures multiset(Copies(u, n)) == multiset(Copies(u, n - 1)) + multiset{u}
  {
    assert Copies(u, n) == Copies(u, n - 1) + [u];
  }

  lemma MinusMinus<T>(a: multiset<T>, b: multiset<T>, c: multiset<T>)
    ensures (a - b) - c == a - (b + c)
  {
  }

  /** The registry only gained names, each one the database knows as a human or a robot. */
  ghost predicate GrownBy(db: UserDatabase, before: map<string, User>, after: map<string, User>) {
    (forall n :: n in before ==> n in after && after[n] == before[n])
    && (forall n :: n in after && n !in before ==> NewlyLoadable(db, n))
  }

  /** getUser for each name, keeping the users it finds, in order. */
  method LoadNamed(server: Server, db: UserDatabase, names: seq<string>) returns (fs: seq<User>)
    requires server.Closed()
    modifies server.userManager`users, server`users, server`lists
    ensures server.Closed() && server.users >= old(server.users)
    ensures Usernames(fs) == LoadableNames(db, old(server.userManager.users).Keys, names)
    ensures forall k :: 0 <= k < |fs| ==> fs[k] in server.users
    ensures forall f :: f in server.users && f !in old(server.users) ==> fresh(f) && f.followers == []
  {
    fs := [];
    var k := 0;
    while k < |names|
      invariant 0 <= k <= |names| && server.Closed() && server.users >= old(server.users)
      invariant GrownBy(db, old(server.userManager.users), server.userManager.users)
      invariant Usernames(fs) == LoadableNames(db, old(server.userManager.users).Keys, names[..k])
      invariant forall j :: 0 <= j < |fs| ==> fs[j] in server.users
      invariant forall f :: f in server.users && f !in old(server.users) ==> fresh(f) && f.followers == []
    {
      fs := LoadStep(server, db, names[k], fs);
      assert names[..k + 1] == names[..k] + [names[k]];
      k := k + 1;
    }
    assert names[..k] == names;
  }

  /** One name of LoadNamed: the user getUser finds, if any, goes at the end. */
  method LoadStep(server: Server, db: UserDatabase, name: string, fs: seq<User>) returns (fs2: seq<User>)
    requires server.Closed()
    modifies server.userManager`users, server`users, server`lists
    ensures server.Closed() && server.users >= old(server.users)
    ensures GrownBy(db, old(server.userManager.users), server.userManager.users)
    ensures Usernames(fs2) == Usernames(fs) + (if Loadable(db, old(server.userManager.users).Keys, name) then [name] else [])
    ensures forall j :: 0 <= j < |fs| ==> fs2[j] == fs[j]
    ensures forall j :: |fs| <= j < |fs2| ==> fs2[j] in server.users
    ensures forall f :: f in server.users && f !in old(server.users) ==> fresh(f) && f.followers == []
  {
    var u := server.userManager.GetUser(server, db, name);
    fs2 := fs + OptionToSeq(u);
  }

  function OptionToSeq(u: Option<User>): (r: seq<User>)
    ensures u.None? ==> r == []
    ensures u.Some? ==> r == [u.value]
  {
    if u.Some? then [u.value] else []
  }

  /** The index of the first occurrence of u, or |us| when there is none. */
  function FirstIndex(us: seq<User>, u: User): (i: nat)
    ensures i <= |us| && (i < |us| <==> u in us)
    ensures i < |us| ==> us[i] == u
    ensures forall j :: 0 <= j < i ==> us[j] != u
  {
    if us == [] then 0
    else if us[0] == u then 0
    else 1 + FirstIndex(us[1..], u)
  }

  /** List.remove(Object): the first occurrence goes; without one the list stays as it is. */
  function RemoveFirst(us: seq<User>, u: User): (r: seq<User>)
    ensures forall k :: 0 <= k < |r| ==> r[k] in us
  {
    var i := FirstIndex(us, u);
    if i == |us| then us else us[..i] + us[i + 1..]
  }

  /** Removing a follower takes out exactly one copy of it when there is one. */
  lemma RemoveFirstCount(us: seq<User>, u: User)
    ensures u !in us ==> RemoveFirst(us, u) == us
    ensures multiset(RemoveFirst(us, u)) == multiset(us) - multiset{u}
    ensures u in us ==> |RemoveFirst(us, u)| == |us| - 1
  {
    var i := FirstIndex(us, u);
    if i < |us| {
      assert us == us[..i] + [u] + us[i + 1..];
      assert multiset(us) == multiset(us[..i]) + multiset{u} + multiset(us[i + 1..]);
    }
  }

  // ---------------------------------------------------------------------
  // Sessions.
  // ---------------------------------------------------------------------

  /** The participation `id` is not registered in session `s`. */
  ghost predicate Unregistered(s: Session, id: string)
    reads s
  {
    id !in s.activities
  }

  /**
   * A participation that was not registered in `s` still is not: exits
   * only unregister. The cascades of the exit overrides state it for the
   * session of the participant that started them, passed as a ghost.
   */
  twostate predicate StaysUnregistered(s: Session, id: string)
    reads s
  {
    id !in old(s.activities) ==> id !in s.activities
  }

  /** One connection of a user: its client type, its participations and its ping counter. */
  class Session {
    const user: User
    const sessionId: string
    const clientType: ClientType
    /** Participations keyed by participant id. */
    var activities: map<string, Participant>
    var pongCount: int

    /** A new session holds no participations and has pong count 0. */
    constructor(user: User, sessionId: string, clientType: ClientType)
      ensures this.user == user && this.sessionId == sessionId && this.clientType == clientType
      ensures activities == map[] && pongCount == 0
    {
      this.user := user;
      this.sessionId := sessionId;
      this.clientType := clientType;
      activities := map[];
      pongCount := 0;
    }

    /** getActivityParticipant: the participation under that id, or null. */
    function GetActivityParticipant(participantId: string): Option<Participant>
      reads this
    {
      if participantId in activities then Some(activities[participantId]) else None
    }

    /** registerActivity: afterwards the participant is found under its id; other ids are unaffected. */
    method RegisterActivity(server: Server, p: Participant)
      requires server.Closed() && this in server.sessions && p in server.participants
      modifies this`activities
      ensures server.Closed()
      ensures activities == old(activities)[p.participantId := p]
      ensures GetActivityParticipant(p.participantId) == Some(p)
      ensures forall id :: id != p.participantId ==> GetActivityParticipant(id) == old(GetActivityParticipant(id))
    {
      activities := activities[p.participantId := p];
    }

    /** unregisterActivity: afterwards nothing is found under the participant's id. */
    method UnregisterActivity(server: Server, p: Participant)
      requires server.Closed() && this in server.sessions
      modifies this`activities
      ensures server.Closed()
      ensures activities == old(activities) - {p.participantId}
      ensures GetActivityParticipant(p.participantId) == None
      ensures forall id :: id != p.participantId ==> GetActivityParticipant(id) == old(GetActivityParticipant(id))
    {
      activities := activities - {p.participantId};
    }

    function GetPongCount(): int
      reads this
    {
      pongCount
    }

    /** setPongCount: getPongCount returns the value set. */
    method SetPongCount(n: int)
      modifies this`pongCount
      ensures GetPongCount() == n
    {
      pongCount := n;
    }

    /**
     * exitAllActivities: with no participations nothing happens; otherwise
     * each participation of a snapshot taken first, in the map's iteration
     * order, exits its activity.
     */
    method ExitAllActivities(server: Server) returns (ghost snapshot: seq<Participant>)
      requires server.Closed() && this in server.sessions
      modifies server.lists`entries, server.activities`participants, server.activities`channel, server.sessions`activities
      modifies server.dir`log, server.dir`links, server.dir`paths, server.channels`receiver, server.channelManager`channels
      ensures server.Closed()
      ensures forall p :: p in snapshot <==> p in old(activities).Values
      ensures forall j :: 0 <= j < |snapshot| ==> snapshot[j].participantId !in snapshot[j].activity.participants
      ensures old(activities) == map[] ==> server.dir.log == old(server.dir.log)
    {
      if |activities| == 0 {
        return [];
      }
      var ps := Participations(server);
      snapshot := ps;
      ExitEach(server, ps);
    }

    /** The participations as a list, in the map's iteration order. */
    method Participations(server: Server) returns (ps: seq<Participant>)
      requires server.Closed() && this in server.sessions
      ensures server.Closed()
      ensures forall p :: p in ps <==> p in activities.Values
      ensures forall j :: 0 <= j < |ps| ==> ps[j] in server.participants
    {
      var keys := KeyOrder(activities);
      ps := ValuesAt(keys, activities);
      assert server.SessionsClosed();
      forall p | p in activities.Values
        ensures p in ps
      {
        var k :| k in activities && activities[k] == p;
        var j :| 0 <= j < |keys| && keys[j] == k;
        assert ps[j] == p;
      }
    }
  }

  /** participant.exitActivity() for each participant, in order. */
  method ExitEach(server: Server, ps: seq<Participant>)
    requires server.Closed() && forall j :: 0 <= j < |ps| ==> ps[j] in server.participants
    modifies server.lists`entries, server.activities`participants, server.activities`channel, server.sessions`activities
    modifies server.dir`log, server.dir`links, server.dir`paths, server.channels`receiver, server.channelManager`channels
    ensures server.Closed()
    ensures forall j :: 0 <= j < |ps| ==> ps[j].participantId !in ps[j].activity.participants
  {
    var k := 0;
    while k < |ps|
      invariant 0 <= k <= |ps| && server.Closed()
      invariant forall j :: 0 <= j < k ==> ps[j].participantId !in ps[j].activity.participants
    {
      ExitOne(server, ps[k]);
      k := k + 1;
    }
  }

  /** One participant's exitActivity, with only what ExitEach needs of it. */
  method ExitOne(server: Server, p: Participant)
    requires server.Closed() && p in server.participants
    modifies server.lists`entries, p.activity`participants, p.activity`channel, server.sessions`activities
    modifies server.dir`log, server.dir`links, server.dir`paths, server.channels`receiver, server.channelManager`channels
    ensures server.Closed()
    ensures p.participantId !in p.activity.participants && Submap(p.activity.participants, old(p.activity.participants))
  {
    var _, _ := p.ExitActivity(server);
  }

  /** findSession: the first session whose client type is the given one. */
  function FindSession(sessions: seq<Session>, clientType: ClientType): (r: Option<Session>)
    ensures r.None? <==> forall i :: 0 <= i < |sessions| ==> sessions[i].clientType != clientType
    ensures r.Some? ==> exists i :: 0 <= i < |sessions| && sessions[i] == r.value && r.value.clientType == clientType
                                    && forall j :: 0 <= j < i ==> sessions[j].clientType != clientType
  {
    if sessions == [] then None
    else if sessions[0].clientType == clientType then Some(sessions[0])
    else
      var r := FindSession(sessions[1..], clientType);
      assert r.Some? ==> exists i :: 1 <= i < |sessions| && sessions[i] == r.value
                                     && forall j :: 0 <= j < i ==> sessions[j].clientType != clientType
      by {
        if r.Some? {
          var i :| 0 <= i < |sessions[1..]| && sessions[1..][i] == r.value
                   && forall j :: 0 <= j < i ==> sessions[1..][j].clientType != clientType;
          assert sessions[i + 1] == r.value;
          forall j | 0 <= j < i + 1 ensures sessions[j].clientType != clientType {
            if j > 0 { assert sessions[j] == sessions[1..][j - 1]; }
          }
        }
      }
      r
  }

  /** User.getSession: the first session with that id. */
  function SessionWithId(sessions: seq<Session>, sessionId: string): (r: Option<nat>)
    ensures r.None? <==> forall i :: 0 <= i < |sessions| ==> sessions[i].sessionId != sessionId
    ensures r.Some? ==> r.value < |sessions| && sessions[r.value].sessionId == sessionId
                        && forall j :: 0 <= j < r.value ==> sessions[j].sessionId != sessionId
  {
    if sessions == [] then None
    else if sessions[0].sessionId == sessionId then Some(0)
    else
      var r := SessionWithId(sessions[1..], sessionId);
      if r.None? then None
      else
        assert forall j :: 0 <= j < r.value + 1 ==> sessions[j].sessionId != sessionId by {
          forall j | 0 <= j < r.value + 1 ensures sessions[j].sessionId != sessionId {
            if j > 0 { assert sessions[j] == sessions[1..][j - 1]; }
          }
        }
        Some(r.value + 1)
  }

  // ---------------------------------------------------------------------
  // Participants and invitations.
  // ---------------------------------------------------------------------

  /** One session's place in one activity, in one role. */
  class Participant {
    const participantId: string
    const activity: Activity
    const session: Session
    const role: Role
    const pendingInvitations: InvitationList
    /** The activity's counter value this participant's id was made from. */
    ghost const serial: nat

    /** A new participant has no pending invitations. */
    constructor(participantId: string, activity: Activity, session: Session, role: Role, ghost serial: nat)
      ensures this.participantId == participantId && this.activity == activity
      ensures this.session == session && this.role == role && this.serial == serial
      ensures fresh(pendingInvitations) && pendingInvitations.entries == map[]
    {
      this.participantId := participantId;
      this.activity := activity;
      this.session := session;
      this.role := role;
      this.serial := serial;
      pendingInvitations := new InvitationList();
    }

    /**
     * exitActivity: every invitation this participant sent is cancelled,
     * then the participant exits its activity. Afterwards it is not in the
     * activity and the activity has lost no one else but cascaded exits.
     */
    method ExitActivity(server: Server) returns (ghost cancelled: seq<Invitation>, ghost exitNotices: seq<Publication>)
      requires server.Closed() && this in server.participants
      modifies server.lists`entries, activity`participants, activity`channel, server.sessions`activities
      modifies server.dir`log, server.dir`links, server.dir`paths, server.channels`receiver, server.channelManager`channels
      ensures server.Closed()
      ensures IdsOf(cancelled) == old(pendingInvitations.entries).Keys && pendingInvitations.entries == map[]
      ensures participantId !in activity.participants && Submap(activity.participants, old(activity.participants))
      ensures participantId in old(activity.participants) ==> Unregistered(session, participantId)
      ensures server.dir.log == old(server.dir.log) + CancelNotices(cancelled) + exitNotices
    {
      assert pendingInvitations in server.lists && activity in server.activities by { assert server.ParticipantsClosed(); }
      cancelled := pendingInvitations.CancelAll(server);
      ghost var mid := server.dir.log;
      activity.Leave(server, this);
      exitNotices := server.dir.log[|mid|..];
      assert server.dir.log == mid + exitNotices;
    }
  }

  /** Pending invitations keyed by invitation id. */
  class InvitationList {
    var entries: map<string, Invitation>

    constructor()
      ensures entries == map[]
    {
      entries := map[];
    }

    /** Every entry sits under its own id, in a list of its inviter or of its invitee. */
    ghost predicate Keyed()
      reads this`entries
    {
      forall id :: id in entries ==>
        entries[id].invitationId == id
        && (entries[id].inviter.pendingInvitations == this || entries[id].user.pendingInvitations == this)
    }

    /** put(id, invitation) for an invitation of this list's owner. */
    method Put(server: Server, invitation: Invitation)
      requires server.Closed() && this in server.lists && invitation in server.invitations
      requires invitation.inviter.pendingInvitations == this || invitation.user.pendingInvitations == this
      modifies this`entries
      ensures server.Closed()
      ensures entries == old(entries)[invitation.invitationId := invitation]
    {
      entries := entries[invitation.invitationId := invitation];
      assert forall l :: l in server.lists && l != this ==> old(l.entries) == l.entries;
    }

    /** remove(id). */
    method Remove(server: Server, invitationId: string)
      requires server.Closed() && this in server.lists
      modifies this`entries
      ensures server.Closed()
      ensures entries == old(entries) - {invitationId}
    {
      entries := entries - {invitationId};
      assert forall l :: l in server.lists && l != this ==> old(l.entries) == l.entries;
    }

    /** The invitations of the list in its iteration order, each once. */
    method Snapshot(server: Server) returns (invs: seq<Invitation>)
      requires server.Closed() && this in server.lists
      ensures server.Closed()
      ensures forall j :: 0 <= j < |invs| ==> invs[j] in server.invitations
      ensures forall j :: 0 <= j < |invs| ==> invs[j].inviter.pendingInvitations == this || invs[j].user.pendingInvitations == this
      ensures IdsOf(invs) == entries.Keys
    {
      var keys := KeyOrder(entries);
      invs := ValuesAt(keys, entries);
      assert Keyed() && entries.Values <= server.invitations by { assert server.ListsClosed(); }
      forall j | 0 <= j < |invs|
        ensures invs[j] in server.invitations && invs[j].invitationId == keys[j]
      {
        assert invs[j] == entries[keys[j]];
        assert invs[j] in entries.Values;
      }
      forall k | k in entries
        ensures k in IdsOf(invs)
      {
        var j :| 0 <= j < |keys| && keys[j] == k;
        assert invs[j].invitationId == k;
      }
      forall k | k in IdsOf(invs)
        ensures k in entries
      {
        var j :| 0 <= j < |invs| && invs[j].invitationId == k;
        assert keys[j] == k;
      }
    }

    /**
     * cancelAll: cancels a snapshot of every invitation in the list, in the
     * list's iteration order; an empty list stays as it is. Afterwards the
     * list is empty.
     */
    method CancelAll(server: Server) returns (ghost snapshot: seq<Invitation>)
      requires server.Closed() && this in server.lists
      modifies server.lists`entries, server.dir`log
      ensures server.Closed() && entries == map[]
      ensures IdsOf(snapshot) == old(entries).Keys
      ensures server.dir.log == old(server.dir.log) + CancelNotices(snapshot)
    {
      if |entries| == 0 {
        return [];
      }
      var invs := Snapshot(server);
      snapshot := invs;
      CancelEach(server, invs);
    }

    /** invitation.cancel() for each invitation, in order. */
    method CancelEach(server: Server, invs: seq<Invitation>)
      requires server.Closed() && this in server.lists
      requires forall j :: 0 <= j < |invs| ==> invs[j] in server.invitations
      requires forall j :: 0 <= j < |invs| ==> invs[j].inviter.pendingInvitations == this || invs[j].user.pendingInvitations == this
      modifies server.lists`entries, server.dir`log
      ensures server.Closed()
      ensures entries == old(entries) - IdsOf(invs)
      ensures server.dir.log == old(server.dir.log) + CancelNotices(invs)
    {
      var k := 0;
      ghost var removed: set<string> := {};
      ghost var sent: seq<Publication> := [];
      while k < |invs|
        invariant 0 <= k <= |invs| && server.Closed()
        invariant removed == IdsOf(invs[..k]) && sent == CancelNotices(invs[..k])
        invariant entries == old(entries) - removed
        invariant server.dir.log == old(server.dir.log) + sent
      {
        CancelOne(server, invs[k]);
        CancelStep(invs, k);
        MinusStep(old(entries), removed, invs[k].invitationId);
        removed := removed + {invs[k].invitationId};
        sent := sent + [CancelNotice(invs[k])];
        k := k + 1;
      }
      assert invs[..k] == invs;
    }

    /** One invitation's cancel, seen from a list that holds it. */
    method CancelOne(server: Server, i: Invitation)
      requires server.Closed() && this in server.lists && i in server.invitations
      requires i.inviter.pendingInvitations == this || i.user.pendingInvitations == this
      modifies server.lists`entries, server.dir`log
      ensures server.Closed() && entries == old(entries) - {i.invitationId}
      ensures server.dir.log == old(server.dir.log) + [CancelNotice(i)]
    {
      assert i.user.pendingInvitations in server.lists && i.inviter.pendingInvitations in server.lists by {
        assert server.InvitationsClosed() && server.UsersClosed() && server.ParticipantsClosed();
      }
      i.Cancel(server);
    }

    /**
     * rejectAll: rejects a snapshot of every invitation in the list, in the
     * list's iteration order; an empty list stays as it is. Afterwards the
     * list is empty.
     */
    method RejectAll(server: Server) returns (ghost snapshot: seq<Invitation>)
      requires server.Closed() && this in server.lists
      modifies server.lists`entries, server.dir`log
      ensures server.Closed() && entries == map[]
      ensures IdsOf(snapshot) == old(entries).Keys
      ensures server.dir.log == old(server.dir.log) + RejectNotices(snapshot)
    {
      if |entries| == 0 {
        return [];
      }
      var invs := Snapshot(server);
      snapshot := invs;
      RejectEach(server, invs);
    }

    /** invitation.reject() for each invitation, in order. */
    method RejectEach(server: Server, invs: seq<Invitation>)
      requires server.Closed() && this in server.lists
      requires forall j :: 0 <= j < |invs| ==> invs[j] in server.invitations
      requires forall j :: 0 <= j < |invs| ==> invs[j].inviter.pendingInvitations == this || invs[j].user.pendingInvitations == this
      modifies server.lists`entries, server.dir`log
      ensures server.Closed()
      ensures entries == old(entries) - IdsOf(invs)
      ensures server.dir.log == old(server.dir.log) + RejectNotices(invs)
    {
      var k := 0;
      ghost var removed: set<string> := {};
      ghost var sent: seq<Publication> := [];
      while k < |invs|
        invariant 0 <= k <= |invs| && server.Closed()
        invariant removed == IdsOf(invs[..k]) && sent == RejectNotices(invs[..k])
        invariant entries == old(entries) - removed
        invariant server.dir.log == old(server.dir.log) + sent
      {
        RejectOne(server, invs[k]);
        RejectStep(invs, k);
        MinusStep(old(entries), removed, invs[k].invitationId);
        removed := removed + {invs[k].invitationId};
        sent := sent + [RejectNotice(invs[k])];
        k := k + 1;
      }
      assert invs[..k] == invs;
    }

    /** One invitation's reject, seen from a list that holds it. */
    method RejectOne(server: Server, i: Invitation)
      requires server.Closed() && this in server.lists && i in server.invitations
      requires i.inviter.pendingInvitations == this || i.user.pendingInvitations == this
      modifies server.lists`entries, server.dir`log
      ensures server.Closed() && entries == old(entries) - {i.invitationId}
      ensures server.dir.log == old(server.dir.log) + [RejectNotice(i)]
    {
      assert i.user.pendingInvitations in server.lists && i.inviter.pendingInvitations in server.lists by {
        assert server.InvitationsClosed() && server.UsersClosed() && server.ParticipantsClosed();
      }
      i.Reject(server);
    }
  }

  /** The CancelInvitation event cancel sends to the invitee. */
  function CancelNotice(i: Invitation): Publication {
    Notice(i.user, CancelInvitationEvent(i.inviter.session.user.username, i.invitationId))
  }

  /** The InvitationReply(false) event reject sends to the inviter. */
  function RejectNotice(i: Invitation): Publication {
    Notice(i.inviter.session.user, InvitationReplyEvent(i.user.username, i.invitationId, false, i.extra))
  }

  /** The cancel notices of a sequence of invitations, in order. */
  function CancelNotices(invs: seq<Invitation>): seq<Publication> {
    seq(|invs|, j requires 0 <= j < |invs| => CancelNotice(invs[j]))
  }

  /** The reject notices of a sequence of invitations, in order. */
  function RejectNotices(invs: seq<Invitation>): seq<Publication> {
    seq(|invs|, j requires 0 <= j < |invs| => RejectNotice(invs[j]))
  }

  /** The ids of a sequence of invitations. */
  ghost function IdsOf(invs: seq<Invitation>): (r: set<string>)
    ensures forall j :: 0 <= j < |invs| ==> invs[j].invitationId in r
    ensures forall id :: id in r ==> exists j :: 0 <= j < |invs| && invs[j].invitationId == id
  {
    if invs == [] then {} else IdsOf(invs[..|invs| - 1]) + {invs[|invs| - 1].invitationId}
  }

  /** Removing keys one at a time is removing them all at once. */
  lemma MinusStep<V>(m: map<string, V>, keys: set<string>, key: string)
    ensures (m - keys) - {key} == m - (keys + {key})
  {
  }

  /** Growing a prefix of the snapshot by one invitation adds its id and its cancel notice. */
  lemma CancelStep(invs: seq<Invitation>, k: int)
    requires 0 <= k < |invs|
    ensures IdsOf(invs[..k + 1]) == IdsOf(invs[..k]) + {invs[k].invitationId}
    ensures CancelNotices(invs[..k + 1]) == CancelNotices(invs[..k]) + [CancelNotice(invs[k])]
  {
    assert invs[..k + 1][..k] == invs[..k];
  }

  /** Growing a prefix of the snapshot by one invitation adds its id and its reject notice. */
  lemma RejectStep(invs: seq<Invitation>, k: int)
    requires 0 <= k < |invs|
    ensures IdsOf(invs[..k + 1]) == IdsOf(invs[..k]) + {invs[k].invitationId}
    ensures RejectNotices(invs[..k + 1]) == RejectNotices(invs[..k]) + [RejectNotice(invs[k])]
  {
    assert invs[..k + 1][..k] == invs[..k];
  }

  /** An offer from a participant to a user to join the participant's activity in a role. */
  class Invitation {
    const invitationId: string
    const inviter: Participant
    const user: User
    const role: Role
    const extra: Option<string>

    /** The new invitation is registered under its id with the inviter and with the invitee. */
    constructor(server: Server, invitationId: string, inviter: Participant, user: User, role: Role, extra: Option<string>)
      requires server.Closed() && inviter in server.participants && user in server.users
      modifies inviter.pendingInvitations`entries, user.pendingInvitations`entries, server`invitations
      ensures server.Closed()
      ensures this.invitationId == invitationId && this.inviter == inviter && this.user == user
      ensures this.role == role && this.extra == extra
      ensures inviter.pendingInvitations.entries == old(inviter.pendingInvitations.entries)[invitationId := this]
      ensures user.pendingInvitations.entries == old(user.pendingInvitations.entries)[invitationId := this]
      ensures server.invitations == old(server.invitations) + {this}
    {
      this.invitationId := invitationId;
      this.inviter := inviter;
      this.user := user;
      this.role := role;
      this.extra := extra;
      new;
      assert server.ParticipantsClosed() && server.UsersClosed();
      Register(server);
    }

    /** The registration the constructor performs: the invitation under its id in both lists. */
    method Register(server: Server)
      requires server.Closed() && inviter in server.participants && user in server.users
      requires inviter.pendingInvitations in server.lists && user.pendingInvitations in server.lists
      modifies inviter.pendingInvitations`entries, user.pendingInvitations`entries, server`invitations
      ensures server.Closed()
      ensures inviter.pendingInvitations.entries == old(inviter.pendingInvitations.entries)[invitationId := this]
      ensures user.pendingInvitations.entries == old(user.pendingInvitations.entries)[invitationId := this]
      ensures server.invitations == old(server.invitations) + {this}
    {
      server.AddInvitation(this);
      inviter.pendingInvitations.Put(server, this);
      user.pendingInvitations.Put(server, this);
    }

    /** getActivity: the inviter's activity. */
    function GetActivity(): (a: Activity)
      ensures a == inviter.activity
    {
      inviter.activity
    }

    /**
     * reply: removes the id from the invitee's list, sends the inviter's user
     * InvitationReply(accepted), then removes the id from the inviter's list.
     * Nothing guards against a second reply: it sends the event again.
     */
    method Reply(server: Server, accepted: bool)
      requires server.Closed() && this in server.invitations
      modifies user.pendingInvitations`entries, inviter.pendingInvitations`entries, server.dir`log
      ensures server.Closed()
      ensures user.pendingInvitations.entries == old(user.pendingInvitations.entries) - {invitationId}
      ensures inviter.pendingInvitations.entries == old(inviter.pendingInvitations.entries) - {invitationId}
      ensures server.dir.log == old(server.dir.log)
        + [Notice(inviter.session.user, InvitationReplyEvent(user.username, invitationId, accepted, extra))]
    {
      assert server.InvitationsClosed() && server.UsersClosed() && server.ParticipantsClosed();
      assert user.pendingInvitations in server.lists && inviter.pendingInvitations in server.lists;
      ghost var userEntries := user.pendingInvitations.entries;
      ghost var inviterEntries := inviter.pendingInvitations.entries;
      user.pendingInvitations.Remove(server, invitationId);
      inviter.session.user.UserEvent(server, InvitationReplyEvent(user.username, invitationId, accepted, extra));
      inviter.pendingInvitations.Remove(server, invitationId);
      if user.pendingInvitations == inviter.pendingInvitations {
        assert user.pendingInvitations.entries == userEntries - {invitationId};
      } else {
        assert user.pendingInvitations.entries == userEntries - {invitationId};
        assert inviter.pendingInvitations.entries == inviterEntries - {invitationId};
      }
    }

    /** accept: reply(true). */
    method Accept(server: Server)
      requires server.Closed() && this in server.invitations
      modifies user.pendingInvitations`entries, inviter.pendingInvitations`entries, server.dir`log
      ensures server.Closed()
      ensures user.pendingInvitations.entries == old(user.pendingInvitations.entries) - {invitationId}
      ensures inviter.pendingInvitations.entries == old(inviter.pendingInvitations.entries) - {invitationId}
      ensures server.dir.log == old(server.dir.log)
        + [Notice(inviter.session.user, InvitationReplyEvent(user.username, invitationId, true, extra))]
    {
      Reply(server, true);
    }

    /** reject: reply(false). */
    method Reject(server: Server)
      requires server.Closed() && this in server.invitations
      modifies user.pendingInvitations`entries, inviter.pendingInvitations`entries, server.dir`log
      ensures server.Closed()
      ensures user.pendingInvitations.entries == old(user.pendingInvitations.entries) - {invitationId}
      ensures inviter.pendingInvitations.entries == old(inviter.pendingInvitations.entries) - {invitationId}
      ensures server.dir.log == old(server.dir.log)
        + [Notice(inviter.session.user, InvitationReplyEvent(user.username, invitationId, false, extra))]
    {
      Reply(server, false);
    }

    /**
     * cancel: removes the id from the invitee's list, sends the invitee
     * CancelInvitation, then removes the id from the inviter's list.
     */
    method Cancel(server: Server)
      requires server.Closed() && this in server.invitations
      modifies user.pendingInvitations`entries, inviter.pendingInvitations`entries, server.dir`log
      ensures server.Closed()
      ensures user.pendingInvitations.entries == old(user.pendingInvitations.entries) - {invitationId}
      ensures inviter.pendingInvitations.entries == old(inviter.pendingInvitations.entries) - {invitationId}
      ensures server.dir.log == old(server.dir.log)
        + [Notice(user, CancelInvitationEvent(inviter.session.user.username, invitationId))]
    {
      assert server.InvitationsClosed() && server.UsersClosed() && server.ParticipantsClosed();
      assert user.pendingInvitations in server.lists && inviter.pendingInvitations in server.lists;
      ghost var userEntries := user.pendingInvitations.entries;
      ghost var inviterEntries := inviter.pendingInvitations.entries;
      user.pendingInvitations.Remove(server, invitationId);
      ghost var log := server.dir.log;
      user.UserEvent(server, CancelInvitationEvent(inviter.session.user.username, invitationId));
      assert server.dir.log == log + [Notice(user, CancelInvitationEvent(inviter.session.user.username, invitationId))];
      inviter.pendingInvitations.Remove(server, invitationId);
      if user.pendingInvitations == inviter.pendingInvitations {
        assert user.pendingInvitations.entries == userEntries - {invitationId};
      } else {
        assert user.pendingInvitations.entries == userEntries - {invitationId};
        assert inviter.pendingInvitations.entries == inviterEntries - {invitationId};
      }
    }
  }

  // ---------------------------------------------------------------------
  // What a user can do: the capabilities of its sessions and devices.
  // ---------------------------------------------------------------------

  /** The client-type capabilities of every session, the sessions taken in order. */
  function SessionCapabilities(sessions: seq<Session>): (r: seq<Capability>)
    ensures forall c :: c in r <==> exists i :: 0 <= i < |sessions| && c in sessions[i].clientType.capabilities
  {
    if sessions == [] then []
    else
      var init := sessions[..|sessions| - 1];
      var r := SessionCapabilities(init) + sessions[|sessions| - 1].clientType.capabilities;
      assert forall i :: 0 <= i < |init| ==> init[i] == sessions[i];
      r
  }

  /** videostream#sender, looked up by name in the built-in definitions. */
  function CameraCapability(): (c: Capability)
    ensures c == Capability(VideoStreamDefinition(), Role(RoleSender, false))
  {
    BuiltInRoles();
    BuiltInCapabilities();
    BuiltInCapability(VideoStreamName, RoleSender)
  }

  /** A reported device whose "name" entry is "ipcamera". */
  predicate IsIpCamera(device: map<string, string>) {
    "name" in device && device["name"] == "ipcamera"
  }

  /** One videostream#sender capability for each IP camera among the devices. */
  function CameraCapabilities(devices: seq<map<string, string>>): (r: seq<Capability>)
    ensures |r| <= |devices|
    ensures forall k :: 0 <= k < |r| ==> r[k] == CameraCapability()
    ensures r == [] <==> forall i :: 0 <= i < |devices| ==> !IsIpCamera(devices[i])
  {
    if devices == [] then []
    else
      var init := devices[..|devices| - 1];
      var rest := CameraCapabilities(init);
      assert forall i :: 0 <= i < |init| ==> init[i] == devices[i];
      if IsIpCamera(devices[|devices| - 1]) then rest + [CameraCapability()] else rest
  }

  /** The device list reported under the Devices property; none when there is none. */
  function ReportedDevices(properties: map<string, PropertyValue>): seq<map<string, string>> {
    var key := SystemPropertyName(Devices);
    if key in properties && properties[key].DeviceList? then properties[key].devices else []
  }

  /** ActivityStartException.Reason: why startActivity refused. */
  datatype StartFailure = InvalidSession | NoSuchActivity | NoSuchRole | PassiveRole

  /** The activity id and participant id handed back by startActivity and invitationReply. */
  datatype ActivityStartInfo = ActivityStartInfo(activityId: string, participantId: string)

  /** startActivity either returns the start info or throws an ActivityStartException. */
  datatype StartOutcome = Started(info: ActivityStartInfo) | Refused(reason: StartFailure)

  // ---------------------------------------------------------------------
  // Users (only what the lower layers need; the rest follows below).
  // ---------------------------------------------------------------------

  class User {
    const username: string
    const userType: UserType
    const pendingInvitations: InvitationList
    var status: Status
    /** All active sessions, in the order they began. */
    var sessions: seq<Session>
    /** The friends, loaded at the first session; null before. */
    var friends: Option<seq<User>>
    var followers: seq<User>
    var properties: map<string, PropertyValue>

    /** A new user is offline, with no sessions, no friends loaded, no followers and no properties. */
    constructor(username: string, userType: UserType)
      ensures this.username == username && this.userType == userType
      ensures status == Offline && sessions == [] && friends == None && followers == [] && properties == map[]
      ensures fresh(pendingInvitations) && pendingInvitations.entries == map[]
    {
      this.username := username;
      this.userType := userType;
      status := Offline;
      sessions := [];
      friends := None;
      followers := [];
      properties := map[];
      pendingInvitations := new InvitationList();
    }

    /** The sessions are this user's, with pairwise different ids. */
    ghost predicate OwnsSessions()
      reads this
    {
      (forall k :: 0 <= k < |sessions| ==> sessions[k].user == this) && DistinctIds(sessions)
    }

    /** userEvent: publishes the event on this user's event topic. */
    method UserEvent(server: Server, e: UserEvent)
      requires server.Closed()
      modifies server.dir`log
      ensures server.Closed()
      ensures server.dir.log == old(server.dir.log) + [Notice(this, e)]
    {
      server.Publish(UserHomePath(username), EventUri(username, UserEventTopic), Event(e));
    }

    /**
     * The event sent on this user's topic and then to each follower, in
     * order: what userEvent and the followers' listener callbacks publish.
     */
    method Broadcast(server: Server, e: UserEvent)
      requires server.Closed()
      modifies server.dir`log
      ensures server.Closed()
      ensures server.dir.log == old(server.dir.log) + [Notice(this, e)] + NoticesToUsers(followers, e)
    {
      UserEvent(server, e);
      NotifyUsers(server, followers, e);
    }

    /** setStatus: a new status is stored and sent to each follower; the same status changes nothing. */
    method SetStatus(server: Server, s: Status)
      requires server.Closed()
      modifies this`status, server.dir`log
      ensures server.Closed() && status == s
      ensures old(status) == s ==> server.dir.log == old(server.dir.log)
      ensures old(status) != s ==> server.dir.log == old(server.dir.log) + NoticesToUsers(followers, StatusUpdateEvent(username, s))
    {
      if status == s {
        return;
      }
      status := s;
      NotifyUsers(server, followers, StatusUpdateEvent(username, s));
    }

    /** getPassiveCapabilities as a value. */
    function PassiveCapabilities(): seq<CapabilityInfo>
      reads this
    {
      PassiveCapabilityInfos(Capabilities())
    }

    /** The passive capabilities, to this user's clients and then to each follower. */
    function CapabilityNotices(): seq<Publication>
      reads this
    {
      var e := CapabilityUpdateEvent(username, PassiveCapabilities());
      [Notice(this, e)] + NoticesToUsers(followers, e)
    }

    /** The status change an offline user announces to its followers when it comes online. */
    function OnlineNotices(): seq<Publication>
      reads this
    {
      if status == Offline then NoticesToUsers(followers, StatusUpdateEvent(username, Online)) else []
    }

    /** notifyCapabilityUpdate: the passive capabilities, to this user's clients and then to each follower. */
    method NotifyCapabilityUpdate(server: Server)
      requires server.Closed()
      modifies server.dir`log
      ensures server.Closed()
      ensures server.dir.log == old(server.dir.log) + CapabilityNotices()
    {
      var capabilities := GetCapabilities();
      Broadcast(server, CapabilityUpdateEvent(username, PassiveCapabilityInfos(capabilities)));
    }

    /**
     * updateProperties: the new properties are merged in, replacing values
     * under the same names; the merged map is then broadcast.
     */
    method UpdateProperties(server: Server, newProperties: map<string, PropertyValue>)
      requires server.Closed()
      modifies this`properties, server.dir`log
      ensures server.Closed()
      ensures forall k :: k in properties <==> k in old(properties) || k in newProperties
      ensures forall k :: k in newProperties ==> properties[k] == newProperties[k]
      ensures forall k :: k in old(properties) && k !in newProperties ==> properties[k] == old(properties)[k]
      ensures server.dir.log == old(server.dir.log) + [Notice(this, PropertyUpdateEvent(username, properties))]
                                + NoticesToUsers(followers, PropertyUpdateEvent(username, properties))
    {
      properties := properties + newProperties;
      Broadcast(server, PropertyUpdateEvent(username, properties));
    }

    /** clearProperties: no properties are left, and the empty map is broadcast. */
    method ClearProperties(server: Server)
      requires server.Closed()
      modifies this`properties, server.dir`log
      ensures server.Closed() && properties == map[]
      ensures server.dir.log == old(server.dir.log) + [Notice(this, PropertyUpdateEvent(username, map[]))]
                                + NoticesToUsers(followers, PropertyUpdateEvent(username, map[]))
    {
      properties := map[];
      Broadcast(server, PropertyUpdateEvent(username, properties));
    }

    /** follow: the follower goes at the end of the followers. */
    method Follow(server: Server, follower: User)
      requires server.Closed() && follower in server.users
      modifies this`followers
      ensures server.Closed() && followers == old(followers) + [follower]
    {
      followers := followers + [follower];
    }

    /**
     * unfollow: the follower's first entry is removed; an offline user left
     * without followers is then handed to unloadUser.
     */
    method Unfollow(server: Server, follower: User)
      requires server.Closed()
      modifies this`followers
      ensures server.Closed() && followers == RemoveFirst(old(followers), follower)
    {
      RemoveFollower(server, follower);
      if status == Offline && |followers| == 0 {
        server.userManager.UnloadUser(this);
      }
    }

    method RemoveFollower(server: Server, follower: User)
      requires server.Closed()
      modifies this`followers
      ensures server.Closed() && followers == RemoveFirst(old(followers), follower)
    {
      followers := RemoveFirst(followers, follower);
      assert forall k :: 0 <= k < |followers| ==> followers[k] in old(followers);
      assert server.UsersClosed();
    }

    /** onSessionPong: the session with that id, if any, gets its pong count back to kMaxMissedPings. */
    method OnSessionPong(sessionId: string)
      modifies sessions`pongCount
      ensures SessionWithId(sessions, sessionId).Some? ==> sessions[SessionWithId(sessions, sessionId).value].pongCount == MaxMissedPings
      ensures forall t :: t in sessions && t.sessionId != sessionId ==> t.pongCount == old(t.pongCount)
    {
      var i := SessionWithId(sessions, sessionId);
      if i.Some? {
        sessions[i.value].SetPongCount(MaxMissedPings);
      }
    }

    /** findFriend: the first friend with that username; none when the friends were never loaded. */
    method FindFriend(friendName: string) returns (friend: Option<User>)
      ensures friend.None? <==> forall k :: 0 <= k < |Friends()| ==> Friends()[k].username != friendName
      ensures friend.Some? ==> exists k :: 0 <= k < |Friends()| && Friends()[k] == friend.value && friend.value.username == friendName
                                          && forall j :: 0 <= j < k ==> Friends()[j].username != friendName
    {
      var fs := Friends();
      var i := 0;
      while i < |fs|
        invariant 0 <= i <= |fs|
        invariant forall j :: 0 <= j < i ==> fs[j].username != friendName
      {
        if fs[i].username == friendName {
          return Some(fs[i]);
        }
        i := i + 1;
      }
      return None;
    }

    /**
     * followFriends: the friends are loaded at the first login, from the
     * database's friend names in sorted order, keeping those getUser finds;
     * then this user follows each friend.
     */
    method FollowFriends(server: Server, db: UserDatabase)
      requires server.Closed() && this in server.users
      modifies this`friends, server.userManager`users, server`users, server`lists, server.users`followers
      ensures server.Closed()
      ensures old(friends).Some? ==> friends == old(friends)
      ensures old(friends).None? ==>
                friends.Some? && Usernames(friends.value) == LoadableNames(db, old(server.userManager.users).Keys, Sort(ListFriends(db, username)))
      ensures server.users >= old(server.users)
      ensures forall f :: f in old(server.users) ==> f.followers == old(f.followers) + Copies(this, Count(Friends(), f))
      ensures forall f :: f in server.users && f !in old(server.users) ==> f.followers == Copies(this, Count(Friends(), f))
    {
      if friends.None? {
        LoadFriends(server, db);
      }
      FollowEach(server, Friends());
    }

    /** The friend list of a first login: each sorted friend name getUser finds, in order. */
    method LoadFriends(server: Server, db: UserDatabase)
      requires server.Closed() && this in server.users && friends.None?
      modifies this`friends, server.userManager`users, server`users, server`lists
      ensures server.Closed() && this in server.users && server.users >= old(server.users) && friends.Some?
      ensures Usernames(friends.value) == LoadableNames(db, old(server.userManager.users).Keys, Sort(ListFriends(db, username)))
      ensures forall f :: f in server.users && f !in old(server.users) ==> fresh(f) && f.followers == []
    {
      var fs := LoadNamed(server, db, Sort(ListFriends(db, username)));
      friends := Some(fs);
      assert server.UsersClosed();
    }

    /** friend.follow(this) for each of the users, in order. */
    method FollowEach(server: Server, fs: seq<User>)
      requires server.Closed() && this in server.users && forall k :: 0 <= k < |fs| ==> fs[k] in server.users
      modifies server.users`followers
      ensures server.Closed()
      ensures forall f :: f in server.users ==> f.followers == old(f.followers) + Copies(this, Count(fs, f))
    {
      var k := 0;
      while k < |fs|
        invariant 0 <= k <= |fs| && server.Closed()
        invariant forall f :: f in server.users ==> f.followers == old(f.followers) + Copies(this, Count(fs[..k], f))
      {
        fs[k].Follow(server, this);
        CopiesStep(fs, k, this);
        k := k + 1;
      }
      assert fs[..k] == fs;
    }

    /**
     * unfollowFriends: this user stops following each friend, in order;
     * each friend loses one entry of this user per time it is listed.
     */
    method UnfollowFriends(server: Server)
      requires server.Closed() && this in server.users
      modifies server.users`followers
      ensures server.Closed()
      ensures forall f :: f in server.users ==> f.followers == RemoveTimes(old(f.followers), this, Count(Friends(), f))
    {
      var fs := Friends();
      assert forall j :: 0 <= j < |fs| ==> fs[j] in server.users by { assert server.UsersClosed(); }
      UnfollowEach(server, fs);
    }

    /** friend.unfollow(this) for each of the users, in order. */
    method UnfollowEach(server: Server, fs: seq<User>)
      requires server.Closed() && forall j :: 0 <= j < |fs| ==> fs[j] in server.users
      modifies server.users`followers
      ensures server.Closed()
      ensures forall f :: f in server.users ==> f.followers == RemoveTimes(old(f.followers), this, Count(fs, f))
    {
      ghost var before := map f | f in server.users :: f.followers;
      assert fs[..0] == [];
      var k := 0;
      while k < |fs|
        invariant 0 <= k <= |fs| && server.Closed()
        invariant UnfollowedUpTo(server, fs, k, before)
      {
        UnfollowStep(server, fs, k, fs[k], before);
        k := k + 1;
      }
      assert fs[..k] == fs;
    }

    /** Each live user has lost one entry of this user per entry of it among the first k of fs. */
    ghost predicate UnfollowedUpTo(server: Server, fs: seq<User>, k: nat, before: map<User, seq<User>>)
      requires k <= |fs|
      reads this, server, server.users
    {
      forall f :: f in server.users ==> f in before && f.followers == RemoveTimes(before[f], this, Count(fs[..k], f))
    }

    /** The k-th user unfollowed, counted once more. */
    method UnfollowStep(server: Server, fs: seq<User>, k: nat, friend: User, ghost before: map<User, seq<User>>)
      requires server.Closed() && k < |fs| && friend == fs[k] && friend in server.users
      requires UnfollowedUpTo(server, fs, k, before)
      modifies friend`followers
      ensures server.Closed() && UnfollowedUpTo(server, fs, k + 1, before)
    {
      ghost var count := Count(fs[..k], friend);
      friend.Unfollow(server, this);
      CountStep(fs, k);
      assert friend.followers == RemoveTimes(before[friend], this, count + 1);
      forall f | f in server.users
        ensures f in before && f.followers == RemoveTimes(before[f], this, Count(fs[..k + 1], f))
      {
        if f != friend {
          assert f.followers == old(f.followers);
        }
      }
    }

    /**
     * beginSession: a session id in use already changes nothing; otherwise a
     * new session with a full pong count is added, an offline user comes
     * online and follows its friends, and the capabilities are announced.
     */
    method BeginSession(server: Server, db: UserDatabase, sessionId: string, clientType: ClientType)
      requires server.Closed() && this in server.users && OwnsSessions()
      modifies this`sessions, this`status, this`friends, server`sessions, server`users, server`lists
      modifies server.dir`log, server.userManager`users, server.users`followers
      ensures server.Closed() && OwnsSessions() && this in server.users
      ensures SessionWithId(old(sessions), sessionId).Some? ==>
                sessions == old(sessions) && status == old(status) && server.dir.log == old(server.dir.log)
      ensures SessionWithId(old(sessions), sessionId).None? ==>
                |sessions| == |old(sessions)| + 1 && sessions[..|old(sessions)|] == old(sessions)
                && NewSession(sessions[|old(sessions)|], this, sessionId, clientType) && status == Online
                && (old(status) == Offline ==> friends.Some?)
                && server.dir.log == old(server.dir.log) + old(OnlineNotices()) + CapabilityNotices()
      ensures SessionWithId(old(sessions), sessionId).Some? || old(status) == Online ==>
                friends == old(friends) && forall f :: f in old(server.users) ==> f.followers == old(f.followers)
      ensures SessionWithId(old(sessions), sessionId).None? && old(status) == Offline && old(friends).None? ==>
                Usernames(friends.value) == LoadableNames(db, old(server.userManager.users).Keys, Sort(ListFriends(db, username)))
      ensures SessionWithId(old(sessions), sessionId).None? && old(status) == Offline ==>
                forall f :: f in old(server.users) ==> f.followers == old(f.followers) + Copies(this, Count(Friends(), f))
    {
      if SessionWithId(sessions, sessionId).Some? {
        return;
      }
      StartSession(server, db, sessionId, clientType);
    }

    /** beginSession for an id not in use. */
    method StartSession(server: Server, db: UserDatabase, sessionId: string, clientType: ClientType)
      requires server.Closed() && this in server.users && OwnsSessions() && SessionWithId(sessions, sessionId).None?
      modifies this`sessions, this`status, this`friends, server`sessions, server`users, server`lists
      modifies server.dir`log, server.userManager`users, server.users`followers
      ensures server.Closed() && OwnsSessions() && this in server.users
      ensures |sessions| == |old(sessions)| + 1 && sessions[..|old(sessions)|] == old(sessions)
      ensures NewSession(sessions[|old(sessions)|], this, sessionId, clientType) && status == Online
      ensures old(status) == Offline ==> friends.Some?
      ensures server.dir.log == old(server.dir.log) + old(OnlineNotices()) + CapabilityNotices()
      ensures old(status) == Online ==> friends == old(friends) && forall f :: f in old(server.users) ==> f.followers == old(f.followers)
      ensures old(status) == Offline && old(friends).None? ==>
                Usernames(friends.value) == LoadableNames(db, old(server.userManager.users).Keys, Sort(ListFriends(db, username)))
      ensures old(status) == Offline ==>
                forall f :: f in old(server.users) ==> f.followers == old(f.followers) + Copies(this, Count(Friends(), f))
    {
      var session := OpenSession(server, sessionId, clientType);
      GoOnline(server, db);
      NotifyCapabilityUpdate(server);
    }

    /** The new session is appended to the sessions, with the pong count at kMaxMissedPings. */
    method OpenSession(server: Server, sessionId: string, clientType: ClientType) returns (session: Session)
      requires server.Closed() && this in server.users && OwnsSessions() && SessionWithId(sessions, sessionId).None?
      modifies this`sessions, server`sessions
      ensures server.Closed() && OwnsSessions() && fresh(session)
      ensures sessions == old(sessions) + [session] && NewSession(session, this, sessionId, clientType)
    {
      session := new Session(this, sessionId, clientType);
      session.SetPongCount(MaxMissedPings);
      server.AddSession(session);
      sessions := sessions + [session];
      assert server.UsersClosed();
    }

    /** An offline user comes online and follows its friends; an online one stays as it is. */
    method GoOnline(server: Server, db: UserDatabase)
      requires server.Closed() && this in server.users
      modifies this`status, this`friends, server`users, server`lists, server.dir`log, server.userManager`users, server.users`followers
      ensures server.Closed() && this in server.users && status == Online
      ensures server.dir.log == old(server.dir.log) + old(OnlineNotices())
      ensures old(status) == Offline ==> friends.Some?
      ensures old(status) == Online ==> friends == old(friends) && forall f :: f in old(server.users) ==> f.followers == old(f.followers)
      ensures old(status) == Offline && old(friends).None? ==>
                Usernames(friends.value) == LoadableNames(db, old(server.userManager.users).Keys, Sort(ListFriends(db, username)))
      ensures old(status) == Offline ==>
                forall f :: f in old(server.users) ==> f.followers == old(f.followers) + Copies(this, Count(Friends(), f))
    {
      if status == Offline {
        SetStatus(server, Online);
        FollowFriends(server, db);
      }
    }

    /**
     * endSession: an unknown id changes nothing; otherwise the session exits
     * all its activities and goes, the capabilities are announced, and the
     * last session going takes the user offline.
     */
    method EndSession(server: Server, sessionId: string)
      requires server.Closed() && this in server.users && OwnsSessions()
      modifies this`sessions, this`status, server.lists`entries, server.activities`participants, server.activities`channel
      modifies server.sessions`activities, server.dir`log, server.dir`links, server.dir`paths, server.channels`receiver
      modifies server.channelManager`channels, server.users`followers
      ensures server.Closed() && OwnsSessions()
      ensures SessionWithId(old(sessions), sessionId).None? ==>
                sessions == old(sessions) && status == old(status) && server.dir.log == old(server.dir.log)
      ensures SessionWithId(old(sessions), sessionId).Some? ==>
                var i := SessionWithId(old(sessions), sessionId).value;
                sessions == old(sessions)[..i] + old(sessions)[i + 1..]
                && (sessions == [] ==> status == Offline && pendingInvitations.entries == map[])
                && (sessions != [] ==> status == old(status))
    {
      var i := SessionWithId(sessions, sessionId);
      if i.None? {
        return;
      }
      CloseSession(server, i.value);
    }

    /** endSession for the session at index i. */
    method CloseSession(server: Server, i: nat)
      requires server.Closed() && this in server.users && OwnsSessions() && i < |sessions|
      modifies this`sessions, this`status, server.lists`entries, server.activities`participants, server.activities`channel
      modifies server.sessions`activities, server.dir`log, server.dir`links, server.dir`paths, server.channels`receiver
      modifies server.channelManager`channels, server.users`followers
      ensures server.Closed() && OwnsSessions() && sessions == old(sessions)[..i] + old(sessions)[i + 1..]
      ensures sessions == [] ==> status == Offline && pendingInvitations.entries == map[]
      ensures sessions != [] ==> status == old(status)
    {
      var session := sessions[i];
      assert session in server.sessions by { assert server.UsersClosed(); }
      var _ := session.ExitAllActivities(server);
      DropSession(server, i);
      NotifyCapabilityUpdate(server);
      GoOfflineIfLast(server);
    }

    /** sessions.remove(session) for the session at index i. */
    method DropSession(server: Server, i: nat)
      requires server.Closed() && OwnsSessions() && i < |sessions|
      modifies this`sessions
      ensures server.Closed() && OwnsSessions() && sessions == old(sessions)[..i] + old(sessions)[i + 1..]
    {
      ghost var before := sessions;
      sessions := sessions[..i] + sessions[i + 1..];
      assert forall k :: 0 <= k < |sessions| ==> sessions[k] == before[if k < i then k else k + 1];
      assert server.UsersClosed();
    }

    /** With no session left: offline, every pending invitation rejected, and the friends unfollowed. */
    method GoOfflineIfLast(server: Server)
      requires server.Closed() && this in server.users
      modifies this`status, server.lists`entries, server.dir`log, server.users`followers
      ensures server.Closed()
      ensures sessions != [] ==> status == old(status) && server.dir.log == old(server.dir.log)
      ensures sessions == [] ==> status == Offline && pendingInvitations.entries == map[]
    {
      if sessions != [] {
        return;
      }
      var _ := GoOffline(server);
    }

    /**
     * The last session gone: the status turns offline, every pending
     * invitation is rejected, and the friends are unfollowed; an offline user
     * left without followers is then handed to unloadUser.
     */
    method GoOffline(server: Server) returns (ghost rejected: seq<Invitation>)
      requires server.Closed() && this in server.users
      modifies this`status, server.lists`entries, server.dir`log, server.users`followers
      ensures server.Closed() && status == Offline
      ensures pendingInvitations.entries == map[] && IdsOf(rejected) == old(pendingInvitations.entries).Keys
      ensures forall f :: f in server.users ==> f.followers == RemoveTimes(old(f.followers), this, Count(Friends(), f))
    {
      assert pendingInvitations in server.lists by { assert server.UsersClosed(); }
      SetStatus(server, Offline);
      rejected := pendingInvitations.RejectAll(server);
      UnfollowFriends(server);
      if |followers| == 0 {
        server.userManager.UnloadUser(this);
      }
    }

    /** systemLogout: the user is told, then each session it had ends, in order. */
    method SystemLogout(server: Server)
      requires server.Closed() && this in server.users && OwnsSessions()
      modifies this`sessions, this`status, server.lists`entries, server.activities`participants, server.activities`channel
      modifies server.sessions`activities, server.dir`log, server.dir`links, server.dir`paths, server.channels`receiver
      modifies server.channelManager`channels, server.users`followers
      ensures server.Closed() && OwnsSessions() && sessions == []
      ensures old(sessions) != [] ==> status == Offline && pendingInvitations.entries == map[]
      ensures old(sessions) == [] ==> status == old(status) && server.dir.log == old(server.dir.log) + [Notice(this, SystemLogoutEvent(username))]
    {
      UserEvent(server, SystemLogoutEvent(username));
      EndAll(server, SessionIds(sessions));
    }

    /** endSession for each of the ids, which are those of the sessions, in order. */
    method EndAll(server: Server, ids: seq<string>)
      requires server.Closed() && this in server.users && OwnsSessions() && ids == SessionIds(sessions)
      modifies this`sessions, this`status, server.lists`entries, server.activities`participants, server.activities`channel
      modifies server.sessions`activities, server.dir`log, server.dir`links, server.dir`paths, server.channels`receiver
      modifies server.channelManager`channels, server.users`followers
      ensures server.Closed() && OwnsSessions() && sessions == []
      ensures old(sessions) != [] ==> status == Offline && pendingInvitations.entries == map[]
      ensures old(sessions) == [] ==> status == old(status) && server.dir.log == old(server.dir.log)
    {
      ghost var all := sessions;
      var k := 0;
      while k < |ids|
        invariant 0 <= k <= |ids| && server.Closed() && OwnsSessions() && sessions == all[k..]
        invariant k > 0 && sessions == [] ==> status == Offline && pendingInvitations.entries == map[]
        invariant k == 0 ==> status == old(status) && server.dir.log == old(server.dir.log)
      {
        assert SessionWithId(sessions, ids[k]) == Some(0);
        EndSession(server, ids[k]);
        assert all[k..][1..] == all[k + 1..];
        k := k + 1;
      }
    }

    /**
     * executeSessionPing: with no session nothing happens; otherwise sessions
     * whose pong count has run out end, the others count down by one, and a
     * ping goes out if any session is left.
     */
    method ExecuteSessionPing(server: Server)
      requires server.Closed() && this in server.users && OwnsSessions()
      modifies sessions`pongCount
      modifies this`sessions, this`status, server.lists`entries, server.activities`participants, server.activities`channel
      modifies server.sessions`activities, server.dir`log, server.dir`links, server.dir`paths, server.channels`receiver
      modifies server.channelManager`channels, server.users`followers
      ensures server.Closed() && OwnsSessions()
      ensures forall s :: s in sessions ==> s in old(sessions) && s.pongCount == old(s.pongCount) - 1
      ensures forall s :: s in old(sessions) ==> (s in sessions <==> old(s.pongCount) > 0)
      ensures old(sessions) == [] ==> server.dir.log == old(server.dir.log)
      ensures sessions != [] ==> |server.dir.log| > 0 && server.dir.log[|server.dir.log| - 1] == SessionPingNotice(username)
    {
      if sessions == [] {
        return;
      }
      var stale := PingRound();
      EndStale(server, stale);
      PingIfActive(server);
    }

    /** The round over the sessions: out-of-pong sessions are collected, the others count down. */
    method PingRound() returns (stale: seq<Session>)
      requires OwnsSessions()
      modifies sessions`pongCount
      ensures forall s :: s in stale <==> s in sessions && old(s.pongCount) <= 0
      ensures forall s :: s in sessions ==> s.pongCount == if old(s.pongCount) <= 0 then old(s.pongCount) else old(s.pongCount) - 1
    {
      stale := [];
      var i := 0;
      while i < |sessions|
        invariant 0 <= i <= |sessions|
        invariant forall s :: s in stale <==> s in sessions[..i] && old(s.pongCount) <= 0
        invariant forall k :: 0 <= k < i ==> sessions[k].pongCount == if old(sessions[k].pongCount) <= 0 then old(sessions[k].pongCount) else old(sessions[k].pongCount) - 1
        invariant forall k :: i <= k < |sessions| ==> sessions[k].pongCount == old(sessions[k].pongCount)
      {
        var session := sessions[i];
        assert forall k :: 0 <= k < |sessions| && k != i ==> sessions[k] != session;
        if session.GetPongCount() <= 0 {
          stale := stale + [session];
        } else {
          session.SetPongCount(session.GetPongCount() - 1);
        }
        assert sessions[..i + 1] == sessions[..i] + [session];
        i := i + 1;
      }
      assert sessions[..i] == sessions;
    }

    /** endSession for each stale session. */
    method EndStale(server: Server, stale: seq<Session>)
      requires server.Closed() && this in server.users && OwnsSessions()
      requires forall k :: 0 <= k < |stale| ==> stale[k] in sessions
      modifies this`sessions, this`status, server.lists`entries, server.activities`participants, server.activities`channel
      modifies server.sessions`activities, server.dir`log, server.dir`links, server.dir`paths, server.channels`receiver
      modifies server.channelManager`channels, server.users`followers
      ensures server.Closed() && OwnsSessions()
      ensures forall s :: s in sessions <==> s in old(sessions) && s !in stale
    {
      ghost var all := sessions;
      assert DistinctIds(all);
      var k := 0;
      while k < |stale|
        invariant 0 <= k <= |stale| && server.Closed() && OwnsSessions()
        invariant forall s :: s in sessions <==> s in all && s !in stale[..k]
      {
        forall j | 0 <= j < |sessions| && sessions[j].sessionId == stale[k].sessionId
          ensures sessions[j] == stale[k]
        {
          SameIdSameSession(all, sessions[j], stale[k]);
        }
        EndOne(server, stale[k]);
        assert stale[..k + 1] == stale[..k] + [stale[k]];
        k := k + 1;
      }
      assert stale[..k] == stale;
    }

    /** endSession for the session's id, where no other session has that id. */
    method EndOne(server: Server, session: Session)
      requires server.Closed() && this in server.users && OwnsSessions()
      requires forall k :: 0 <= k < |sessions| && sessions[k].sessionId == session.sessionId ==> sessions[k] == session
      modifies this`sessions, this`status, server.lists`entries, server.activities`participants, server.activities`channel
      modifies server.sessions`activities, server.dir`log, server.dir`links, server.dir`paths, server.channels`receiver
      modifies server.channelManager`channels, server.users`followers
      ensures server.Closed() && OwnsSessions()
      ensures forall s :: s in sessions <==> s in old(sessions) && s != session
    {
      EndSession(server, session.sessionId);
      forall s | s in old(sessions)
        ensures s in sessions <==> s != session
      {
        var i :| 0 <= i < |old(sessions)| && old(sessions)[i] == s;
      }
    }

    /** The ping goes out only while some session is left. */
    method PingIfActive(server: Server)
      requires server.Closed()
      modifies server.dir`log
      ensures server.Closed()
      ensures sessions == [] ==> server.dir.log == old(server.dir.log)
      ensures sessions != [] ==> server.dir.log == old(server.dir.log) + [SessionPingNotice(username)]
    {
      if sessions == [] {
        return;
      }
      server.Publish(UserHomePath(username), EventUri(username, SessionPingTopic), SessionPing(2 * SessionPingIntervalMillis));
    }

    /** webLogin: the password authenticates the user, and only then does the session begin. */
    method WebLogin(server: Server, db: UserDatabase, sessionId: string, password: string) returns (ok: bool)
      requires server.Closed() && this in server.users && OwnsSessions()
      modifies this`sessions, this`status, this`friends, server`sessions, server`users, server`lists
      modifies server.dir`log, server.userManager`users, server.users`followers
      ensures server.Closed() && OwnsSessions()
      ensures ok <==> AuthenticateUser(db, username, password)
      ensures !ok ==> sessions == old(sessions) && status == old(status) && server.dir.log == old(server.dir.log)
      ensures ok && SessionWithId(old(sessions), sessionId).Some? ==>
                sessions == old(sessions) && status == old(status) && server.dir.log == old(server.dir.log)
      ensures ok && SessionWithId(old(sessions), sessionId).None? ==>
                |sessions| == |old(sessions)| + 1 && sessions[..|old(sessions)|] == old(sessions)
                && NewSession(sessions[|old(sessions)|], this, sessionId, WebClientType()) && status == Online
                && (old(status) == Offline ==> friends.Some?)
                && server.dir.log == old(server.dir.log) + old(OnlineNotices()) + CapabilityNotices()
      ensures !ok || SessionWithId(old(sessions), sessionId).Some? || old(status) == Online ==>
                friends == old(friends) && forall f :: f in old(server.users) ==> f.followers == old(f.followers)
      ensures ok && SessionWithId(old(sessions), sessionId).None? && old(status) == Offline && old(friends).None? ==>
                Usernames(friends.value) == LoadableNames(db, old(server.userManager.users).Keys, Sort(ListFriends(db, username)))
      ensures ok && SessionWithId(old(sessions), sessionId).None? && old(status) == Offline ==>
                forall f :: f in old(server.users) ==> f.followers == old(f.followers) + Copies(this, Count(Friends(), f))
    {
      if !AuthenticateUser(db, username, password) {
        return false;
      }
      BeginSession(server, db, sessionId, WebClientType());
      ok := true;
    }

    /** webLogout: endSession. */
    method WebLogout(server: Server, sessionId: string)
      requires server.Closed() && this in server.users && OwnsSessions()
      modifies this`sessions, this`status, server.lists`entries, server.activities`participants, server.activities`channel
      modifies server.sessions`activities, server.dir`log, server.dir`links, server.dir`paths, server.channels`receiver
      modifies server.channelManager`channels, server.users`followers
      ensures server.Closed() && OwnsSessions()
      ensures SessionWithId(old(sessions), sessionId).None? ==>
                sessions == old(sessions) && status == old(status) && server.dir.log == old(server.dir.log)
      ensures SessionWithId(old(sessions), sessionId).Some? ==>
                var i := SessionWithId(old(sessions), sessionId).value;
                sessions == old(sessions)[..i] + old(sessions)[i + 1..]
                && (sessions == [] ==> status == Offline && pendingInvitations.entries == map[])
                && (sessions != [] ==> status == old(status))
    {
      EndSession(server, sessionId);
    }

    /**
     * robotLogin: the password authenticates the robot, and only then does
     * an interbot session begin and a system-info request get scheduled.
     */
    method RobotLogin(server: Server, db: UserDatabase, sessionId: string, password: string, nowMillis: int) returns (ok: bool)
      requires server.Closed() && this in server.users && OwnsSessions() && server.taskManager.Valid()
      modifies this`sessions, this`status, this`friends, server`sessions, server`users, server`lists
      modifies server.dir`log, server.userManager`users, server.users`followers, server.taskManager`queue
      ensures server.Closed() && OwnsSessions() && server.taskManager.Valid()
      ensures ok <==> AuthenticateUser(db, username, password)
      ensures !ok ==> sessions == old(sessions) && server.dir.log == old(server.dir.log) && server.taskManager.queue == old(server.taskManager.queue)
      ensures ok ==> multiset(server.taskManager.queue) == multiset(old(server.taskManager.queue)) + multiset{NewTask(nowMillis, SystemInfoDelayMillis, RequestSystemInfo(this))}
      ensures ok && SessionWithId(old(sessions), sessionId).None? ==> |sessions| > 0 && sessions[|sessions| - 1].clientType == InterbotClientType()
    {
      if !AuthenticateUser(db, username, password) {
        return false;
      }
      BeginRobotSession(server, db, sessionId, nowMillis);
      ok := true;
    }

    /** robotLogin once authenticated: an interbot session begins, then the system-info request is scheduled. */
    method BeginRobotSession(server: Server, db: UserDatabase, sessionId: string, nowMillis: int)
      requires server.Closed() && this in server.users && OwnsSessions() && server.taskManager.Valid()
      modifies this`sessions, this`status, this`friends, server`sessions, server`users, server`lists
      modifies server.dir`log, server.userManager`users, server.users`followers, server.taskManager`queue
      ensures server.Closed() && OwnsSessions() && server.taskManager.Valid()
      ensures multiset(server.taskManager.queue) == multiset(old(server.taskManager.queue)) + multiset{NewTask(nowMillis, SystemInfoDelayMillis, RequestSystemInfo(this))}
      ensures SessionWithId(old(sessions), sessionId).None? ==> |sessions| > 0 && sessions[|sessions| - 1].clientType == InterbotClientType()
    {
      BeginSession(server, db, sessionId, InterbotClientType());
      server.taskManager.Schedule(NewTask(nowMillis, SystemInfoDelayMillis, RequestSystemInfo(this)));
    }

    /** robotLogout: endSession, then every property cleared; `ended` is the publications once the session has ended. */
    method RobotLogout(server: Server, sessionId: string) returns (ghost ended: seq<Publication>)
      requires server.Closed() && this in server.users && OwnsSessions()
      modifies this`sessions, this`status, this`properties, server.lists`entries, server.activities`participants
      modifies server.activities`channel, server.sessions`activities, server.dir`log, server.dir`links, server.dir`paths
      modifies server.channels`receiver, server.channelManager`channels, server.users`followers
      ensures server.Closed() && OwnsSessions() && properties == map[]
      ensures SessionWithId(old(sessions), sessionId).None? ==> sessions == old(sessions) && status == old(status)
      ensures SessionWithId(old(sessions), sessionId).Some? ==>
                var i := SessionWithId(old(sessions), sessionId).value;
                sessions == old(sessions)[..i] + old(sessions)[i + 1..]
                && (sessions == [] ==> status == Offline && pendingInvitations.entries == map[])
                && (sessions != [] ==> status == old(status))
      ensures server.dir.log == ended + [Notice(this, PropertyUpdateEvent(username, map[]))]
                                + NoticesToUsers(followers, PropertyUpdateEvent(username, map[]))
      ensures SessionWithId(old(sessions), sessionId).None? ==> ended == old(server.dir.log)
    {
      EndSession(server, sessionId);
      ended := server.dir.log;
      ClearProperties(server);
    }

    /** onSystemInfoResponse: the reported properties merged in, then the capabilities announced. */
    method OnSystemInfoResponse(server: Server, response: map<string, PropertyValue>)
      requires server.Closed()
      modifies this`properties, server.dir`log
      ensures server.Closed() && properties.Keys == old(properties).Keys + response.Keys
      ensures forall k :: k in response ==> properties[k] == response[k]
      ensures forall k :: k in old(properties) && k !in response ==> properties[k] == old(properties)[k]
      ensures server.dir.log == old(server.dir.log) + [Notice(this, PropertyUpdateEvent(username, properties))]
                                + NoticesToUsers(followers, PropertyUpdateEvent(username, properties)) + CapabilityNotices()
    {
      UpdateProperties(server, response);
      NotifyCapabilityUpdate(server);
    }

    /** getSession then getActivityParticipant: the participation under that id in that session. */
    function SessionParticipant(sessionId: string, participantId: string): Option<Participant>
      reads this, sessions
    {
      var i := SessionWithId(sessions, sessionId);
      if i.None? then None else sessions[i.value].GetActivityParticipant(participantId)
    }

    /**
     * startActivity: refuses an unknown session, an unknown activity, an
     * unknown role and a passive role, in that order; otherwise a new
     * activity of the definition is created and the session joins it in
     * the role.
     */
    method StartActivity(server: Server, sessionId: string, activityName: string, roleName: string)
      returns (r: StartOutcome, ghost p: Option<Participant>)
      requires server.Closed() && this in server.users
      modifies server`activityCount, server`activities, server.sessions`activities, server.dir`log, server.dir`links
      modifies server`participants, server`lists
      ensures server.Closed()
      ensures SessionWithId(sessions, sessionId).None? ==> r == Refused(InvalidSession)
      ensures SessionWithId(sessions, sessionId).Some? && activityName !in server.activityManager.definitions ==>
        r == Refused(NoSuchActivity)
      ensures SessionWithId(sessions, sessionId).Some? && activityName in server.activityManager.definitions ==>
        var d := server.activityManager.definitions[activityName];
        (roleName !in d.roles ==> r == Refused(NoSuchRole))
        && (roleName in d.roles && !d.roles[roleName].active ==> r == Refused(PassiveRole))
        && (roleName in d.roles && d.roles[roleName].active ==>
              r.Started? && p.Some? && p.value.activity.definition == d && p.value.role == d.roles[roleName]
              && p.value.session == sessions[SessionWithId(sessions, sessionId).value])
      ensures r.Refused? <==> p.None?
      ensures r.Refused? ==> server.activities == old(server.activities) && server.dir.log == old(server.dir.log)
      ensures p.Some? ==>
        r == Started(ActivityStartInfo(p.value.activity.activityId, p.value.participantId))
        && fresh(p.value.activity) && server.activities == old(server.activities) + {p.value.activity}
        && p.value.activity.participants == map[p.value.participantId := p.value]
    {
      var i := SessionWithId(sessions, sessionId);
      if i.None? {
        return Refused(InvalidSession), None;
      }
      var d := server.activityManager.GetActivityDefinition(activityName);
      if d.None? {
        return Refused(NoSuchActivity), None;
      }
      var role := GetRole(d.value, roleName);
      if role.None? {
        return Refused(NoSuchRole), None;
      }
      if !role.value.active {
        return Refused(PassiveRole), None;
      }
      assert sessions[i.value] in server.sessions by { assert server.UsersClosed(); }
      var info, q := Launch(server, sessions[i.value], d.value, role.value);
      r, p := Started(info), Some(q);
    }

    /** createActivity then join: the new activity holds exactly the joining participant. */
    method Launch(server: Server, session: Session, d: ActivityDefinition, role: Role)
      returns (info: ActivityStartInfo, ghost p: Participant)
      requires server.Closed() && session in server.sessions
      modifies server`activityCount, server`activities, server.sessions`activities, server.dir`log, server.dir`links
      modifies server`participants, server`lists
      ensures server.Closed()
      ensures p.activity.definition == d && p.role == role && p.session == session
      ensures info == ActivityStartInfo(p.activity.activityId, p.participantId)
      ensures fresh(p.activity) && server.activities == old(server.activities) + {p.activity}
      ensures p.activity.participants == map[p.participantId := p]
    {
      var a, _ := server.CreateActivity(d);
      var q, _, _ := a.Join(server, session, role);
      info, p := ActivityStartInfo(a.activityId, q.participantId), q;
    }

    /**
     * exitActivity: an unknown session or participant id is ignored;
     * otherwise that participant exits its activity.
     */
    method ExitActivity(server: Server, sessionId: string, participantId: string) returns (ghost exited: Option<Participant>)
      requires server.Closed() && this in server.users
      modifies server.lists`entries, server.activities`participants, server.activities`channel, server.sessions`activities
      modifies server.dir`log, server.dir`links, server.dir`paths, server.channels`receiver, server.channelManager`channels
      ensures server.Closed()
      ensures exited == old(SessionParticipant(sessionId, participantId))
      ensures exited.None? ==> server.dir.log == old(server.dir.log) && server.dir.links == old(server.dir.links)
      ensures exited.Some? ==>
        exited.value.participantId !in exited.value.activity.participants
        && Submap(exited.value.activity.participants, old(exited.value.activity.participants))
        && exited.value.pendingInvitations.entries == map[]
    {
      var q := SessionParticipant(sessionId, participantId);
      exited := q;
      if q.None? {
        return;
      }
      var i := SessionWithId(sessions, sessionId);
      assert sessions[i.value] in server.sessions by { assert server.UsersClosed(); }
      assert q.value in server.participants by { assert server.SessionsClosed(); }
      var _, _ := q.value.ExitActivity(server);
    }

    /**
     * invite: rejects with "invalid session", "not a participant",
     * "invalid role" and "cannot invite user" (the username is no friend),
     * in that order; otherwise the participant's activity invites the
     * friend into the role.
     */
    method Invite(server: Server, sessionId: string, participantId: string, username: string, roleName: string)
      returns (result: InvitationResult)
      requires server.Closed() && this in server.users
      modifies server.activities`participantIdCount, server.activities`participants, server.activities`call
      modifies server.activities`channel, server.sessions`activities, server.dir`log, server.dir`links, server.dir`paths
      modifies server`participants, server`lists, server`invitations, server`channels, server.channelManager`channels
      modifies server.lists`entries
      ensures server.Closed()
      ensures SessionWithId(sessions, sessionId).None? ==>
        result == RejectResult("invalid session") && server.dir.log == old(server.dir.log)
      ensures SessionWithId(sessions, sessionId).Some? && old(SessionParticipant(sessionId, participantId)).None? ==>
        result == RejectResult("not a participant") && server.dir.log == old(server.dir.log)
      ensures old(SessionParticipant(sessionId, participantId)).Some? ==>
        var q := old(SessionParticipant(sessionId, participantId)).value;
        (roleName !in q.activity.definition.roles ==>
           result == RejectResult("invalid role") && server.dir.log == old(server.dir.log))
        && (roleName in q.activity.definition.roles && (forall k :: 0 <= k < |Friends()| ==> Friends()[k].username != username) ==>
              result == RejectResult("cannot invite user") && server.dir.log == old(server.dir.log))
        && (result.response == Reject ==> q.activity.participants == old(q.activity.participants))
    {
      var q := SessionParticipant(sessionId, participantId);
      if q.None? {
        var i := SessionWithId(sessions, sessionId);
        return if i.None? then RejectResult("invalid session") else RejectResult("not a participant");
      }
      var role := GetRole(q.value.activity.definition, roleName);
      if role.None? {
        return RejectResult("invalid role");
      }
      var friend := FindFriend(username);
      if friend.None? {
        return RejectResult("cannot invite user");
      }
      assert friend.value in Friends();
      result := InviteFriend(server, sessionId, participantId, q.value, friend.value, role.value);
      assert friend.value in Friends();
    }

    /** activity.invite for a participant of one of this user's sessions and one of its friends. */
    method InviteFriend(server: Server, sessionId: string, participantId: string, q: Participant, friend: User, role: Role)
      returns (result: InvitationResult)
      requires server.Closed() && this in server.users
      requires SessionParticipant(sessionId, participantId) == Some(q) && friend in Friends()
      modifies server.activities`participantIdCount, server.activities`participants, server.activities`call
      modifies server.activities`channel, server.sessions`activities, server.dir`log, server.dir`links, server.dir`paths
      modifies server`participants, server`lists, server`invitations, server`channels, server.channelManager`channels
      modifies server.lists`entries
      ensures server.Closed()
      ensures result.response == Reject ==> q.activity.participants == old(q.activity.participants)
    {
      var i := SessionWithId(sessions, sessionId);
      assert sessions[i.value] in server.sessions && friend in server.users by { assert server.UsersClosed(); }
      assert q in server.participants by { assert server.SessionsClosed(); }
      assert q.activity in server.activities && q.pendingInvitations in server.lists by { assert server.ParticipantsClosed(); }
      assert friend.pendingInvitations in server.lists by { assert server.UsersClosed(); }
      result := q.activity.Invite(server, q, friend, role);
    }

    /**
     * invitationReply: an unknown invitation id gives empty ids and changes
     * nothing; an unknown session or a refusal rejects the invitation and
     * gives empty ids; otherwise the session joins the inviter's activity
     * in the offered role, the invitation is accepted and the new ids are
     * returned.
     */
    method InvitationReply(server: Server, sessionId: string, invitationId: string, accept: bool)
      returns (info: ActivityStartInfo, ghost notified: seq<string>)
      requires server.Closed() && this in server.users
      modifies server.lists`entries, server.dir`log, server.activities`participantIdCount, server.activities`participants
      modifies server.sessions`activities, server.dir`links, server`participants, server`lists
      ensures server.Closed()
      ensures invitationId !in old(pendingInvitations.entries) ==>
        info == ActivityStartInfo("", "") && server.dir.log == old(server.dir.log)
        && pendingInvitations.entries == old(pendingInvitations.entries)
      ensures invitationId in old(pendingInvitations.entries) ==>
        pendingInvitations.entries == old(pendingInvitations.entries) - {invitationId}
      ensures invitationId in old(pendingInvitations.entries) ==>
        var inv := old(pendingInvitations.entries[invitationId]);
        inv.inviter.pendingInvitations.entries == old(inv.inviter.pendingInvitations.entries) - {invitationId}
      ensures invitationId in old(pendingInvitations.entries) && (SessionWithId(sessions, sessionId).None? || !accept) ==>
        var inv := old(pendingInvitations.entries[invitationId]);
        info == ActivityStartInfo("", "")
        && server.dir.log == old(server.dir.log) + [Notice(inv.inviter.session.user, InvitationReplyEvent(inv.user.username, invitationId, false, inv.extra))]
      ensures invitationId in old(pendingInvitations.entries) && SessionWithId(sessions, sessionId).Some? && accept ==>
        var inv := old(pendingInvitations.entries[invitationId]);
        var a := inv.inviter.activity;
        info.activityId == a.activityId && info.participantId in a.participants
        && a.participants[info.participantId].session == sessions[SessionWithId(sessions, sessionId).value]
        && a.participants[info.participantId].role == inv.role
        && a.participants == old(a.participants)[info.participantId := a.participants[info.participantId]]
        && IsKeyOrder(notified, old(a.participants))
        && server.dir.log == old(server.dir.log)
           + NoticesTo(notified, old(a.participants), JoinEventOf(a.participants[info.participantId]))
           + [Notice(inv.inviter.session.user, InvitationReplyEvent(inv.user.username, invitationId, true, inv.extra))]
    {
      if invitationId !in pendingInvitations.entries {
        return ActivityStartInfo("", ""), [];
      }
      var inv := pendingInvitations.entries[invitationId];
      assert pendingInvitations in server.lists by { assert server.UsersClosed(); }
      assert inv in server.invitations && inv.invitationId == invitationId by { assert server.ListsClosed(); }
      var i := SessionWithId(sessions, sessionId);
      if i.None? || !accept {
        inv.Reject(server);
        return ActivityStartInfo("", ""), [];
      }
      assert sessions[i.value] in server.sessions by { assert server.UsersClosed(); }
      info, notified := JoinInvited(server, inv, sessions[i.value]);
    }

    /** The accepting half of invitationReply: join the inviter's activity, then accept. */
    method JoinInvited(server: Server, inv: Invitation, session: Session)
      returns (info: ActivityStartInfo, ghost notified: seq<string>)
      requires server.Closed() && inv in server.invitations && session in server.sessions
      modifies server.lists`entries, server.dir`log, inv.inviter.activity`participantIdCount, inv.inviter.activity`participants
      modifies server.sessions`activities, server.dir`links, server`participants, server`lists
      ensures server.Closed()
      ensures inv.user.pendingInvitations.entries == old(inv.user.pendingInvitations.entries) - {inv.invitationId}
      ensures inv.inviter.pendingInvitations.entries == old(inv.inviter.pendingInvitations.entries) - {inv.invitationId}
      ensures info.activityId == inv.inviter.activity.activityId && info.participantId in inv.inviter.activity.participants
      ensures inv.inviter.activity.participants[info.participantId].session == session
      ensures inv.inviter.activity.participants[info.participantId].role == inv.role
      ensures inv.inviter.activity.participants
              == old(inv.inviter.activity.participants)[info.participantId := inv.inviter.activity.participants[info.participantId]]
      ensures IsKeyOrder(notified, old(inv.inviter.activity.participants))
      ensures server.dir.log == old(server.dir.log)
        + NoticesTo(notified, old(inv.inviter.activity.participants), JoinEventOf(inv.inviter.activity.participants[info.participantId]))
        + [Notice(inv.inviter.session.user, InvitationReplyEvent(inv.user.username, inv.invitationId, true, inv.extra))]
    {
      var a := inv.inviter.activity;
      assert inv.inviter in server.participants by { assert server.InvitationsClosed(); }
      assert a in server.activities && inv.inviter.pendingInvitations in server.lists by { assert server.ParticipantsClosed(); }
      assert inv.user in server.users by { assert server.InvitationsClosed(); }
      assert inv.user.pendingInvitations in server.lists by { assert server.UsersClosed(); }
      var p, who, _ := a.Join(server, session, inv.role);
      notified := who;
      inv.Accept(server);
      info := ActivityStartInfo(a.activityId, p.participantId);
    }

    /** The loaded friends; a list never loaded counts as empty. */
    function Friends(): seq<User>
      reads this
    {
      if friends.Some? then friends.value else []
    }

    /** getCapabilities as a value: the sessions' capabilities, then the cameras'. */
    function Capabilities(): seq<Capability>
      reads this
    {
      SessionCapabilities(sessions) + CameraCapabilities(ReportedDevices(properties))
    }

    /**
     * getCapabilities: the client-type capabilities of every session in
     * order, then videostream#sender once per reported IP camera.
     */
    method GetCapabilities() returns (capabilities: seq<Capability>)
      ensures capabilities == Capabilities()
    {
      capabilities := [];
      var i := 0;
      while i < |sessions|
        invariant 0 <= i <= |sessions| && capabilities == SessionCapabilities(sessions[..i])
      {
        assert sessions[..i + 1][..i] == sessions[..i];
        capabilities := capabilities + sessions[i].clientType.capabilities;
        i := i + 1;
      }
      assert sessions[..i] == sessions;
      var key := SystemPropertyName(Devices);
      if key in properties && properties[key].DeviceList? {
        var devices := properties[key].devices;
        ghost var base := capabilities;
        var j := 0;
        while j < |devices|
          invariant 0 <= j <= |devices| && capabilities == base + CameraCapabilities(devices[..j])
        {
          assert devices[..j + 1][..j] == devices[..j];
          if IsIpCamera(devices[j]) {
            capabilities := capabilities + [CameraCapability()];
          }
          j := j + 1;
        }
        assert devices[..j] == devices;
      }
    }

    /** hasCapability: some capability names both the activity definition and the role. */
    method HasCapability(activityName: string, roleName: string) returns (r: bool)
      ensures r <==> exists c :: c in Capabilities() && c.definition.name == activityName && c.role.name == roleName
    {
      var capabilities := GetCapabilities();
      var i := 0;
      while i < |capabilities|
        invariant 0 <= i <= |capabilities|
        invariant forall j :: 0 <= j < i ==> !(capabilities[j].definition.name == activityName && capabilities[j].role.name == roleName)
      {
        if capabilities[i].definition.name == activityName && capabilities[i].role.name == roleName {
          return true;
        }
        i := i + 1;
      }
      return false;
    }

    /**
     * The session loop of the control and video stream invites: the LAST
     * session of the robot client type holding no participation in the role.
     */
    method LastIdleSession(roleName: string) returns (chosen: Option<Session>, ghost at: int)
      ensures chosen.None? <==> forall i :: 0 <= i < |sessions| ==> !Idle(sessions[i], roleName)
      ensures chosen.Some? ==> LastIdleAt(sessions, roleName, at) && chosen.value == sessions[at]
    {
      chosen, at := None, -1;
      var i := 0;
      while i < |sessions|
        invariant 0 <= i <= |sessions|
        invariant chosen.None? <==> forall k :: 0 <= k < i ==> !Idle(sessions[k], roleName)
        invariant chosen.Some? ==> 0 <= at < i && chosen.value == sessions[at] && Idle(sessions[at], roleName)
        invariant chosen.Some? ==> forall j :: at < j < i ==> !Idle(sessions[j], roleName)
      {
        var s := sessions[i];
        if s.clientType == InterbotClientType() {
          var holder := FindWithRole(s.activities, roleName);
          if holder.None? {
            chosen, at := Some(s), i;
          }
        }
        i := i + 1;
      }
    }

    /** getAllActivityParticipations: the participations of every session. */
    method GetAllActivityParticipations() returns (ps: seq<Participant>)
      ensures forall p :: p in ps <==> exists i :: 0 <= i < |sessions| && p in sessions[i].activities.Values
    {
      ps := [];
      var i := 0;
      while i < |sessions|
        invariant 0 <= i <= |sessions|
        invariant forall p :: p in ps <==> exists k :: 0 <= k < i && p in sessions[k].activities.Values
      {
        var m := sessions[i].activities;
        var keys := KeyOrder(m);
        var values := ValuesAt(keys, m);
        assert forall p :: p in values <==> p in m.Values by {
          forall p | p in m.Values ensures p in values {
            var k :| k in m && m[k] == p;
            var j :| 0 <= j < |keys| && keys[j] == k;
            assert values[j] == p;
          }
        }
        ps := ps + values;
        i := i + 1;
      }
    }
  }

  /**
   * A user can take a role exactly when the client type of one of its
   * sessions grants it, or when the role is the video sender and the user
   * reported an IP camera.
   */
  lemma CapableIff(u: User, d: ActivityDefinition, role: Role)
    ensures HasActivityRole(u.Capabilities(), d, role) <==>
      (exists i, c :: 0 <= i < |u.sessions| && c in u.sessions[i].clientType.capabilities
                      && c.definition.name == d.name && c.role.name == role.name)
      || (d.name == VideoStreamName && role.name == RoleSender
          && exists k :: 0 <= k < |ReportedDevices(u.properties)| && IsIpCamera(ReportedDevices(u.properties)[k]))
  {
    var s: seq<Capability> := SessionCapabilities(u.sessions);
    var cams: seq<Capability> := CameraCapabilities(ReportedDevices(u.properties));
    var all: seq<Capability> := u.Capabilities();
    assert all == s + cams;
    if HasActivityRole(all, d, role) {
      var i: int :| 0 <= i < |all| && all[i].definition.name == d.name && all[i].role.name == role.name;
      if i < |s| {
        assert s[i] in s;
      } else {
        assert cams[i - |s|] == CameraCapability();
      }
    } else {
      forall i, c | 0 <= i < |u.sessions| && c in u.sessions[i].clientType.capabilities
        ensures !(c.definition.name == d.name && c.role.name == role.name)
      {
        assert c in s;
        var j :| 0 <= j < |s| && s[j] == c;
        assert all[j] == c;
      }
      if cams != [] {
        assert all[|s|] == cams[0] == CameraCapability();
      }
    }
  }

  /** The cache of loaded users, keyed by username. */
  class UserManager {
    var users: map<string, User>

    constructor()
      ensures users == map[]
    {
      users := map[];
    }

    /**
     * unloadUser: the registry is keyed by username, but the removal is
     * asked for with the user object, which equals no username; no entry goes.
     */
    method UnloadUser(u: User)
      ensures users == old(users)
    {
    }

    /**
     * getUser: an unsafe name finds nobody; a loaded name finds its user;
     * otherwise the database type decides between a new human, a new robot
     * and nobody, and a new user is kept in the registry.
     */
    method GetUser(server: Server, db: UserDatabase, username: string) returns (u: Option<User>)
      requires server.Closed() && server.userManager == this
      modifies this`users, server`users, server`lists
      ensures server.Closed()
      ensures u.Some? <==> Loadable(db, old(users).Keys, username)
      ensures u.None? ==> users == old(users) && server.users == old(server.users)
      ensures u.Some? ==> users == old(users)[username := u.value] && u.value.username == username && u.value in server.users
      ensures u.Some? && username in old(users) ==> u.value == old(users)[username] && server.users == old(server.users)
      ensures u.Some? && username !in old(users) ==>
                fresh(u.value) && u.value.followers == []
                && server.users == old(server.users) + {u.value}
                && u.value.userType == (if GetUserType(db, username) == UserTypeHuman then Human else Robot)
    {
      if !SqlSafe(username) {
        return None;
      }
      if username in users {
        return Some(users[username]);
      }
      u := LoadUser(server, db, username);
    }

    /** The switch on the database type for a name not yet loaded. */
    method LoadUser(server: Server, db: UserDatabase, username: string) returns (u: Option<User>)
      requires server.Closed() && server.userManager == this && username !in users
      modifies this`users, server`users, server`lists
      ensures server.Closed()
      ensures u.Some? <==> NewlyLoadable(db, username)
      ensures u.None? ==> users == old(users) && server.users == old(server.users)
      ensures u.Some? ==> users == old(users)[username := u.value] && u.value.username == username
      ensures u.Some? ==> fresh(u.value) && u.value.followers == [] && server.users == old(server.users) + {u.value}
                          && u.value.userType == (if GetUserType(db, username) == UserTypeHuman then Human else Robot)
    {
      var userType := GetUserType(db, username);
      if userType != UserTypeHuman && userType != UserTypeRobot {
        return None;
      }
      var user := new User(username, if userType == UserTypeHuman then Human else Robot);
      server.AddUser(user);
      users := users[username := user];
      u := Some(user);
    }

    /** unloadAllUsers: the registry is emptied. */
    method UnloadAllUsers(server: Server)
      requires server.Closed() && server.userManager == this
      modifies this`users
      ensures server.Closed() && users == map[]
    {
      users := map[];
    }
  }

  // ---------------------------------------------------------------------
  // Video channels.
  // ---------------------------------------------------------------------

  /** The channel a video stream activity's frames travel through. */
  class VideoChannel {
    const channelId: string
    const activity: Activity
    var receiver: Option<VideoReceiver>

    /** A new channel has no receiver. */
    constructor(channelId: string, activity: Activity)
      ensures this.channelId == channelId && this.activity == activity && receiver == None
    {
      this.channelId := channelId;
      this.activity := activity;
      receiver := None;
    }

    /**
     * addReceiver: refused (IllegalArgumentException) when the receiver's
     * participant belongs to another activity; otherwise it becomes the receiver.
     */
    method AddReceiver(r: VideoReceiver) returns (ok: bool)
      modifies this`receiver
      ensures ok <==> r.participant.activity == activity
      ensures ok ==> receiver == Some(r)
      ensures !ok ==> receiver == old(receiver)
    {
      if r.participant.activity != activity {
        return false;
      }
      receiver := Some(r);
      return true;
    }

    /** removeReceiver: no receiver afterwards. */
    method RemoveReceiver()
      modifies this`receiver
      ensures receiver == None
    {
      if receiver.None? {
        return;
      }
      receiver := None;
    }

    /** stream: the frame goes to the receiver, so a channel without one writes nothing. */
    function StreamTarget(): (r: Option<Participant>)
      reads this
      ensures r.None? <==> receiver.None?
      ensures r.Some? ==> r.value == receiver.value.participant
    {
      if receiver.Some? then Some(receiver.value.participant) else None
    }

    /** close: unregisters this channel from the manager. */
    method Close(server: Server)
      requires server.Closed()
      modifies server.channelManager`channels
      ensures server.Closed()
      ensures server.channelManager.channels == old(server.channelManager.channels) - {channelId}
    {
      server.channelManager.Unregister(this);
    }
  }

  /** The registry of open video channels, keyed by channel id. */
  class VideoChannelManager {
    var channels: map<string, VideoChannel>

    constructor()
      ensures channels == map[]
    {
      channels := map[];
    }

    /** createChannel: a new channel with a random id, registered under that id. */
    method CreateChannel(server: Server, activity: Activity) returns (channel: VideoChannel)
      requires server.Closed() && server.channelManager == this && activity in server.activities
      modifies this`channels, server`channels
      ensures server.Closed()
      ensures fresh(channel) && channel.activity == activity && channel.receiver == None
      ensures |channel.channelId| == ChannelIdLength
      ensures channels == old(channels)[channel.channelId := channel]
      ensures server.channels == old(server.channels) + {channel}
    {
      var channelId := RandomString(ChannelIdLength);
      channel := new VideoChannel(channelId, activity);
      server.AddChannel(channel);
      Register(server, channel);
    }

    /** The registration createChannel performs: the channel under its own id. */
    method Register(server: Server, channel: VideoChannel)
      requires server.Closed() && server.channelManager == this && channel in server.channels
      modifies this`channels
      ensures server.Closed()
      ensures channels == old(channels)[channel.channelId := channel]
    {
      channels := channels[channel.channelId := channel];
    }

    /** getChannel: the channel registered under that id, or null. */
    function GetChannel(channelId: string): Option<VideoChannel>
      reads this
    {
      if channelId in channels then Some(channels[channelId]) else None
    }

    /** unregister: removes the channel's id; other channels stay registered. */
    method Unregister(channel: VideoChannel)
      modifies this`channels
      ensures channels == old(channels) - {channel.channelId}
      ensures GetChannel(channel.channelId) == None
      ensures forall id :: id != channel.channelId ==> GetChannel(id) == old(GetChannel(id))
    {
      channels := channels - {channel.channelId};
    }
  }

  /** After createChannel, getChannel finds the new channel under its id. */
  lemma CreatedChannelIsFound(m: VideoChannelManager, c: VideoChannel)
    requires c.channelId in m.channels && m.channels[c.channelId] == c
    ensures m.GetChannel(c.channelId) == Some(c)
  {
  }

  // ---------------------------------------------------------------------
  // What an invite checks before it acts.
  // ---------------------------------------------------------------------

  /** A session of the robot client type that holds no participation in the named role. */
  ghost predicate Idle(s: Session, roleName: string)
    reads s
  {
    s.clientType == InterbotClientType() && !HasRoleIn(s.activities, roleName)
  }

  /** The i-th session is idle for the role and no later one is. */
  ghost predicate LastIdleAt(sessions: seq<Session>, roleName: string, i: int)
    reads sessions
  {
    0 <= i < |sessions| && Idle(sessions[i], roleName)
    && forall j :: i < j < |sessions| ==> !Idle(sessions[j], roleName)
  }

  /** Some session of the user takes part in an activity of the definition. */
  ghost predicate Busy(u: User, d: ActivityDefinition)
    reads u, u.sessions
  {
    exists i, id :: 0 <= i < |u.sessions| && id in u.sessions[i].activities
                    && u.sessions[i].activities[id].activity.definition == d
  }

  /** hasActivity over getAllActivityParticipations tells whether the user is busy. */
  lemma BusyIffListed(u: User, d: ActivityDefinition, ps: seq<Participant>)
    requires forall p :: p in ps <==> exists i :: 0 <= i < |u.sessions| && p in u.sessions[i].activities.Values
    ensures HasActivity(ps, d) <==> Busy(u, d)
  {
    if HasActivity(ps, d) {
      var j :| 0 <= j < |ps| && ps[j].activity.definition == d;
      assert ps[j] in ps;
    }
    if Busy(u, d) {
      var i, id :| 0 <= i < |u.sessions| && id in u.sessions[i].activities
                   && u.sessions[i].activities[id].activity.definition == d;
      var p := u.sessions[i].activities[id];
      assert p in u.sessions[i].activities.Values;
      assert p in ps;
      var j :| 0 <= j < |ps| && ps[j] == p;
    }
  }

  /** One precondition of an invite, and the reason the invite gives when it fails. */
  datatype Check = Check(holds: bool, reason: string)

  /** The reason of the first failing check, or none when every check holds. */
  function FirstFailure(checks: seq<Check>): (r: Option<string>)
    ensures r.None? <==> forall i :: 0 <= i < |checks| ==> checks[i].holds
    ensures r.Some? ==> exists i :: 0 <= i < |checks| && !checks[i].holds && checks[i].reason == r.value
  {
    if checks == [] then None
    else if !checks[0].holds then Some(checks[0].reason)
    else
      var r := FirstFailure(checks[1..]);
      assert r.Some? ==> exists i :: 0 <= i < |checks| && !checks[i].holds && checks[i].reason == r.value by {
        if r.Some? {
          var i :| 0 <= i < |checks[1..]| && !checks[1..][i].holds && checks[1..][i].reason == r.value;
          assert checks[i + 1] == checks[1..][i];
        }
      }
      r
  }

  /** When check i is the first to fail, its reason is the one given. */
  lemma {:induction false} FirstFailureAt(checks: seq<Check>, i: int)
    requires 0 <= i < |checks| && !checks[i].holds
    requires forall j :: 0 <= j < i ==> checks[j].holds
    ensures FirstFailure(checks) == Some(checks[i].reason)
  {
    if i > 0 {
      assert checks[1..][i - 1] == checks[i];
      FirstFailureAt(checks[1..], i - 1);
    }
  }

  /** The first failure of two check lists in a row: the first list's, else the second's. */
  lemma {:induction false} FirstFailureAppend(a: seq<Check>, b: seq<Check>)
    ensures FirstFailure(a + b) == if FirstFailure(a).Some? then FirstFailure(a) else FirstFailure(b)
  {
    if a != [] {
      assert (a + b)[1..] == a[1..] + b;
      FirstFailureAppend(a[1..], b);
    } else {
      assert a + b == b;
    }
  }

  /** The role a kind's inviter must hold, and the role it may invite a user to. */
  function InvitingRole(kind: ActivityKind): string {
    match kind
    case Plain => ""
    case Control => RoleController
    case WebRtc => RoleCaller
    case VideoStream => RoleReceiver
  }

  function InvitedRole(kind: ActivityKind): string {
    match kind
    case Plain => ""
    case Control => RoleRobot
    case WebRtc => RoleCallee
    case VideoStream => RoleSender
  }

  /** The reasons given when the inviter's role or the invited role is wrong. */
  function InvitingRoleReason(kind: ActivityKind): string {
    match kind
    case Plain => ""
    case Control => "inviter must be a controller"
    case WebRtc => "inviter must be caller"
    case VideoStream => "inviter must be a receiver"
  }

  function InvitedRoleReason(kind: ActivityKind): string {
    match kind
    case Plain => ""
    case Control => "user must be invited to robot role"
    case WebRtc => "user must be invited to callee role"
    case VideoStream => "user must be invited to sender role"
  }

  // ---------------------------------------------------------------------
  // Activities.
  // ---------------------------------------------------------------------

  /**
   * An activity of any kind. The kind of its definition chooses which
   * join, exit and invite rules apply (the Java subclasses).
   */
  class Activity {
    const activityId: string
    const definition: ActivityDefinition
    /** Participants keyed by participant id. */
    var participants: map<string, Participant>
    var participantIdCount: nat
    /** WebRTC: the private topic of the call, and its two ends. */
    var call: Option<P2PCall>
    /** Video stream: the open channel, or null. */
    var channel: VideoChannel?

    /** A new activity has no participants and its counter at 0. */
    constructor(activityId: string, definition: ActivityDefinition)
      ensures this.activityId == activityId && this.definition == definition
      ensures participants == map[] && participantIdCount == 0
      ensures call == None && channel == null
      ensures Valid()
    {
      this.activityId := activityId;
      this.definition := definition;
      participants := map[];
      participantIdCount := 0;
      call := None;
      channel := null;
    }

    /** Participants sit under their own ids and belong to this activity. */
    ghost predicate Valid()
      reads this`participants
    {
      forall id :: id in participants ==> participants[id].participantId == id && participants[id].activity == this
    }

    /** Every participant's id is this activity's id, "#", and a counter value from 1 to n. */
    ghost predicate NumberedUpTo(n: nat)
      reads this`participants
    {
      forall id :: id in participants ==>
        participants[id].participantId == ParticipantId(activityId, participants[id].serial)
        && 1 <= participants[id].serial <= n
    }

    /** The participants were numbered by the counter. */
    ghost predicate Numbered()
      reads this`participants, this`participantIdCount
    {
      NumberedUpTo(participantIdCount)
    }

    /** countParticipants. */
    function CountParticipants(): nat
      reads this
    {
      |participants|
    }

    /** The participant join makes: numbered by the bumped counter, recorded as live. */
    method NewParticipant(server: Server, session: Session, role: Role) returns (p: Participant)
      requires server.Closed() && this in server.activities && session in server.sessions
      modifies this`participantIdCount, server`participants, server`lists
      ensures server.Closed()
      ensures fresh(p) && fresh(p.pendingInvitations) && p.pendingInvitations.entries == map[]
      ensures p.activity == this && p.session == session && p.role == role
      ensures participantIdCount == old(participantIdCount) + 1 && p.serial == participantIdCount
      ensures p.participantId == ParticipantId(activityId, participantIdCount)
      ensures server.participants == old(server.participants) + {p}
      ensures server.lists == old(server.lists) + {p.pendingInvitations}
    {
      participantIdCount := participantIdCount + 1;
      p := new Participant(ParticipantId(activityId, participantIdCount), this, session, role, participantIdCount);
      server.AddParticipant(p);
    }

    /**
     * participants.put for a participant numbered by the latest counter
     * value: when the others were numbered below it, its id is new here.
     */
    method PutParticipant(server: Server, p: Participant)
      requires server.Closed() && this in server.activities && p in server.participants
      requires p.activity == this && p.serial == participantIdCount >= 1
      requires p.participantId == ParticipantId(activityId, participantIdCount)
      modifies this`participants
      ensures server.Closed()
      ensures participants == old(participants)[p.participantId := p]
      ensures old(NumberedUpTo(participantIdCount - 1)) ==> p.participantId !in old(participants) && Numbered()
    {
      assert NumberedUpTo(participantIdCount - 1) ==> p.participantId !in participants by {
        if NumberedUpTo(participantIdCount - 1) && p.participantId in participants {
          ParticipantIdInjective(activityId, participants[p.participantId].serial, p.serial);
        }
      }
      participants := participants[p.participantId := p];
      assert server.ActivitiesClosed() by {
        forall a | a in server.activities
          ensures a.Valid() && forall id :: id in a.participants ==> a.participants[id] in server.participants
        {
          if a != this {
            assert old(a.Valid() && forall id :: id in a.participants ==> a.participants[id] in server.participants);
          }
        }
      }
    }

    /** The end of join: the participant is put here and registered with its session. */
    method Admit(server: Server, p: Participant)
      requires server.Closed() && this in server.activities && p in server.participants
      requires p.activity == this && p.serial == participantIdCount >= 1
      requires p.participantId == ParticipantId(activityId, participantIdCount)
      modifies this`participants, p.session`activities
      ensures server.Closed()
      ensures participants == old(participants)[p.participantId := p]
      ensures old(NumberedUpTo(participantIdCount - 1)) ==> p.participantId !in old(participants) && Numbered()
      ensures p.session.activities == old(p.session.activities)[p.participantId := p]
    {
      PutParticipant(server, p);
      assert p.session in server.sessions by { assert server.ParticipantsClosed(); }
      p.session.RegisterActivity(server, p);
    }

    /** participants.remove. */
    method RemoveParticipant(server: Server, participantId: string)
      requires server.Closed() && this in server.activities
      modifies this`participants
      ensures server.Closed() && participants == old(participants) - {participantId}
    {
      participants := participants - {participantId};
      assert server.ActivitiesClosed() by {
        forall a | a in server.activities
          ensures a.Valid() && forall id :: id in a.participants ==> a.participants[id] in server.participants
        {
          if a != this {
            assert old(a.Valid() && forall id :: id in a.participants ==> a.participants[id] in server.participants);
          }
        }
      }
    }

    /**
     * Activity.join: bumps the counter, makes a participant with the id
     * activity id + "#" + counter, sends JoinActivity to the participants
     * present before, then adds the participant here and to its session.
     */
    method BaseJoin(server: Server, session: Session, role: Role) returns (p: Participant, ghost notified: seq<string>)
      requires server.Closed() && this in server.activities && session in server.sessions
      modifies this`participantIdCount, this`participants, session`activities, server.dir`log
      modifies server`participants, server`lists
      ensures server.Closed()
      ensures fresh(p) && fresh(p.pendingInvitations) && p.pendingInvitations.entries == map[]
      ensures p.activity == this && p.session == session && p.role == role
      ensures participantIdCount == old(participantIdCount) + 1
      ensures p.participantId == ParticipantId(activityId, participantIdCount)
      ensures participants == old(participants)[p.participantId := p]
      ensures old(Numbered()) ==> Numbered() && p.participantId !in old(participants)
      ensures session.activities == old(session.activities)[p.participantId := p]
      ensures IsKeyOrder(notified, old(participants))
      ensures server.dir.log == old(server.dir.log) + NoticesTo(notified, old(participants), JoinEventOf(p))
      ensures server.participants == old(server.participants) + {p}
      ensures server.lists == old(server.lists) + {p.pendingInvitations}
    {
      p := NewParticipant(server, session, role);
      notified := NotifyParticipants(server, participants, JoinEventOf(p));
      Admit(server, p);
    }

    /**
     * Activity.exit: a participant whose id is not here gives false and
     * changes nothing; otherwise its id is removed here and from its
     * session, and the remaining participants are sent ExitActivity.
     */
    method BaseExit(server: Server, p: Participant) returns (removed: bool, ghost notified: seq<string>)
      requires server.Closed() && this in server.activities && p in server.participants
      modifies this`participants, p.session`activities, server.dir`log
      ensures server.Closed()
      ensures removed <==> p.participantId in old(participants)
      ensures participants == old(participants) - {p.participantId}
      ensures !removed ==> p.session.activities == old(p.session.activities) && server.dir.log == old(server.dir.log)
      ensures removed ==> p.session.activities == old(p.session.activities) - {p.participantId}
      ensures removed ==> IsKeyOrder(notified, participants)
      ensures removed ==> server.dir.log == old(server.dir.log) + NoticesTo(notified, participants, ExitEventOf(p))
    {
      if p.participantId !in participants {
        return false, [];
      }
      assert p.session in server.sessions by { assert server.ParticipantsClosed(); }
      RemoveParticipant(server, p.participantId);
      p.session.UnregisterActivity(server, p);
      notified := NotifyParticipants(server, participants, ExitEventOf(p));
      removed := true;
    }
    /**
     * The robot-controller pair ControlActivity looks up: with more than one
     * participant, the users of the first robot and of the first controller.
     */
    method FindPair(server: Server) returns (pair: Option<(string, string)>)
      requires server.Closed()
      ensures server.Closed()
      ensures pair.Some? <==> Paired(participants)
      ensures pair.Some? ==> PairLink(participants, ControlLink(pair.value.0, pair.value.1))
    {
      pair := None;
      if |participants| > 1 {
        var controller := FindWithRole(participants, RoleController);
        var robot := FindWithRole(participants, RoleRobot);
        if controller.Some? && robot.Some? {
          pair := Some((robot.value.session.user.username, controller.value.session.user.username));
        }
      }
    }

    /**
     * ControlActivity.join's grant: in a control activity, the pair's robot
     * is linked to its controller; other kinds grant nothing.
     */
    method GrantIfPaired(server: Server) returns (ghost granted: Option<Link>)
      requires server.Closed() && this in server.activities
      modifies server.dir`links
      ensures server.Closed()
      ensures granted.Some? <==> definition.kind == Control && Paired(participants)
      ensures granted.Some? ==> PairLink(participants, granted.value)
                                && server.dir.links == old(server.dir.links) + multiset{granted.value}
      ensures granted.None? ==> server.dir.links == old(server.dir.links)
    {
      granted := None;
      if definition.kind != Control {
        return;
      }
      var pair := FindPair(server);
      if pair.Some? {
        server.GrantControl(pair.value.0, pair.value.1);
        granted := Some(ControlLink(pair.value.0, pair.value.1));
      }
    }

    /** ControlActivity.exit's deny: the pair's robot is unlinked from its controller. */
    method DenyIfPaired(server: Server) returns (ghost denied: Option<Link>)
      requires server.Closed() && this in server.activities
      modifies server.dir`links
      ensures server.Closed()
      ensures denied.Some? <==> Paired(participants)
      ensures denied.Some? ==> PairLink(participants, denied.value)
                               && server.dir.links == old(server.dir.links) - multiset{denied.value}
      ensures denied.None? ==> server.dir.links == old(server.dir.links)
    {
      var pair := FindPair(server);
      denied := None;
      if pair.Some? {
        server.DenyControl(pair.value.0, pair.value.1);
        denied := Some(ControlLink(pair.value.0, pair.value.1));
      }
    }

    /**
     * The checks an invite makes, in the order this activity's kind makes
     * them; a plain activity supports no invites at all.
     */
    ghost function InviteChecks(inviter: Participant, user: User, role: Role): seq<Check>
      reads this`participants, user, user.sessions
    {
      if definition.kind == Plain then [Check(false, "activity not supported")]
      else HeadChecks(inviter, role) + TailChecks(user, role)
    }

    /** The first checks of every kind: room, the inviter's place and role, the invited role. */
    function HeadChecks(inviter: Participant, role: Role): seq<Check>
      reads this`participants
    {
      [Check(|participants| <= 1, "activity is full"),
       Check(inviter.activity == this, "inviter must particpate in activity"),
       Check(inviter.role.name == InvitingRole(definition.kind), InvitingRoleReason(definition.kind)),
       Check(role.name == InvitedRole(definition.kind), InvitedRoleReason(definition.kind))]
    }

    /** The last checks: a robot invitee and its capability, or for a call the capability and no other call. */
    ghost function TailChecks(user: User, role: Role): seq<Check>
      reads user, user.sessions
    {
      var capable := Check(HasActivityRole(user.Capabilities(), definition, role),
                           "user cannot support requested role at this time");
      if definition.kind == WebRtc then [capable, Check(!Busy(user, definition), "user is busy")]
      else [Check(user.userType == Robot, "invited user must be a robot"), capable]
    }

    /**
     * The tests at the head of every invite, in the source's order: the
     * reason of the first that fails, or none when the invite may go ahead.
     */
    method Screen(inviter: Participant, user: User, role: Role) returns (reason: Option<string>)
      ensures reason == FirstFailure(InviteChecks(inviter, user, role))
    {
      if definition.kind == Plain {
        FirstFailureAt(InviteChecks(inviter, user, role), 0);
        return Some("activity not supported");
      }
      reason := FirstFailure(HeadChecks(inviter, role));
      if reason.None? {
        reason := ScreenUser(user, role);
      }
      FirstFailureAppend(HeadChecks(inviter, role), TailChecks(user, role));
    }

    /** The tests on the invited user, in the source's order. */
    method ScreenUser(user: User, role: Role) returns (reason: Option<string>)
      ensures reason == FirstFailure(TailChecks(user, role))
    {
      ghost var checks := TailChecks(user, role);
      if definition.kind == WebRtc {
        var capabilities := user.GetCapabilities();
        if !HasActivityRole(capabilities, definition, role) {
          FirstFailureAt(checks, 0);
          return Some("user cannot support requested role at this time");
        }
        var ps := user.GetAllActivityParticipations();
        BusyIffListed(user, definition, ps);
        if HasActivity(ps, definition) {
          FirstFailureAt(checks, 1);
          return Some("user is busy");
        }
      } else {
        if user.userType != Robot {
          FirstFailureAt(checks, 0);
          return Some("invited user must be a robot");
        }
        var capabilities := user.GetCapabilities();
        if !HasActivityRole(capabilities, definition, role) {
          FirstFailureAt(checks, 1);
          return Some("user cannot support requested role at this time");
        }
      }
      return None;
    }

    /** join, then joinActivity to the invited user on behalf of the new participant. */
    method JoinAndTell(server: Server, session: Session, role: Role, user: User) returns (p: Participant)
      requires server.Closed() && this in server.activities && session in server.sessions
      modifies this`participantIdCount, this`participants, session`activities, server.dir`log, server.dir`links
      modifies server`participants, server`lists
      ensures server.Closed()
      ensures p.activity == this && p.session == session && p.role == role && p in server.participants
      ensures participants == old(participants)[p.participantId := p]
      ensures old(server.dir.log) < server.dir.log && server.dir.log[|server.dir.log| - 1] == Notice(user, JoinEventOf(p))
    {
      var q, _, _ := Join(server, session, role);
      p := q;
      user.UserEvent(server, JoinEventOf(p));
    }

    /**
     * The end of ControlActivity.invite: the last idle robot-client session
     * of the user joins in the role, the user is told, and the invite is
     * accepted; without such a session the invite is rejected.
     */
    method AdmitRobot(server: Server, user: User, role: Role) returns (result: InvitationResult, ghost joined: Option<Participant>)
      requires server.Closed() && this in server.activities && user in server.users
      modifies this`participantIdCount, this`participants, server.sessions`activities, server.dir`log, server.dir`links
      modifies server`participants, server`lists
      ensures server.Closed()
      ensures joined.None? <==> forall i :: 0 <= i < |user.sessions| ==> !old(Idle(user.sessions[i], role.name))
      ensures joined.None? ==> result == RejectResult("user cannot assume requested role at this time")
                               && participants == old(participants) && server.dir.log == old(server.dir.log)
      ensures joined.Some? ==> result == AcceptResult() && joined.value.role == role
                               && participants == old(participants)[joined.value.participantId := joined.value]
      ensures joined.Some? ==> exists i :: old(LastIdleAt(user.sessions, role.name, i)) && user.sessions[i] == joined.value.session
      ensures joined.Some? ==> old(server.dir.log) < server.dir.log
                               && server.dir.log[|server.dir.log| - 1] == Notice(user, JoinEventOf(joined.value))
    {
      var session, at := user.LastIdleSession(role.name);
      if session.None? {
        return RejectResult("user cannot assume requested role at this time"), None;
      }
      assert session.value in server.sessions by { assert server.UsersClosed(); }
      var p := JoinAndTell(server, session.value, role, user);
      return AcceptResult(), Some(p);
    }

    /** createChannel for this activity; the new channel becomes this activity's channel. */
    method OpenChannel(server: Server) returns (c: VideoChannel)
      requires server.Closed() && this in server.activities
      modifies this`channel, server`channels, server.channelManager`channels
      ensures server.Closed()
      ensures fresh(c) && channel == c && c.activity == this && c.receiver == None
      ensures server.channelManager.channels == old(server.channelManager.channels)[c.channelId := c]
    {
      c := server.channelManager.CreateChannel(server, this);
      channel := c;
    }

    /**
     * The end of VideoStreamActivity.invite once a session is chosen: a new
     * channel, the join, joinActivity to the user, then StartStream for the
     * channel on the user's video topic.
     */
    method StartSending(server: Server, session: Session, role: Role, user: User) returns (c: VideoChannel, p: Participant)
      requires server.Closed() && this in server.activities && session in server.sessions
      modifies this`participantIdCount, this`participants, session`activities, server.dir`log, server.dir`links
      modifies server`participants, server`lists, this`channel, server`channels, server.channelManager`channels
      ensures server.Closed()
      ensures channel == c && c.activity == this && server.channelManager.channels == old(server.channelManager.channels)[c.channelId := c]
      ensures p.session == session && p.role == role && participants == old(participants)[p.participantId := p]
      ensures |old(server.dir.log)| + 2 <= |server.dir.log|
      ensures server.dir.log[|server.dir.log| - 2] == Notice(user, JoinEventOf(p))
      ensures server.dir.log[|server.dir.log| - 1] == VideoNotice(user.username, StartStreamInstruction(c.channelId))
    {
      c := OpenChannel(server);
      p := JoinAndTell(server, session, role, user);
      server.Publish(UserHomePath(user.username), EventUri(user.username, RobotVideoTopic), Video(StartStreamInstruction(c.channelId)));
    }

    /**
     * The end of VideoStreamActivity.invite: with a last idle robot-client
     * session, streaming starts on a new channel and the invite is accepted
     * with the channel's id; otherwise it is rejected.
     */
    method AdmitSender(server: Server, user: User, role: Role) returns (result: InvitationResult, ghost joined: Option<Participant>)
      requires server.Closed() && this in server.activities && user in server.users
      modifies this`participantIdCount, this`participants, server.sessions`activities, server.dir`log, server.dir`links
      modifies server`participants, server`lists, this`channel, server`channels, server.channelManager`channels
      ensures server.Closed()
      ensures joined.None? <==> forall i :: 0 <= i < |user.sessions| ==> !old(Idle(user.sessions[i], role.name))
      ensures joined.None? ==> result == RejectResult("user cannot assume requested role at this time")
                               && participants == old(participants) && server.dir.log == old(server.dir.log)
      ensures joined.Some? ==> channel != null && result == AcceptWith(channel.channelId)
                               && channel.channelId in server.channelManager.channels
                               && joined.value.role == role
                               && participants == old(participants)[joined.value.participantId := joined.value]
      ensures joined.Some? ==> exists i :: old(LastIdleAt(user.sessions, role.name, i)) && user.sessions[i] == joined.value.session
      ensures joined.Some? ==> |old(server.dir.log)| + 2 <= |server.dir.log|
                               && server.dir.log[|server.dir.log| - 2] == Notice(user, JoinEventOf(joined.value))
                               && server.dir.log[|server.dir.log| - 1] == VideoNotice(user.username, StartStreamInstruction(channel.channelId))
    {
      var session, at := user.LastIdleSession(role.name);
      result, joined := SendOrReject(server, user, role, session);
    }

    /** AdmitSender once the session is chosen: streaming starts from it, or without one the invite is rejected. */
    method SendOrReject(server: Server, user: User, role: Role, session: Option<Session>) returns (result: InvitationResult, ghost joined: Option<Participant>)
      requires server.Closed() && this in server.activities && user in server.users
      requires session.Some? ==> session.value in user.sessions
      modifies this`participantIdCount, this`participants, server.sessions`activities, server.dir`log, server.dir`links
      modifies server`participants, server`lists, this`channel, server`channels, server.channelManager`channels
      ensures server.Closed()
      ensures joined.None? <==> session.None?
      ensures joined.None? ==> result == RejectResult("user cannot assume requested role at this time")
                               && participants == old(participants) && server.dir.log == old(server.dir.log)
      ensures joined.Some? ==> channel != null && result == AcceptWith(channel.channelId)
                               && channel.channelId in server.channelManager.channels
                               && joined.value.role == role && joined.value.session == session.value
                               && participants == old(participants)[joined.value.participantId := joined.value]
      ensures joined.Some? ==> |old(server.dir.log)| + 2 <= |server.dir.log|
                               && server.dir.log[|server.dir.log| - 2] == Notice(user, JoinEventOf(joined.value))
                               && server.dir.log[|server.dir.log| - 1] == VideoNotice(user.username, StartStreamInstruction(channel.channelId))
    {
      if session.None? {
        return RejectResult("user cannot assume requested role at this time"), None;
      }
      assert session.value in server.sessions by { assert server.UsersClosed(); }
      var c, p := StartSending(server, session.value, role, user);
      return AcceptWith(c.channelId), Some(p);
    }

    /**
     * The end of WebRtcActivity.invite: the inviter's user calls the invited
     * user over a new private topic, an invitation carrying the topic is
     * registered, the invited user is told of it, and the invite is pending.
     */
    method PlaceCall(server: Server, inviter: Participant, user: User, role: Role) returns (result: InvitationResult, ghost invitation: Invitation)
      requires server.Closed() && inviter in server.participants && user in server.users
      modifies this`call, server.dir`paths, server.dir`links, server.dir`log, server`invitations
      modifies inviter.pendingInvitations`entries, user.pendingInvitations`entries
      ensures server.Closed()
      ensures call.Some? && call.value.caller == inviter.session.user && call.value.callee == user
      ensures exists random :: |random| == P2PRandomLength && call.value.p2pTopic == P2PTopicName(random)
      ensures result == PendingResult(invitation.invitationId) && |invitation.invitationId| == InvitationIdLength
      ensures invitation.inviter == inviter && invitation.user == user && invitation.role == role
      ensures invitation.extra == Some(call.value.p2pTopic)
      ensures user.pendingInvitations.entries == old(user.pendingInvitations.entries)[invitation.invitationId := invitation]
      ensures inviter.pendingInvitations.entries == old(inviter.pendingInvitations.entries)[invitation.invitationId := invitation]
      ensures |old(server.dir.log)| < |server.dir.log|
      ensures server.dir.log[|server.dir.log| - 1] == Notice(user, ActivityInvitationEvent(inviter.session.user.username,
                inviter.activity.definition.name, role.name, invitation.invitationId, invitation.extra))
    {
      var caller := inviter.session.user;
      var p2pTopic, random := server.CreateP2PTopic(caller.username, user.username);
      call := Some(P2PCall(p2pTopic, caller, user));
      var invitationId := RandomString(InvitationIdLength);
      var i := new Invitation(server, invitationId, inviter, user, role, Some(p2pTopic));
      invitation := i;
      user.UserEvent(server, ActivityInvitationEvent(caller.username, i.GetActivity().definition.name, role.name, invitationId, i.extra));
      result := PendingResult(invitationId);
    }

    /**
     * invite, dispatched on the kind: the checks in the kind's order, then
     * a robot joins a control activity, a call is placed, or a robot starts
     * sending video. A plain activity rejects every invite.
     */
    method Invite(server: Server, inviter: Participant, user: User, role: Role) returns (result: InvitationResult)
      requires server.Closed() && this in server.activities && inviter in server.participants && user in server.users
      modifies this`participantIdCount, this`participants, this`call, this`channel, server.sessions`activities
      modifies server.dir`log, server.dir`links, server.dir`paths, server`participants, server`lists, server`invitations
      modifies server`channels, server.channelManager`channels, inviter.pendingInvitations`entries, user.pendingInvitations`entries
      ensures server.Closed()
      ensures old(FirstFailure(InviteChecks(inviter, user, role))).Some? ==>
        result == RejectResult(old(FirstFailure(InviteChecks(inviter, user, role))).value)
      ensures result.response == Reject ==> participants == old(participants)
      ensures definition.kind == WebRtc ==> result.response != Accept && participants == old(participants)
      ensures definition.kind != WebRtc ==> result.response != Pending
    {
      var reason := Screen(inviter, user, role);
      if reason.Some? {
        return RejectResult(reason.value);
      }
      result := Proceed(server, inviter, user, role);
    }

    /** The part of invite after the checks: each kind's own way to go ahead. */
    method Proceed(server: Server, inviter: Participant, user: User, role: Role) returns (result: InvitationResult)
      requires server.Closed() && this in server.activities && inviter in server.participants && user in server.users
      modifies this`participantIdCount, this`participants, this`call, this`channel, server.sessions`activities
      modifies server.dir`log, server.dir`links, server.dir`paths, server`participants, server`lists, server`invitations
      modifies server`channels, server.channelManager`channels, inviter.pendingInvitations`entries, user.pendingInvitations`entries
      ensures server.Closed()
      ensures result.response == Reject ==> participants == old(participants)
      ensures definition.kind == WebRtc ==> result.response == Pending && participants == old(participants)
      ensures definition.kind != WebRtc ==> result.response != Pending
    {
      if definition.kind == WebRtc {
        result := Ring(server, inviter, user, role);
      } else {
        result := AdmitInvited(server, user, role);
      }
    }

    /** WebRtcActivity.invite after its checks: the call leaves the activity's participants as they are. */
    method Ring(server: Server, inviter: Participant, user: User, role: Role) returns (result: InvitationResult)
      requires server.Closed() && inviter in server.participants && user in server.users
      modifies this`call, server.dir`paths, server.dir`links, server.dir`log, server`invitations
      modifies inviter.pendingInvitations`entries, user.pendingInvitations`entries
      ensures server.Closed() && result.response == Pending
    {
      ghost var invitation;
      result, invitation := PlaceCall(server, inviter, user, role);
    }

    /** The robot kinds after their checks: the robot joins at once or the invite is rejected. */
    method AdmitInvited(server: Server, user: User, role: Role) returns (result: InvitationResult)
      requires server.Closed() && this in server.activities && user in server.users
      modifies this`participantIdCount, this`participants, server.sessions`activities, server.dir`log, server.dir`links
      modifies server`participants, server`lists, this`channel, server`channels, server.channelManager`channels
      ensures server.Closed() && result.response != Pending
      ensures result.response == Reject ==> participants == old(participants)
    {
      ghost var joined;
      if definition.kind == Control {
        result, joined := AdmitRobot(server, user, role);
      } else {
        result, joined := AdmitSender(server, user, role);
      }
    }

    /**
     * join, dispatched on the kind: every kind joins as Activity.join does;
     * a control activity then grants its robot-controller pair access.
     */
    method Join(server: Server, session: Session, role: Role)
      returns (p: Participant, ghost notified: seq<string>, ghost granted: Option<Link>)
      requires server.Closed() && this in server.activities && session in server.sessions
      modifies this`participantIdCount, this`participants, session`activities, server.dir`log, server.dir`links
      modifies server`participants, server`lists
      ensures server.Closed()
      ensures p.activity == this && p.session == session && p.role == role && p in server.participants
      ensures participantIdCount == old(participantIdCount) + 1
      ensures p.participantId == ParticipantId(activityId, participantIdCount)
      ensures participants == old(participants)[p.participantId := p]
      ensures session.activities == old(session.activities)[p.participantId := p]
      ensures IsKeyOrder(notified, old(participants))
      ensures server.dir.log == old(server.dir.log) + NoticesTo(notified, old(participants), JoinEventOf(p))
      ensures granted.Some? <==> definition.kind == Control && Paired(participants)
      ensures granted.Some? ==> PairLink(participants, granted.value)
                                && server.dir.links == old(server.dir.links) + multiset{granted.value}
      ensures granted.None? ==> server.dir.links == old(server.dir.links)
    {
      p, notified := BaseJoin(server, session, role);
      granted := GrantIfPaired(server);
    }
    /**
     * ControlActivity.exit: the pair's access is denied first (even when the
     * participant turns out not to be here); then the participant exits as
     * in Activity.exit, and robots left without a controller exit in turn.
     */
    method ControlExit(server: Server, p: Participant) returns (removed: bool, ghost denied: Option<Link>, ghost notified: seq<string>)
      requires server.Closed() && this in server.activities && p in server.participants
      modifies this`participants, server.sessions`activities, server.dir`log, server.dir`links
      ensures server.Closed()
      ensures old(server.dir.log) <= server.dir.log
      ensures removed <==> p.participantId in old(participants)
      ensures removed ==> Unregistered(p.session, p.participantId)
      ensures removed ==> IsKeyOrder(notified, old(participants) - {p.participantId})
                          && old(server.dir.log) + NoticesTo(notified, old(participants) - {p.participantId}, ExitEventOf(p)) <= server.dir.log
      ensures denied.Some? <==> Paired(old(participants))
      ensures denied.Some? ==> PairLink(old(participants), denied.value)
                               && server.dir.links == old(server.dir.links) - multiset{denied.value}
      ensures denied.None? ==> server.dir.links == old(server.dir.links)
      ensures Submap(participants, old(participants) - {p.participantId})
      ensures removed ==> Attended(participants)
    {
      denied := DenyIfPaired(server);
      removed, notified := ExitAndCascade(server, p);
    }

    /** ControlActivity.exit after the deny. */
    method ExitAndCascade(server: Server, p: Participant) returns (removed: bool, ghost notified: seq<string>)
      requires server.Closed() && this in server.activities && p in server.participants
      modifies this`participants, server.sessions`activities, server.dir`log
      ensures server.Closed()
      ensures old(server.dir.log) <= server.dir.log
      ensures removed <==> p.participantId in old(participants)
      ensures removed ==> Unregistered(p.session, p.participantId)
      ensures removed ==> IsKeyOrder(notified, old(participants) - {p.participantId})
                          && old(server.dir.log) + NoticesTo(notified, old(participants) - {p.participantId}, ExitEventOf(p)) <= server.dir.log
      ensures Submap(participants, old(participants) - {p.participantId})
      ensures removed ==> Attended(participants)
      ensures removed && Attended(old(participants) - {p.participantId}) ==> participants == old(participants) - {p.participantId}
    {
      assert p.session in server.sessions by { assert server.ParticipantsClosed(); }
      removed, notified := BaseExit(server, p);
      if removed {
        var _ := ExitOrphanedRobots(server, p.session, p.participantId);
      }
    }

    /**
     * The end of ControlActivity.exit: while participants remain, none of
     * them a controller, the first robot exits (its own exit denies nothing,
     * for want of a controller); then, innermost exit first, each such
     * robot's user is sent ExitActivity on its behalf.
     */
    method ExitOrphanedRobots(server: Server, ghost watched: Session, ghost id: string) returns (orphans: seq<Participant>)
      requires server.Closed() && this in server.activities
      modifies this`participants, server.sessions`activities, server.dir`log
      ensures server.Closed()
      ensures old(server.dir.log) <= server.dir.log
      ensures Submap(participants, old(participants)) && Attended(participants)
      ensures Attended(old(participants)) ==> participants == old(participants)
      ensures RobotsGone(orphans, old(participants), participants)
      ensures |orphans| <= |server.dir.log| && server.dir.log[|server.dir.log| - |orphans|..] == OwnExitNotices(orphans)
      ensures StaysUnregistered(watched, id)
    {
      orphans := ExitWhileOrphaned(server, watched, id);
      NotifyExitedInReverse(server, orphans);
      assert server.dir.log[|server.dir.log| - |orphans|..] == OwnExitNotices(orphans);
    }

    /** The exits of ControlActivity.exit's cascade, first exit first. */
    method ExitWhileOrphaned(server: Server, ghost watched: Session, ghost id: string) returns (exited: seq<Participant>)
      requires server.Closed() && this in server.activities
      modifies this`participants, server.sessions`activities, server.dir`log
      ensures server.Closed()
      ensures old(server.dir.log) <= server.dir.log
      ensures Submap(participants, old(participants)) && Attended(participants)
      ensures Attended(old(participants)) ==> exited == [] && participants == old(participants) && server.dir.log == old(server.dir.log)
      ensures RobotsGone(exited, old(participants), participants)
      ensures StaysUnregistered(watched, id)
    {
      exited := [];
      var robot := FindOrphanedRobot(server);
      while robot.Some?
        invariant server.Closed() && this in server.activities
        invariant Submap(participants, old(participants))
        invariant robot.None? <==> Attended(participants)
        invariant robot.Some? ==> robot.value.role.name == RoleRobot && robot.value in server.participants
                                  && robot.value.participantId in participants
        invariant exited == [] ==> participants == old(participants) && server.dir.log == old(server.dir.log)
        invariant old(server.dir.log) <= server.dir.log
        invariant Attended(old(participants)) ==> exited == [] && robot.None?
        invariant RobotsGone(exited, old(participants), participants)
        invariant StaysUnregistered(watched, id)
        decreases |participants|
      {
        var r := robot.value;
        ghost var mid := participants;
        var _, _ := BaseExit(server, r);
        RobotsGoneExtend(exited, r, old(participants), mid, participants);
        exited := exited + [r];
        robot := FindOrphanedRobot(server);
      }
    }

    /** The robot ControlActivity.exit makes exit: the first one, when no controller remains. */
    method FindOrphanedRobot(server: Server) returns (robot: Option<Participant>)
      requires server.Closed() && this in server.activities
      ensures server.Closed()
      ensures robot.None? <==> Attended(participants)
      ensures robot.Some? ==> robot.value in participants.Values && robot.value.role.name == RoleRobot
                              && robot.value.participantId in participants && robot.value in server.participants
    {
      robot := None;
      if |participants| > 0 {
        var controller := FindWithRole(participants, RoleController);
        if controller.None? {
          robot := FindWithRole(participants, RoleRobot);
          if robot.Some? {
            assert server.ActivitiesClosed();
          }
        }
      }
    }
    /**
     * WebRtcActivity.exit: Activity.exit; when that leaves no participant
     * and a call was set up, the call's private topic is destroyed.
     */
    method WebRtcExit(server: Server, p: Participant) returns (removed: bool, ghost destroyed: bool, ghost notified: seq<string>)
      requires server.Closed() && this in server.activities && p in server.participants
      modifies this`participants, p.session`activities, server.dir`log, server.dir`paths, server.dir`links
      ensures server.Closed()
      ensures removed <==> p.participantId in old(participants)
      ensures participants == old(participants) - {p.participantId}
      ensures !removed ==> p.session.activities == old(p.session.activities) && server.dir.log == old(server.dir.log)
      ensures removed ==> p.session.activities == old(p.session.activities) - {p.participantId}
      ensures removed ==> IsKeyOrder(notified, participants)
                          && server.dir.log == old(server.dir.log) + NoticesTo(notified, participants, ExitEventOf(p))
      ensures destroyed <==> removed && participants == map[] && call.Some?
      ensures destroyed && P2PTopicOf(call.value.p2pTopic).Some? ==>
        server.dir.paths == old(server.dir.paths) - {P2PTopicPath(call.value.caller.username, P2PTopicOf(call.value.p2pTopic).value)}
        && server.dir.links == old(server.dir.links)
           - multiset{P2PLink(call.value.caller.username, call.value.callee.username, P2PTopicOf(call.value.p2pTopic).value)}
      ensures !destroyed || P2PTopicOf(call.value.p2pTopic).None? ==>
        server.dir.paths == old(server.dir.paths) && server.dir.links == old(server.dir.links)
    {
      removed, notified := BaseExit(server, p);
      destroyed := removed && |participants| == 0 && call.Some?;
      if removed && |participants| == 0 && call.Some? {
        server.DestroyP2PTopic(call.value.p2pTopic, call.value.caller.username, call.value.callee.username);
      }
    }

    /** The channel is closed (unregistered from the manager) and forgotten. */
    method CloseChannel(server: Server)
      requires server.Closed() && this in server.activities && channel != null
      modifies server.channelManager`channels, this`channel
      ensures server.Closed() && channel == null
      ensures server.channelManager.channels == old(server.channelManager.channels) - {old(channel).channelId}
    {
      channel.Close(server);
      channel := null;
    }

    /**
     * VideoStreamActivity.exit's step for the exiting participant's role: a
     * sender's robot is told to stop streaming into the channel, a receiver
     * is detached from the channel. Nothing happens without a channel.
     */
    method StopOrDetach(server: Server, p: Participant)
      requires server.Closed() && this in server.activities
      modifies server.dir`log, server.channels`receiver
      ensures server.Closed()
      ensures p.role.name == RoleSender && channel != null ==>
        server.dir.log == old(server.dir.log) + [VideoNotice(p.session.user.username, StopStreamInstruction(channel.channelId))]
      ensures p.role.name != RoleSender || channel == null ==> server.dir.log == old(server.dir.log)
      ensures p.role.name == RoleReceiver && channel != null ==> channel.receiver == None
    {
      if channel == null {
        return;
      }
      if p.role.name == RoleSender {
        var username := p.session.user.username;
        server.Publish(UserHomePath(username), EventUri(username, RobotVideoTopic), Video(StopStreamInstruction(channel.channelId)));
      } else if p.role.name == RoleReceiver {
        assert channel in server.channels by { assert server.ChannelsClosed(); }
        channel.RemoveReceiver();
      }
    }
    /** The sender VideoStreamActivity.exit makes exit: the first one, when it is the only participant. */
    method FindLoneSender(server: Server) returns (sender: Option<Participant>)
      requires server.Closed() && this in server.activities
      ensures server.Closed()
      ensures sender.Some? <==> LoneSender(participants)
      ensures sender.Some? ==> sender.value.role.name == RoleSender && sender.value in server.participants
                               && participants == map[sender.value.participantId := sender.value]
    {
      sender := FindWithRole(participants, RoleSender);
      if sender.Some? && |participants| == 1 {
        assert server.ActivitiesClosed();
        SingletonMap(participants, sender.value.participantId);
      } else {
        sender := None;
      }
    }

    /**
     * VideoStreamActivity.exit applied to a sender that is the only
     * participant: it exits, its robot is told to stop streaming, and the
     * now empty activity's channel is closed.
     */
    method ExitLoneSender(server: Server, s: Participant, ghost watched: Session, ghost id: string)
      requires server.Closed() && this in server.activities && s in server.participants
      requires participants == map[s.participantId := s] && s.role.name == RoleSender
      modifies this`participants, s.session`activities, server.dir`log, server.channels`receiver
      modifies server.channelManager`channels, this`channel
      ensures server.Closed()
      ensures participants == map[] && channel == null
      ensures old(channel) == null ==> server.dir.log == old(server.dir.log)
      ensures old(channel) != null ==>
        server.channelManager.channels == old(server.channelManager.channels) - {old(channel).channelId}
        && server.dir.log == old(server.dir.log) + [VideoNotice(s.session.user.username, StopStreamInstruction(old(channel).channelId))]
      ensures StaysUnregistered(watched, id)
    {
      var _, notified := BaseExit(server, s);
      KeyOrderSize(notified, participants);
      StopAndClose(server, s);
    }

    /** The end of a sender's exit from an empty activity: stop the stream, close the channel. */
    method StopAndClose(server: Server, s: Participant)
      requires server.Closed() && this in server.activities && s.role.name == RoleSender
      modifies server.dir`log, server.channels`receiver, server.channelManager`channels, this`channel
      ensures server.Closed() && channel == null
      ensures old(channel) == null ==> server.dir.log == old(server.dir.log)
      ensures old(channel) != null ==>
        server.channelManager.channels == old(server.channelManager.channels) - {old(channel).channelId}
        && server.dir.log == old(server.dir.log) + [VideoNotice(s.session.user.username, StopStreamInstruction(old(channel).channelId))]
    {
      StopOrDetach(server, s);
      if channel != null {
        CloseChannel(server);
      }
    }
    /**
     * The end of VideoStreamActivity.exit: an empty activity's channel is
     * closed; otherwise a sender left alone exits, and its user is sent
     * ExitActivity on its behalf.
     */
    method WindDown(server: Server, ghost watched: Session, ghost id: string) returns (ghost sender: Option<Participant>)
      requires server.Closed() && this in server.activities
      modifies this`participants, server.sessions`activities, server.dir`log, server.channels`receiver
      modifies server.channelManager`channels, this`channel
      ensures server.Closed() && WoundDown(participants, channel)
      ensures old(server.dir.log) <= server.dir.log
      ensures sender.Some? <==> LoneSender(old(participants))
      ensures sender.None? ==> participants == old(participants) && server.dir.log == old(server.dir.log)
      ensures sender.Some? ==> old(participants) == map[sender.value.participantId := sender.value] && participants == map[]
                               && |server.dir.log| > 0 && server.dir.log[|server.dir.log| - 1] == Notice(sender.value.session.user, ExitEventOf(sender.value))
      ensures old(channel) != null && channel == null ==>
        server.channelManager.channels == old(server.channelManager.channels) - {old(channel).channelId}
      ensures StaysUnregistered(watched, id)
    {
      sender := None;
      if |participants| == 0 && channel != null {
        CloseChannel(server);
        return;
      }
      var lone := FindLoneSender(server);
      if lone.Some? {
        sender := lone;
        SenderExitsAndIsTold(server, lone.value, watched, id);
      }
    }

    /** The lone sender exits; then its user is told so. */
    method SenderExitsAndIsTold(server: Server, s: Participant, ghost watched: Session, ghost id: string)
      requires server.Closed() && this in server.activities && s in server.participants
      requires participants == map[s.participantId := s] && s.role.name == RoleSender
      modifies this`participants, server.sessions`activities, server.dir`log, server.channels`receiver
      modifies server.channelManager`channels, this`channel
      ensures server.Closed()
      ensures participants == map[] && channel == null
      ensures old(channel) != null ==>
        server.channelManager.channels == old(server.channelManager.channels) - {old(channel).channelId}
      ensures old(server.dir.log) < server.dir.log
      ensures server.dir.log[|server.dir.log| - 1] == Notice(s.session.user, ExitEventOf(s))
      ensures StaysUnregistered(watched, id)
    {
      assert s.session in server.sessions by { assert server.ParticipantsClosed(); }
      ExitLoneSender(server, s, watched, id);
      s.session.user.UserEvent(server, ExitEventOf(s));
    }

    /**
     * VideoStreamActivity.exit: Activity.exit; then the step for the exiting
     * participant's role and the wind-down. A sender exiting with no
     * channel is told nothing (the source dereferences the missing channel).
     */
    method VideoStreamExit(server: Server, p: Participant) returns (removed: bool, ghost notified: seq<string>)
      requires server.Closed() && this in server.activities && p in server.participants
      modifies this`participants, server.sessions`activities, server.dir`log, server.channels`receiver
      modifies server.channelManager`channels, this`channel
      ensures server.Closed()
      ensures old(server.dir.log) <= server.dir.log
      ensures removed <==> p.participantId in old(participants)
      ensures removed ==> Unregistered(p.session, p.participantId)
      ensures removed ==> IsKeyOrder(notified, old(participants) - {p.participantId})
                          && old(server.dir.log) + NoticesTo(notified, old(participants) - {p.participantId}, ExitEventOf(p)) <= server.dir.log
      ensures !removed ==> participants == old(participants) && channel == old(channel) && server.dir.log == old(server.dir.log)
      ensures Submap(participants, old(participants) - {p.participantId})
      ensures removed ==> WoundDown(participants, channel)
    {
      assert p.session in server.sessions by { assert server.ParticipantsClosed(); }
      removed, notified := BaseExit(server, p);
      if removed {
        AfterVideoExit(server, p);
      }
    }

    /** VideoStreamActivity.exit once the participant has left: its role's step, then the wind-down. */
    method AfterVideoExit(server: Server, p: Participant)
      requires server.Closed() && this in server.activities
      modifies this`participants, server.sessions`activities, server.dir`log, server.channels`receiver
      modifies server.channelManager`channels, this`channel
      ensures server.Closed()
      ensures old(server.dir.log) <= server.dir.log
      ensures Submap(participants, old(participants)) && WoundDown(participants, channel)
      ensures p.role.name == RoleSender && old(channel) != null ==>
        |old(server.dir.log)| < |server.dir.log|
        && server.dir.log[|old(server.dir.log)|] == VideoNotice(p.session.user.username, StopStreamInstruction(old(channel).channelId))
      ensures StaysUnregistered(p.session, p.participantId)
    {
      StopOrDetach(server, p);
      ghost var stopped := server.dir.log;
      ghost var sender := WindDown(server, p.session, p.participantId);
      if p.role.name == RoleSender && old(channel) != null {
        assert server.dir.log[|old(server.dir.log)|] == stopped[|old(server.dir.log)|];
      }
    }
    /** exit, seen from the participant that leaves: it is gone from the activity and from its session. */
    method Leave(server: Server, p: Participant)
      requires server.Closed() && this in server.activities && p in server.participants
      modifies this`participants, server.sessions`activities, server.dir`log, server.dir`links, server.dir`paths
      modifies server.channels`receiver, server.channelManager`channels, this`channel
      ensures server.Closed()
      ensures old(server.dir.log) <= server.dir.log
      ensures Submap(participants, old(participants) - {p.participantId})
      ensures p.participantId in old(participants) ==> Unregistered(p.session, p.participantId)
    {
      var _, _ := Exit(server, p);
    }

    /**
     * exit, dispatched on the kind: Activity.exit, or the ControlActivity,
     * WebRtcActivity or VideoStreamActivity override.
     */
    method Exit(server: Server, p: Participant) returns (removed: bool, ghost notified: seq<string>)
      requires server.Closed() && this in server.activities && p in server.participants
      modifies this`participants, server.sessions`activities, server.dir`log, server.dir`links, server.dir`paths
      modifies server.channels`receiver, server.channelManager`channels, this`channel
      ensures server.Closed()
      ensures old(server.dir.log) <= server.dir.log
      ensures removed <==> p.participantId in old(participants)
      ensures removed ==> Unregistered(p.session, p.participantId)
      ensures removed ==> IsKeyOrder(notified, old(participants) - {p.participantId})
                          && old(server.dir.log) + NoticesTo(notified, old(participants) - {p.participantId}, ExitEventOf(p)) <= server.dir.log
      ensures definition.kind in {Plain, WebRtc} ==> participants == old(participants) - {p.participantId}
      ensures definition.kind in {Plain, WebRtc} && removed ==>
        p.session.activities == old(p.session.activities) - {p.participantId}
        && server.dir.log == old(server.dir.log) + NoticesTo(notified, old(participants) - {p.participantId}, ExitEventOf(p))
      ensures Submap(participants, old(participants) - {p.participantId})
      ensures definition.kind == Control && removed ==> Attended(participants)
      ensures definition.kind == VideoStream && removed ==> WoundDown(participants, channel)
    {
      assert p.session in server.sessions by { assert server.ParticipantsClosed(); }
      match definition.kind {
        case Plain =>
          removed, notified := BaseExit(server, p);
        case Control =>
          ghost var denied;
          removed, denied, notified := ControlExit(server, p);
        case WebRtc =>
          ghost var destroyed;
          removed, destroyed, notified := WebRtcExit(server, p);
        case VideoStream =>
          removed, notified := VideoStreamExit(server, p);
      }
    }
  }
}
