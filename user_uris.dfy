/**
 * Per-user directory paths and event URIs, and the directory operations
 * built on them: creating a user's event paths, the private topic of a
 * WebRTC call, and granting a controller access to a robot.
 */
module UserUris {
  import opened Wrappers
  import opened Strings
  import opened UserEvents
  import opened Transport

  const Host: string := "general.ai"
  const EventsBasePath: string := "/events"
  const SessionPingTopic: string := EventsBasePath + "/session/ping"
  const SessionPongTopic: string := EventsBasePath + "/session/pong"
  const UserEventTopic: string := EventsBasePath + "/user_event"
  const WebRtcEventBasePath: string := EventsBasePath + "/webrtc"
  const RobotBasePath: string := "/robot"
  const RobotControlPingTopic: string := RobotBasePath + "/control/ping"
  const RobotControlPongTopic: string := RobotBasePath + "/control/pong"
  const RobotBaseVelocityTopic: string := RobotBasePath + "/base/velocity"
  const RobotVideoTopic: string := RobotBasePath + "/video"
  const RobotVideoPanTiltTopic: string := RobotBasePath + "/video/panTilt"
  const RobotSystemInfoRequestTopic: string := RobotBasePath + "/system/info/request"
  const RobotSystemInfoResponseTopic: string := RobotBasePath + "/system/info/response"
  const AdminExecutePackageTopic: string := "/admin/execute"

  /** Length of the random part of a WebRTC P2P topic. */
  const P2PRandomLength: nat := 16

  /** userHomePath: "/user/" + username + "/home". */
  function UserHomePath(username: string): string {
    "/user/" + username + "/home"
  }

  /** fullEventPath: the home path followed by the topic. */
  function FullEventPath(username: string, topic: string): string {
    UserHomePath(username) + topic
  }

  /** createEventUri: wamp scheme, the username as user information, the server host, the topic as path. */
  function EventUri(username: string, topic: string): Uri {
    Uri("wamp", username, Host, topic)
  }

  /** The character of a full event path just after "/user/" and k characters of the username. */
  lemma FullEventPathAt(u: string, t: string, k: nat)
    ensures k < |u| ==> FullEventPath(u, t)[6 + k] == u[k]
    ensures k == |u| ==> FullEventPath(u, t)[6 + k] == '/'
  {
  }

  /**
   * For usernames without '/', distinct users have distinct full event
   * paths, and the topic can be read back from a full path.
   */
  lemma FullEventPathInjective(u1: string, t1: string, u2: string, t2: string)
    requires '/' !in u1 && '/' !in u2
    ensures FullEventPath(u1, t1) == FullEventPath(u2, t2) <==> u1 == u2 && t1 == t2
  {
    var p1 := FullEventPath(u1, t1);
    var p2 := FullEventPath(u2, t2);
    if p1 == p2 {
      // the '/' of "/home" ends the username in both paths
      if |u1| < |u2| {
        FullEventPathAt(u1, t1, |u1|);
        FullEventPathAt(u2, t2, |u1|);
        assert false;
      } else if |u2| < |u1| {
        FullEventPathAt(u1, t1, |u2|);
        FullEventPathAt(u2, t2, |u2|);
        assert false;
      }
      assert u1 == p1[6..6 + |u1|];
      assert u2 == p2[6..6 + |u2|];
      assert t1 == p1[6 + |u1| + 5..];
      assert t2 == p2[6 + |u2| + 5..];
    }
  }

  /** The topics whose paths createEventPathsForUser creates: four for everyone, eight more for robots. */
  function EventTopicsFor(userType: UserType): (r: seq<string>)
    ensures |r| == if userType == Robot then 12 else 4
  {
    var common := [SessionPingTopic, SessionPongTopic, UserEventTopic, WebRtcEventBasePath];
    if userType == Robot then
      common + [RobotControlPingTopic, RobotControlPongTopic, RobotBaseVelocityTopic, RobotVideoTopic,
                RobotVideoPanTiltTopic, RobotSystemInfoRequestTopic, RobotSystemInfoResponseTopic,
                AdminExecutePackageTopic]
    else common
  }

  /** createEventPathsForUser: creates the full path of every topic of the user's type. */
  method CreateEventPathsForUser(dir: Directory, username: string, userType: UserType)
    modifies dir`paths
    ensures dir.paths == old(dir.paths) + set t | t in EventTopicsFor(userType) :: FullEventPath(username, t)
  {
    var topics := EventTopicsFor(userType);
    var i := 0;
    while i < |topics|
      invariant 0 <= i <= |topics|
      invariant dir.paths == old(dir.paths) + set t | t in topics[..i] :: FullEventPath(username, t)
    {
      dir.CreatePath(FullEventPath(username, topics[i]));
      assert topics[..i + 1] == topics[..i] + [topics[i]];
      i := i + 1;
    }
    assert topics[..i] == topics;
  }

  /** Robot-only topics get a path only for robots. */
  lemma RobotPathsOnlyForRobots(userType: UserType)
    ensures RobotVideoTopic in EventTopicsFor(userType) <==> userType == Robot
    ensures AdminExecutePackageTopic in EventTopicsFor(userType) <==> userType == Robot
    ensures UserEventTopic in EventTopicsFor(userType)
  {
    if userType != Robot {
      assert EventTopicsFor(userType) == [SessionPingTopic, SessionPongTopic, UserEventTopic, WebRtcEventBasePath];
      assert RobotVideoTopic[1] != SessionPingTopic[1];
      assert AdminExecutePackageTopic[1] != SessionPingTopic[1];
    } else {
      assert EventTopicsFor(userType)[7] == RobotVideoTopic;
      assert EventTopicsFor(userType)[11] == AdminExecutePackageTopic;
    }
  }

  /** The directory path of a call's private topic, under the caller's WebRTC events. */
  function P2PTopicPath(caller: string, topic: string): string {
    FullEventPath(caller, WebRtcEventBasePath) + topic
  }

  /** The link that lets the callee reach the call's private topic. */
  function P2PLink(caller: string, callee: string, topic: string): Link {
    Link(FullEventPath(callee, WebRtcEventBasePath), P2PTopicPath(caller, topic))
  }

  /** The topic name handed to the clients for a topic "/p2p" + random. */
  function P2PTopicName(random: string): string {
    "event:webrtc" + "/p2p" + random
  }

  /**
   * createWebRtcP2PTopic: with `random` the 16 random characters, creates
   * the topic's path under the caller, links the callee to it, and returns
   * the topic in the client's event notation.
   */
  method CreateWebRtcP2PTopic(dir: Directory, caller: string, callee: string, random: string) returns (p2pTopic: string)
    requires |random| == P2PRandomLength
    modifies dir`paths, dir`links
    ensures p2pTopic == P2PTopicName(random)
    ensures dir.paths == old(dir.paths) + {P2PTopicPath(caller, "/p2p" + random)}
    ensures dir.links == old(dir.links) + multiset{P2PLink(caller, callee, "/p2p" + random)}
  {
    var topic := "/p2p" + random;
    var fullPath := FullEventPath(caller, WebRtcEventBasePath) + topic;
    dir.CreatePath(fullPath);
    dir.AddLink(FullEventPath(callee, WebRtcEventBasePath), fullPath);
    return "event:webrtc" + topic;
  }

  /** The topic destroyWebRtcP2PTopic tears down: the suffix from the last '/', or none. */
  function P2PTopicOf(p2pTopic: string): (r: Option<string>)
    ensures r.Some? ==> |r.value| >= 1 && r.value[0] == '/' && '/' !in r.value[1..]
    ensures r.None? <==> '/' !in p2pTopic
  {
    var i := LastIndexOf(p2pTopic, '/');
    if i < 0 then None else Some(p2pTopic[i..])
  }

  /**
   * destroyWebRtcP2PTopic: nothing without a '/'; otherwise unlinks the
   * callee from the topic path under the caller and removes that path.
   */
  method DestroyWebRtcP2PTopic(dir: Directory, p2pTopic: string, caller: string, callee: string)
    modifies dir`paths, dir`links
    ensures P2PTopicOf(p2pTopic).None? ==> dir.paths == old(dir.paths) && dir.links == old(dir.links)
    ensures P2PTopicOf(p2pTopic).Some? ==>
      var topic := P2PTopicOf(p2pTopic).value;
      dir.paths == old(dir.paths) - {P2PTopicPath(caller, topic)}
      && dir.links == old(dir.links) - multiset{P2PLink(caller, callee, topic)}
  {
    var topicIndex := LastIndexOf(p2pTopic, '/');
    if topicIndex < 0 {
      return;
    }
    var topic := p2pTopic[topicIndex..];
    var fullPath := FullEventPath(caller, WebRtcEventBasePath) + topic;
    dir.RemoveLink(FullEventPath(callee, WebRtcEventBasePath), fullPath);
    dir.RemovePath(fullPath);
  }

  /**
   * Destroying a created topic tears down exactly what creating it set up,
   * provided the random part holds no '/'.
   */
  lemma DestroyFindsCreatedTopic(random: string)
    requires '/' !in random
    ensures P2PTopicOf(P2PTopicName(random)) == Some("/p2p" + random)
  {
    var name := P2PTopicName(random);
    var i := LastIndexOf(name, '/');
    assert name[12] == '/';
    assert forall j :: 12 < j < |name| ==> name[j] == ("/p2p" + random)[j - 12];
    assert i == 12;
    assert name[12..] == "/p2p" + random;
  }

  /** The link a control grant adds: the controller's events reach the robot's control topics. */
  function ControlLink(robot: string, controller: string): Link {
    Link(FullEventPath(controller, EventsBasePath), FullEventPath(robot, RobotBasePath))
  }

  /** grantRobotControlAccess. */
  method GrantRobotControlAccess(dir: Directory, robot: string, controller: string)
    modifies dir`links
    ensures dir.links == old(dir.links) + multiset{ControlLink(robot, controller)}
  {
    dir.AddLink(FullEventPath(controller, EventsBasePath), FullEventPath(robot, RobotBasePath));
  }

  /** denyRobotControlAccess: removes one link, the same one a grant adds. */
  method DenyRobotControlAccess(dir: Directory, robot: string, controller: string)
    modifies dir`links
    ensures dir.links == old(dir.links) - multiset{ControlLink(robot, controller)}
  {
    dir.RemoveLink(FullEventPath(controller, EventsBasePath), FullEventPath(robot, RobotBasePath));
  }

  /** A deny after a grant for the same pair restores the links. */
  lemma DenyUndoesGrant(links: multiset<Link>, robot: string, controller: string)
    ensures (links + multiset{ControlLink(robot, controller)}) - multiset{ControlLink(robot, controller)} == links
  {
  }
}
