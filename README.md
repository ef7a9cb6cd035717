# Interbot server: activity and session engine, in Dafny

This project models the core of the Interbot (WebCat) server. Users log in
through sessions, from web browsers or from robot clients. Sessions start
activities (remote control of a robot, a WebRTC call, a video stream) and
join them as participants in roles. Participants invite friends into their
activities, and the invited users accept or reject. Every change is
announced to the users concerned as events published on their topics.

The model covers these parts:

- `web.dfy` (module `Web`): the engine's objects as classes whose methods
  change their fields in place, as the Java classes do. These are
  `Session`, `Participant`, `Activity` (one class for the plain, control,
  WebRTC and video stream kinds, dispatched on the definition's kind),
  `Invitation`, `InvitationList`, `User` (human and robot), `UserManager`,
  `VideoChannel` and `VideoChannelManager`.
  - One `Server` object holds the singletons. It also keeps a ghost record
    of the live objects. `Server.Closed()` says that references between
    live objects stay inside that record. Every operation keeps it.
  - The message directory is a `Directory` (module `Transport`). It holds
    the log of publications, the access links between topics, and the
    created paths. Contracts state which publications an operation
    appends, to whom and in what order. They state it exactly except where
    a cascade follows, and except for the members listed under "Left out".
    After a cascade they state the publications it starts with.
  - A Java `HashMap` is iterated in an unspecified order. Where the
    source iterates the participants of an activity, a session's
    activities or a list of invitations, the model lets the order be any
    enumeration of the keys, so what it proves holds for every order. A
    client type's capabilities are the exception: they are kept in the
    order they were added (see "Left out").
- `authorization.dfy` (module `Authorization`): roles, activity definitions,
  capabilities, client types and the activity manager's registry.
- `invitation_result.dfy`, `user_events.dfy`, `user_uris.dfy` and
  `video_instruction.dfy`: the values the engine sends, and the topic
  names and paths it uses.
- `tasks.dfy` (module `Tasks`): the task manager's queue, ordered by due
  time, and its drain step. One round of the manager's loop, which runs
  the drained system-info requests, is `RunTaskRound` in `web.dfy`.
- `validation.dfy`: `UserDB.checkString` and the browser-side form check
  in `valid.js`.
- `strings.dfy`: the string and number operations the source takes from
  the Java library, with their properties.
- `ping.dfy`, `pan_tilt.dfy`, `profiles.dfy` and `http_response.dfy`: the
  ping service, the phone test on user agents, and the robot client's
  pan-tilt configuration, user profiles and multipart HTTP response
  reader.

Random strings, the clock and the user database enter as parameters:
- `RandomString` returns some string of the requested length;
- the current time is an argument;
- `UserDatabase` is a value answering the queries the engine makes.

## Model

| member | source | states |
|---|---|---|
| Authorization.AddRoleKeysByName | server/src/java/ai/general/web/ActivityDefinition.java:47-49 | after addRole the added role answers its own name, every other name answers as before, and roles stay keyed by their names |
| Authorization.HasRoleIffGetRole | server/src/java/ai/general/web/ActivityDefinition.java:57-69 | hasRole holds exactly when getRole finds a role, and the role found carries the name asked for |
| Authorization.BuiltInRoles | server/src/java/ai/general/web/ControlActivityDefinition.java:26-30 | the three built-in definitions have exactly the roles controller/robot, caller/callee and sender/receiver, with the active and passive flags the definitions give them |
| Authorization.CapabilityNameSplits | server/src/java/ai/general/web/Capability.java:115-117 | a capability name is the definition name, then '#', then the role name |
| Authorization.CapabilityNamed | server/src/java/ai/general/web/Capability.java:34-46 | the name-based constructor succeeds exactly when the registry holds the definition and the definition holds the role; otherwise it fails with the message for the missing definition or the missing role |
| Authorization.HasActivityRole | server/src/java/ai/general/web/Capability.java:69-81 | true exactly when some capability in the list names both the definition and the role |
| Authorization.PassiveCapabilityInfos | server/src/java/ai/general/web/Capability.java:97-106 | the result holds exactly the infos of the capabilities whose role is passive, and is no longer than the input |
| Authorization.PassiveCapabilityInfosAppend | server/src/java/ai/general/web/Capability.java:97-106 | the passive infos of a concatenation are the concatenation of the passive infos, so the input order is kept |
| Authorization.AddCapabilityKeysByName | server/src/java/ai/general/web/ClientType.java:44-46 | after addCapability the capability answers its name, every other name answers as before, names stay distinct, and the list grows exactly when the name is new |
| Authorization.HasCapabilityIffGetCapability | server/src/java/ai/general/web/ClientType.java:54-67 | hasCapability holds exactly when getCapability finds a capability, and that capability has the name asked for |
| Authorization.BuiltInCapabilities | server/src/java/ai/general/web/WebClientType.java:24-34 | each capability the client types look up by definition and role name is the one with that definition and the role of that definition |
| Authorization.WebClientCapabilities | server/src/java/ai/general/web/WebClientType.java:24-34 | the web client grants exactly controller, caller, callee and receiver, listed in the order they are added, and only callee is passive |
| Authorization.InterbotClientCapabilities | server/src/java/ai/general/web/InterbotClientType.java:24-28 | the robot client grants only the passive robot role of control activities, so it has no role in any other definition |
| Authorization.ActivityManager.constructor | server/src/java/ai/general/web/ActivityManager.java:22-25 | the new registry holds exactly the three built-in definitions |
| Authorization.ActivityManager.AddActivityDefinition | server/src/java/ai/general/web/ActivityManager.java:42-44 | stores the definition under its own name, replacing any definition of that name |
| Authorization.RegistryLookup | server/src/java/ai/general/web/ActivityManager.java:52-65 | hasActivityDefinition holds exactly when getActivityDefinition finds a definition, and the definition found is the one stored under that name |
| Authorization.BuiltInRegistry | server/src/java/ai/general/web/ActivityManager.java:70-74 | after construction the registry knows exactly the control, webrtc and videostream names, each stored under its own name with its own activity kind |
| InvitationResults.ResultFieldsByResponse | server/src/java/ai/general/web/InvitationResult.java:45-94 | reject carries its reason and no id, pending carries the invitation id and no reason, accept carries the extra data when given, and the three kinds of answer never coincide |
| Ping.Ping | server/src/java/ai/general/web/ping/PingService.java:24-27 | the reply is "ping:" followed by the client message cut to its first 256 characters |
| Ping.PingBounds | server/src/java/ai/general/web/ping/PingService.java:24-27 | a reply is at most 261 characters; a message of up to 256 characters comes back whole and a longer one comes back as its first 256 |
| Ping.IsPhone | server/src/java/ai/general/web/SessionManager.java:34-37 | true exactly when there is a user agent and "Mobile" or "iPhone" occurs somewhere in it |
| Ping.IsPhoneFindsMarker | server/src/java/ai/general/web/SessionManager.java:34-37 | a marker is found wherever it stands in the user agent, and a missing user agent is no phone |
| Ping.ShortUserAgentIsNoPhone | server/src/java/ai/general/web/SessionManager.java:34-37 | a user agent shorter than both markers is never a phone |
| PanTilt.InstructionsHaveOwnConfigs | client/src/ai/general/interbot/video/PanTiltConfig.java:207-261 | setting one instruction's configuration is seen by findInstructionConfig for that instruction only, and the URL is kept |
| PanTilt.BeginUrl | client/src/ai/general/interbot/video/PanTiltConfig.java:106-115 | empty exactly when the instruction has no begin command; otherwise the URL followed by the begin command |
| PanTilt.EndUrl | client/src/ai/general/interbot/video/PanTiltConfig.java:136-145 | empty exactly when the instruction has no end command; otherwise the URL followed by the end command |
| PanTilt.PanTiltUrls | client/src/ai/general/interbot/video/PanTiltConfig.java:91-145 | the default configuration commands nothing and takes no time; a configured begin command goes to the controller's URL, and with no end command the end URL is empty |
| Profiles.IndexOfProfile | client/src/ai/general/interbot/UserProfiles.java:94-101 | the index found holds a profile of that name and no earlier profile has the name; none means no profile has the name |
| Profiles.UserProfiles.constructor | client/src/ai/general/interbot/UserProfiles.java:21-24 | a new collection has no profiles and no default |
| Profiles.UserProfiles.FindProfile | client/src/ai/general/interbot/UserProfiles.java:94-101 | finds a profile exactly when some profile has the name, and the profile found is in the list with that name |
| Profiles.UserProfiles.DefaultProfile | client/src/ai/general/interbot/UserProfiles.java:61-69 | the profile named as default when one is named; otherwise the first profile, or none when there are none |
| Profiles.UserProfiles.AddProfile | client/src/ai/general/interbot/UserProfiles.java:46-52 | appends the profile exactly when no profile has its name, leaves the list alone otherwise, and keeps names distinct |
| Profiles.UserProfiles.DeleteProfile | client/src/ai/general/interbot/UserProfiles.java:80-86 | removes the first profile with the name and nothing else; an unknown name changes nothing; with distinct names the name is gone afterwards |
| Profiles.UserProfiles.SetDefault | client/src/ai/general/interbot/UserProfiles.java:136-138 | the default name becomes the given name |
| Profiles.UserProfiles.SetProfiles | client/src/ai/general/interbot/UserProfiles.java:146-148 | the profile list becomes the given list |
| Profiles.DeleteUndoesAdd | client/src/ai/general/interbot/UserProfiles.java:46-86 | deleting the name of a just-added new profile gives back the list from before the add |
| VideoInstructions.SetInstruction | server/src/java/ai/general/web/video/VideoInstruction.java:88-94 | the instruction becomes the one of that name, or Undefined for an unknown name; the service path and channel are kept |
| VideoInstructions.SetInstructionByName | server/src/java/ai/general/web/video/VideoInstruction.java:59-94 | setting an instruction by its own name gives that instruction, an unknown name gives Undefined, and the start and stop instructions for a channel differ |
| Validation.CheckString | server/src/java/ai/general/web/UserDB.java:243-252 | accepts exactly a non-null string of at most 64 valid characters that contains no "--" and no "delimiter" in any letter case |
| Validation.CheckFormString | server/src/js/valid.js:19-30 | accepts exactly a string of 1 to 64 valid characters |
| Validation.SqlSafeHasNoQueryMetacharacters | server/src/java/ai/general/web/UserDB.java:243-252 | a string the server accepts holds no quote, blank, semicolon, slash or star |
| Validation.EmptyStringValidatorsDisagree | server/src/js/valid.js:19-30 | the server accepts the empty string and the web form refuses it |
| Validation.SqlSafeNonEmptyIsFormValid | server/src/js/valid.js:19-30 | a non-empty string the server accepts is also accepted by the web form |
| Validation.FormLacksWordChecks | server/src/js/valid.js:19-30 | the web form accepts "a--b" and "DELIMITER", which the server refuses |
| Validation.ValidatorsDifferOnlyByWords | server/src/java/ai/general/web/UserDB.java:243-252 | on non-empty strings the server accepts exactly what the form accepts minus the strings holding "--" or "delimiter" |
| Strings.IndexOfFrom | server/src/java/ai/general/web/UserDB.java:249-250 | the index found holds an occurrence at or after the start, and no earlier index from the start holds one; -1 means there is none |
| Strings.ContainsIffOccurs | server/src/java/ai/general/web/SessionManager.java:34-37 | indexOf finds the substring exactly when it occurs at some index |
| Strings.LastIndexOf | server/src/java/ai/general/web/UserUris.java:163-171 | the index found holds the character and no later index holds it; -1 means it does not occur |
| Strings.ToLower | server/src/java/ai/general/web/UserDB.java:250 | the result has the input's length and lower-cases each ASCII letter in place |
| Strings.TrimStart | client/src/ai/general/interbot/video/HttpResponse.java:103-105 | removes exactly the leading characters up to blank, and what is left does not start with one |
| Strings.TrimEnd | client/src/ai/general/interbot/video/HttpResponse.java:103-105 | removes exactly the trailing characters up to blank, and what is left does not end with one |
| Strings.SplitAll | client/src/ai/general/interbot/video/HttpResponse.java:322-333 | at least one piece, and no piece holds the separator |
| Strings.JoinSplitAll | client/src/ai/general/interbot/video/HttpResponse.java:322-333 | joining the pieces with the separator gives the original string back |
| Strings.SplitAllAfterPiece | client/src/ai/general/interbot/video/HttpResponse.java:322-333 | a piece without the separator followed by the separator splits off as the first piece |
| Strings.DropTrailingEmpty | client/src/ai/general/interbot/video/HttpResponse.java:322-333 | keeps a prefix of the pieces, drops only empty pieces, and ends with a non-empty piece when any is left |
| Strings.TrimAfterBlank | client/src/ai/general/interbot/video/HttpResponse.java:103-105 | trim removes one leading blank in front of a string with non-blank ends and nothing else |
| Strings.ParseInt | client/src/ai/general/interbot/video/HttpResponse.java:322-333 | a parsed value always fits in an int |
| Strings.NatToString | server/src/java/ai/general/web/Activity.java:40-43 | the rendering is a non-empty string of decimal digits |
| Strings.DigitsValueOfNatToString | server/src/java/ai/general/web/Activity.java:40-43 | reading a rendered number back gives the number |
| Strings.NatToStringInjective | server/src/java/ai/general/web/Activity.java:40-43 | different counts render differently, so ids that differ in their count part differ |
| Strings.ParseIntOfIntToString | client/src/ai/general/interbot/video/HttpResponse.java:322-333 | Integer.valueOf reads back every int that Integer.toString prints |
| Strings.NotAfterTotal | server/src/java/ai/general/web/User.java:784 | any two strings are ordered one way or the other in the natural order |
| Strings.NotAfterAntisymmetric | server/src/java/ai/general/web/User.java:784 | two strings ordered both ways are equal |
| Strings.NotAfterTransitive | server/src/java/ai/general/web/User.java:784 | the natural string order is transitive |
| Strings.Insert | server/src/java/ai/general/web/User.java:784 | inserting into a sorted list gives a sorted list holding the same strings plus the new one |
| Strings.Sort | server/src/java/ai/general/web/User.java:784 | Collections.sort gives the same strings, in their natural order |
| Strings.SortedFirstLeast | server/src/java/ai/general/web/User.java:784 | the first string of a sorted list comes after none of the others |
| Strings.SortedUnique | server/src/java/ai/general/web/User.java:784 | two sorted arrangements of the same strings are equal, so the sorted friend list does not depend on the database's order |
| Tasks.NewTaskDelay | server/src/java/ai/general/web/Task.java:29-60 | a new task's delay is exactly the requested delay, and it is due exactly once that much time has passed |
| Tasks.ToInt32 | server/src/java/ai/general/web/Task.java:43-49 | the (int) cast lands in the int range, is congruent to its input modulo 2^32, and leaves an int unchanged |
| Tasks.CompareToAsWrittenMisorders | server/src/java/ai/general/web/Task.java:43-49 | a task due 2^31 + 1 ms after another compares as greater-than-earlier: the cast flips the sign |
| Tasks.CompareToAsWrittenExactWhenClose | server/src/java/ai/general/web/Task.java:43-49 | while due times are less than 2^31 ms apart, the comparison as written is the exact difference |
| Tasks.CompareTo | server/src/java/ai/general/web/Task.java:43-49 | negative, zero or positive exactly when the first task is due before, together with, or after the second |
| Tasks.CompareToIsOrdering | server/src/java/ai/general/web/Task.java:43-49 | the corrected comparison is antisymmetric in sign and transitive |
| Tasks.CompareToAgreesWhenClose | server/src/java/ai/general/web/Task.java:43-49 | where the cast changes nothing, the comparison as written and the corrected one agree in sign |
| Tasks.InsertByDueAddsTask | server/src/java/ai/general/web/TaskManager.java:49-52 | putting a task into the queue adds exactly that task |
| Tasks.InsertByDueSorted | server/src/java/ai/general/web/TaskManager.java:49-52 | putting a task into a queue sorted by due time keeps it sorted |
| Tasks.NoDueAfterWaitingHead | server/src/java/ai/general/web/TaskManager.java:68-82 | when the head of the sorted queue is not due, no task is due and draining takes nothing |
| Tasks.DueAndWaitingPartition | server/src/java/ai/general/web/TaskManager.java:68-82 | draining splits the queue into due and waiting tasks without losing or adding any |
| Tasks.TaskManager.constructor | server/src/java/ai/general/web/TaskManager.java:29-34 | a new manager has an empty queue and an empty batch and is not running |
| Tasks.TaskManager.Schedule | server/src/java/ai/general/web/TaskManager.java:49-52 | the queue gains exactly the scheduled task and stays sorted by due time |
| Tasks.TaskManager.Halt | server/src/java/ai/general/web/TaskManager.java:60-62 | the loop is marked to stop |
| Tasks.TaskManager.Start | server/src/java/ai/general/web/TaskManager.java:68-69 | the loop is marked to run |
| Tasks.TaskManager.DrainDue | server/src/java/ai/general/web/TaskManager.java:72 | the batch gains the due tasks in queue order, and the queue keeps exactly the waiting tasks |
| Tasks.TaskManager.ClearBatch | server/src/java/ai/general/web/TaskManager.java:77 | the batch is emptied |
| UserEvents.ParseType | server/src/java/ai/general/web/UserEvent.java:285-291 | a name that is not the name of the type found gives Undefined |
| UserEvents.ParseTypeRoundTrip | server/src/java/ai/general/web/UserEvent.java:285-291 | setting a type by its own name gives that type back, and a name that is no type's gives Undefined |
| UserEvents.EventsCarryTheirArguments | server/src/java/ai/general/web/UserEvent.java:186-247 | join and exit events are equal exactly when their arguments are, a join never equals an exit, an invitation carries its invitation id third, and an accepting reply differs from a rejecting one |
| UserEvents.CapabilityUpdateLayout | server/src/java/ai/general/web/UserEvent.java:162-167 | the capability update carries one capability info per capability, in order |
| UserUris.FullEventPathInjective | server/src/java/ai/general/web/UserUris.java:72-85 | for usernames without '/', two full event paths are equal exactly when user and topic are |
| UserUris.EventTopicsFor | server/src/java/ai/general/web/UserUris.java:92-109 | four topics for every user and twelve for a robot |
| UserUris.CreateEventPathsForUser | server/src/java/ai/general/web/UserUris.java:92-109 | the directory gains exactly the full paths of the user type's topics |
| UserUris.RobotPathsOnlyForRobots | server/src/java/ai/general/web/UserUris.java:92-109 | the robot video and execute-package topics belong to robots only, and every user gets the user event topic |
| UserUris.CreateWebRtcP2PTopic | server/src/java/ai/general/web/UserUris.java:144-151 | creates the call's private path under the caller and links the callee to it, and returns "/p2p" + random as the topic name |
| UserUris.P2PTopicOf | server/src/java/ai/general/web/UserUris.java:163-171 | the part from the last '/', which starts with '/' and holds no other; none exactly when there is no '/' |
| UserUris.DestroyWebRtcP2PTopic | server/src/java/ai/general/web/UserUris.java:163-171 | removes the call's private path and one callee link; a topic without '/' changes nothing |
| UserUris.DestroyFindsCreatedTopic | server/src/java/ai/general/web/UserUris.java:144-171 | destroying finds exactly the topic that creating made |
| UserUris.GrantRobotControlAccess | server/src/java/ai/general/web/UserUris.java:183-186 | adds one link from the controller's events to the robot's control topics |
| UserUris.DenyRobotControlAccess | server/src/java/ai/general/web/UserUris.java:196-199 | removes one such link |
| UserUris.DenyUndoesGrant | server/src/java/ai/general/web/UserUris.java:183-199 | a deny after a grant for the same pair restores the links |
| HttpResponses.LineFrom | client/src/ai/general/interbot/video/HttpResponse.java:269-294 | the line read extends the part already collected by characters that are neither line feed nor carriage return, is at most one byte longer than the buffer, and what is left of the input is a suffix of it |
| HttpResponses.LineRead | client/src/ai/general/interbot/video/HttpResponse.java:269-294 | reading a line never grows the input, and a non-empty line consumes input |
| HttpResponses.LineFromRoundTrip | client/src/ai/general/interbot/video/HttpResponse.java:269-294 | a line of at most the buffer size without line control bytes, sent with "\r\n" or "\n", comes back whole and leaves the rest of the input |
| HttpResponses.ReadLineRoundTrip | client/src/ai/general/interbot/video/HttpResponse.java:269-294 | the same round trip for readLine starting from an empty line |
| HttpResponses.ResponseCodeOf | client/src/ai/general/interbot/video/HttpResponse.java:322-333 | the code is the current one, or the int in the second of more than two space-separated tokens |
| HttpResponses.StatusLineCode | client/src/ai/general/interbot/video/HttpResponse.java:322-333 | a status line "version code reason" yields its code |
| HttpResponses.StatusLineWithoutReason | client/src/ai/general/interbot/video/HttpResponse.java:322-333 | a status line "version code " without a reason phrase keeps the code unchanged, because split drops the trailing empty token |
| HttpResponses.PutHeader | client/src/ai/general/interbot/video/HttpResponse.java:345-355 | a line stores nothing, or stores the value after some ':' that is not the first character under the lower-cased name before it (which ':' is stated by `PutHeaderFirstColon`) |
| HttpResponses.PutHeaderFirstColon | client/src/ai/general/interbot/video/HttpResponse.java:348-352 | when the first ':' of a line stands at an index after the start, the value after it is stored under the lower-cased name before it; a line with no ':', or with ':' first, stores nothing |
| HttpResponses.PutHeaderLine | client/src/ai/general/interbot/video/HttpResponse.java:345-355 | a "Name:value" line stores the value under the lower-cased name, and a line without ':' stores nothing |
| HttpResponses.HeadersFrom | client/src/ai/general/interbot/video/HttpResponse.java:345-355 | reading headers never grows the input; what it reads from a whole header block is stated by `HeaderBlockRead` and `HeadersEndAtEmptyLine` |
| HttpResponses.HeadersEndAtEmptyLine | client/src/ai/general/interbot/video/HttpResponse.java:345-355 | the header block ends at the first empty line, and a closed connection reads no headers |
| HttpResponses.HeaderBlockRead | client/src/ai/general/interbot/video/HttpResponse.java:345-355 | header lines (non-empty, within the buffer, without CR or LF), each sent with "\r\n", then an empty line: the result is the headers after storing each line in order, and the input left is exactly what follows the empty line |
| HttpResponses.HeaderLineRead | client/src/ai/general/interbot/video/HttpResponse.java:347-354 | the first line of a header block is read back whole and stored, and reading goes on with the rest of the block |
| HttpResponses.ContentBoundary | client/src/ai/general/interbot/video/HttpResponse.java:85-94 | a non-empty boundary is the text after a "boundary=" standing after the start of the content type |
| HttpResponses.ContentBoundaryOfType | client/src/ai/general/interbot/video/HttpResponse.java:85-94 | a content type with a boundary parameter yields that boundary |
| HttpResponses.ContentLength | client/src/ai/general/interbot/video/HttpResponse.java:102-111 | -1 or an int; -1 when there is no length header or when its trimmed value does not parse; otherwise the parsed value |
| HttpResponses.ContentLengthOfHeader | client/src/ai/general/interbot/video/HttpResponse.java:102-111 | a length header " n" as a server sends it reads back as n |
| HttpResponses.BoundaryMarker | client/src/ai/general/interbot/video/HttpResponse.java:305-314 | the marker starts with "--" and ends with the boundary |
| HttpResponses.BoundaryMarkerIdempotent | client/src/ai/general/interbot/video/HttpResponse.java:305-314 | marking twice is marking once, and a marker has at least two bytes |
| HttpResponses.ScanBoundary | client/src/ai/general/interbot/video/HttpResponse.java:228-257 | a scan that finds the marker consumes at least one byte and no more than the input |
| HttpResponses.ScanSkipsToMarker | client/src/ai/general/interbot/video/HttpResponse.java:228-257 | what the scan skips ends with the whole marker, or is exactly the marker's unmatched part when no restart happened |
| HttpResponses.ScanEndsAfterMarker | client/src/ai/general/interbot/video/HttpResponse.java:228-257 | a scan from the start ends right after a whole marker |
| HttpResponses.ScanFindsLeadingMarker | client/src/ai/general/interbot/video/HttpResponse.java:228-257 | input that starts with the rest of the marker is cut right after it |
| HttpResponses.ScanRestartSkipsOverlap | client/src/ai/general/interbot/video/HttpResponse.java:228-257 | after a mismatch the scan does not look at the mismatching byte again, so "---b" never yields the marker "--b" |
| HttpResponses.HttpResponse.constructor | client/src/ai/general/interbot/video/HttpResponse.java:45-63 | without a connection nothing is read; with one, the response code is read from the first line, and the headers too exactly when the code is 200 |
| HttpResponses.HttpResponse.Close | client/src/ai/general/interbot/video/HttpResponse.java:68-75 | the connection is closed |
| HttpResponses.HttpResponse.ReadLine | client/src/ai/general/interbot/video/HttpResponse.java:269-294 | reads the next line from the input, or the empty line when the connection is closed |
| HttpResponses.HttpResponse.ReadResponseCode | client/src/ai/general/interbot/video/HttpResponse.java:322-333 | reads one line and sets the code it holds, keeping the old code when the line holds none |
| HttpResponses.HttpResponse.ReadResponseHeaders | client/src/ai/general/interbot/video/HttpResponse.java:345-355 | the headers and the input left are exactly those of `HeadersFrom` on the old input and headers, so `HeaderBlockRead` gives what a whole block stores |
| HttpResponses.HttpResponse.GetContentBoundarySequence | client/src/ai/general/interbot/video/HttpResponse.java:305-314 | the marker bytes are computed once from the content type and then served from the cache |
| HttpResponses.HttpResponse.ReadBinary | client/src/ai/general/interbot/video/HttpResponse.java:181-193 | copies the next count bytes into the frame; when the input ends first it copies what is there and fails; a closed connection reads nothing |
| HttpResponses.HttpResponse.SkipToBoundary | client/src/ai/general/interbot/video/HttpResponse.java:233-243 | consumes exactly the bytes the scan reads up to the end of the marker, or all input when there is no marker |
| HttpResponses.HttpResponse.ReadMatchedFrame | client/src/ai/general/interbot/video/HttpResponse.java:244-256 | skips the marker's line, reads the frame headers, and copies the frame when its length is positive and below the frame array's length; any other frame is skipped with size 0; input that ends early fails the read |
| HttpResponses.HttpResponse.ReadFrame | client/src/ai/general/interbot/video/HttpResponse.java:228-257 | a closed connection reads nothing; otherwise the scan finds the next marker (size 0 and all input consumed when there is none) and the frame after it is read as above; the marker is cached on first use |
| Web.GetUserType | server/src/java/ai/general/web/UserDB.java:283-298 | 0 for a name that is not SQL-safe and -1 for a safe name the database does not know |
| Web.LoadableNames | server/src/java/ai/general/web/User.java:780-796 | exactly the listed names that getUser finds, each only if listed |
| Web.KeyOrderSize | server/src/java/ai/general/web/Activity.java:95-97 | an iteration order of a map lists as many keys as the map has |
| Web.KeyOrder | server/src/java/ai/general/web/Activity.java:95-97 | a HashMap iteration order: every key exactly once, in an order left open |
| Web.FirstWithRole | server/src/java/ai/general/web/Participant.java:42-50 | the first participant whose role has the name, none exactly when no participant has it |
| Web.HasActivity | server/src/java/ai/general/web/Participant.java:71-79 | true exactly when some participant belongs to an activity of the definition |
| Web.FindWithRole | server/src/java/ai/general/web/Participant.java:42-50 | over a participant map in any iteration order: none exactly when no participant holds the role, otherwise a participant of the map that holds it |
| Web.ParticipantIdInjective | server/src/java/ai/general/web/Activity.java:90-92 | different counter values give different participant ids within one activity |
| Web.Server.CreateActivity | server/src/java/ai/general/web/Activity.java:28-43 | createActivity makes a fresh, empty activity of the definition whose id is a random part followed by the bumped activity count, and records it as live |
| Web.NotifyExitedInReverse | server/src/java/ai/general/web/ControlActivity.java:66-107 | the exit notices of robots removed by the cascade go out last one first, as the recursive exits send them |
| Web.NotifyParticipants | server/src/java/ai/general/web/Activity.java:95-97 | the event goes to the user of every participant of the map, once each, in some iteration order |
| Web.RequestSystemInfoRun | server/src/java/ai/general/web/RequestSystemInfoTask.java:39-53 | a robot that is online and has no properties is sent one request for its network interfaces; in every other case nothing is published |
| Web.RunTaskRound | server/src/java/ai/general/web/TaskManager.java:71-77 | the due tasks leave the queue, which keeps exactly the waiting ones; the batch is cleared; the publications are those of running the old batch and then the due tasks, in order |
| Web.RunBatch | server/src/java/ai/general/web/TaskManager.java:74-76 | running a batch publishes each task's request in batch order |
| Web.RunNext | server/src/java/ai/general/web/TaskManager.java:74-76 | running the next task appends its request after those of the earlier tasks |
| Web.BatchPublicationsAppend | server/src/java/ai/general/web/TaskManager.java:74-76 | running two parts of a batch publishes the first part's requests, then the second's |
| Web.BatchPublicationsStep | server/src/java/ai/general/web/TaskManager.java:74-76 | one more task's requests follow those of the tasks before it |
| Web.BatchPublicationsAreRequests | server/src/java/ai/general/web/RequestSystemInfoTask.java:39-51 | a round publishes at most one request per task, and each is a network-interface request to the robot of a task whose robot is online without properties |
| Web.NotifyUsers | server/src/java/ai/general/web/User.java:681-698 | each user in the list is sent the event on its own topic, in list order |
| Web.CountIsMultiplicity | server/src/java/ai/general/web/User.java:802-806 | the number of entries of a user in a list is its multiplicity in the list's multiset |
| Web.RemoveTimesCount | server/src/java/ai/general/web/User.java:802-806 | removing a user n times takes n copies of it away, or all copies when there are fewer |
| Web.RemoveFirstCount | server/src/java/ai/general/web/User.java:363-368 | List.remove takes out exactly one copy of the user when there is one, and leaves the list alone when there is none |
| Web.LoadNamed | server/src/java/ai/general/web/User.java:785-795 | the users found are exactly those getUser finds for the names, in the names' order; they are all live, and any user newly loaded is fresh and has no followers |
| Web.Session.constructor | server/src/java/ai/general/web/Session.java:31-37 | a new session of the user under that id and client type holds no participations |
| Web.Session.RegisterActivity | server/src/java/ai/general/web/Session.java:86-88 | afterwards the participant is found under its id, and every other id finds what it found before |
| Web.Session.UnregisterActivity | server/src/java/ai/general/web/Session.java:95-97 | afterwards nothing is found under the participant's id, and every other id finds what it found before |
| Web.Session.SetPongCount | server/src/java/ai/general/web/Session.java:148-150 | getPongCount returns the value set |
| Web.Session.ExitAllActivities | server/src/java/ai/general/web/Session.java:123-132 | every participation the session held when the call began has exited its activity; with none nothing is published |
| Web.Session.Participations | server/src/java/ai/general/web/Session.java:127-128 | the session's participations, each one listed, all of them live |
| Web.ExitEach | server/src/java/ai/general/web/Session.java:129-131 | each listed participant has left its activity |
| Web.FindSession | server/src/java/ai/general/web/Session.java:47-54 | the first session of the client type, none exactly when no session has it |
| Web.SessionWithId | server/src/java/ai/general/web/User.java:840-847 | the index of the first session with the id, none exactly when no session has it |
| Web.Participant.constructor | server/src/java/ai/general/web/Participant.java:26-32 | a new participant of the activity, session and role, with a fresh empty invitation list |
| Web.Participant.ExitActivity | server/src/java/ai/general/web/Participant.java:127-130 | every invitation the participant sent is cancelled and its list is empty; the publications are the old ones, then the cancel notices, then the exit's own; the participant is gone from its activity, which loses no one else apart from cascaded exits, and, when it was there, from its session |
| Web.InvitationList.Put | server/src/java/ai/general/web/Invitation.java:33-34 | stores the invitation under its id, replacing any entry under that id |
| Web.InvitationList.Remove | server/src/java/ai/general/web/Invitation.java:112-114 | removes the entry under the id and nothing else |
| Web.InvitationList.Snapshot | server/src/java/ai/general/web/InvitationList.java:27-28 | copies the list's invitations, each live and each listed once under its id |
| Web.InvitationList.CancelAll | server/src/java/ai/general/web/InvitationList.java:24-32 | every invitation of the list is cancelled, its cancel event is sent, and the list ends up empty |
| Web.InvitationList.CancelEach | server/src/java/ai/general/web/InvitationList.java:29-31 | each invitation in the snapshot is cancelled in order: its id leaves the list and its cancel event is sent |
| Web.InvitationList.RejectAll | server/src/java/ai/general/web/InvitationList.java:37-45 | every invitation of the list is rejected, its reply event is sent, and the list ends up empty |
| Web.InvitationList.RejectEach | server/src/java/ai/general/web/InvitationList.java:42-44 | each invitation in the snapshot is rejected in order: its id leaves the list and its reply event is sent |
| Web.CancelStep | server/src/java/ai/general/web/InvitationList.java:29-31 | cancelling one more invitation of the snapshot removes one more id and appends its cancel event |
| Web.RejectStep | server/src/java/ai/general/web/InvitationList.java:42-44 | rejecting one more invitation of the snapshot removes one more id and appends its reply event |
| Web.Invitation.constructor | server/src/java/ai/general/web/Invitation.java:27-35 | the new invitation is registered under its id in the inviter's and in the invitee's list, and is live |
| Web.Invitation.GetActivity | server/src/java/ai/general/web/Invitation.java:78-80 | the invitation's activity is its inviter's |
| Web.Invitation.Reply | server/src/java/ai/general/web/Invitation.java:122-126 | the id leaves the invitee's and the inviter's lists, and the inviter's user is sent one reply event carrying the answer; a second reply sends it again |
| Web.Invitation.Accept | server/src/java/ai/general/web/Invitation.java:95-97 | the reply with the answer true |
| Web.Invitation.Reject | server/src/java/ai/general/web/Invitation.java:103-105 | the reply with the answer false |
| Web.Invitation.Cancel | server/src/java/ai/general/web/Invitation.java:111-115 | the id leaves both lists, and the invitee is sent one cancel event naming the inviter |
| Web.SessionCapabilities | server/src/java/ai/general/web/User.java:140-142 | a capability is listed exactly when some session's client type grants it |
| Web.CameraCapability | server/src/java/ai/general/web/User.java:145-155 | the camera capability is the passive sender role of video streams |
| Web.CameraCapabilities | server/src/java/ai/general/web/User.java:145-155 | one camera capability per IP camera among the reported devices, and none exactly when no device is an IP camera |
| Web.User.constructor | server/src/java/ai/general/web/User.java:59-73 | a new user is offline, has no sessions, no friends loaded, no followers, no properties and an empty invitation list |
| Web.User.UserEvent | server/src/java/ai/general/web/User.java:633-637 | exactly one publication, the event on this user's own topic, is added |
| Web.User.Broadcast | server/src/java/ai/general/web/User.java:645-652 | the event goes to this user and then to each follower, in follower order |
| Web.User.SetStatus | server/src/java/ai/general/web/User.java:681-687 | the status is stored; an unchanged status notifies nobody, a changed one notifies each follower in order |
| Web.User.NotifyCapabilityUpdate | server/src/java/ai/general/web/User.java:693-698 | the passive capabilities go to this user's clients and then to each follower |
| Web.User.UpdateProperties | server/src/java/ai/general/web/User.java:645-652 | the keys are the union of old and new, new values win, untouched keys keep their values, and the merged map is broadcast |
| Web.User.ClearProperties | server/src/java/ai/general/web/User.java:658-665 | no property is left and the empty map is broadcast to the user and its followers |
| Web.User.Follow | server/src/java/ai/general/web/User.java:353-355 | the follower is appended to the followers |
| Web.User.Unfollow | server/src/java/ai/general/web/User.java:363-368 | only the first entry of the follower is removed (unloadUser then removes nothing) |
| Web.User.OnSessionPong | server/src/java/ai/general/web/User.java:619-624 | the session with that id is reset to the full pong count and every other session keeps its count |
| Web.User.FindFriend | server/src/java/ai/general/web/User.java:765-772 | nothing is found exactly when no friend has the name; otherwise it is the first friend with that name |
| Web.User.FollowFriends | server/src/java/ai/general/web/User.java:780-796 | the first login loads the sorted friend names that getUser can load, in order; each user then gains this user as follower once per time it is a friend |
| Web.User.LoadFriends | server/src/java/ai/general/web/User.java:781-792 | the loaded friends' names are the sorted database names that are loadable, in order; newly loaded friends have no followers |
| Web.User.FollowEach | server/src/java/ai/general/web/User.java:793-795 | each live user gains this user as follower once per time it is listed |
| Web.User.UnfollowFriends | server/src/java/ai/general/web/User.java:802-806 | each friend loses one entry of this user per time it is listed as friend |
| Web.User.BeginSession | server/src/java/ai/general/web/User.java:719-729 | an id in use changes nothing; otherwise one session with a full pong count is appended, the user is online, and the online notice and the capabilities are published; a first login loads as friends exactly the sorted friend names the user manager can load, and each old user gains this user as follower once per time it is a friend; an online user's friends and followers stay as they were |
| Web.User.EndSession | server/src/java/ai/general/web/User.java:742-756 | an unknown id changes nothing; otherwise exactly that session is removed, and removing the last one makes the user offline with no pending invitation |
| Web.User.GoOffline | server/src/java/ai/general/web/User.java:748-751 | the user is offline, every pending invitation is rejected (their ids are the old pending ids) and each friend loses one follower entry per listing |
| Web.User.SystemLogout | server/src/java/ai/general/web/User.java:339-345 | every session ends; a user that had sessions ends offline with no pending invitations, one that had none gets exactly the logout notice |
| Web.User.ExecuteSessionPing | server/src/java/ai/general/web/User.java:590-610 | without sessions nothing is published; sessions whose pong count ran out end, the others count down by one, and the last publication is the ping when a session is left |
| Web.User.PingRound | server/src/java/ai/general/web/User.java:592-599 | the stale sessions are exactly those whose count was at most 0; the others count down by one |
| Web.User.EndStale | server/src/java/ai/general/web/User.java:600-603 | the remaining sessions are exactly the old ones not stale |
| Web.User.WebLogin | server/src/java/ai/general/web/User.java:310-319 | the login succeeds exactly when the password authenticates; a failure changes nothing; a success has the effects of `BeginSession` for a web session: no change for an id in use, otherwise the appended session, the status, the publications, the loaded friends and the followers gained |
| Web.User.WebLogout | server/src/java/ai/general/web/User.java:328-331 | an unknown id changes nothing; otherwise exactly that session is removed, keeping the others in order, and removing the last one makes the user offline with no pending invitation |
| Web.User.RobotLogin | server/src/java/ai/general/web/RobotUser.java:57-67 | the login succeeds exactly when the password authenticates; a success schedules one system-info request at the fixed delay and a new session is of the interbot client type |
| Web.User.RobotLogout | server/src/java/ai/general/web/RobotUser.java:77-81 | the sessions afterwards are as after `EndSession` (exactly that session removed, the others kept in order); no property is left, and the last publications are the empty-property update to the robot and then to each follower, after everything ending the session published |
| Web.User.OnSystemInfoResponse | server/src/java/ai/general/web/RobotUser.java:111-115 | the response is merged into the properties, the merged map is broadcast, then the capabilities are announced |
| Web.User.StartActivity | server/src/java/ai/general/web/User.java:391-412 | refuses an unknown session, activity, role and a passive role, in that order and without effect; otherwise a fresh activity of the definition holds exactly the new participant of that session and role |
| Web.User.Launch | server/src/java/ai/general/web/User.java:407-411 | the new activity is fresh, joins the live activities, and holds exactly the joining participant |
| Web.User.ExitActivity | server/src/java/ai/general/web/User.java:430-439 | an unknown session or participant changes no publication or link; otherwise the participant has left its activity and its pending invitations are cancelled |
| Web.User.Invite | server/src/java/ai/general/web/User.java:468-484 | rejects an unknown session, a non-participant, an unknown role and a non-friend, in that order and without publishing; any rejection leaves the activity's participants unchanged |
| Web.User.InvitationReply | server/src/java/ai/general/web/User.java:507-523 | an unknown id changes nothing; a known id leaves both the invited user's and the inviter's pending lists; a bad session or a refusal rejects it with a refusal reply; an acceptance adds exactly one participant of that session and the offered role to the inviter's activity, publishes the join event to the earlier participants in key order and then the acceptance reply to the inviter |
| Web.User.JoinInvited | server/src/java/ai/general/web/User.java:518-520 | the invitation leaves both lists; the inviter's activity gains exactly one participant in the invited role; the publications are the join event to each earlier participant in key order, then the acceptance reply to the inviter |
| Web.User.GetCapabilities | server/src/java/ai/general/web/User.java:138-158 | the capabilities are the sessions' client-type capabilities in session order followed by the IP cameras' |
| Web.User.HasCapability | server/src/java/ai/general/web/User.java:121-129 | true exactly when some capability names both the activity and the role |
| Web.User.LastIdleSession | server/src/java/ai/general/web/ControlActivity.java:141-148 | nothing is found exactly when no session is an interbot session free of the role; otherwise the last such session |
| Web.User.GetAllActivityParticipations | server/src/java/ai/general/web/User.java:183-189 | a participation is listed exactly when some session holds it |
| Web.CapableIff | server/src/java/ai/general/web/User.java:138-158 | a user can take a role exactly when a session's client type grants it or it is the video sender role and an IP camera is reported |
| Web.BusyIffListed | server/src/java/ai/general/web/WebRtcActivity.java:77-79 | hasActivity over the participations holds exactly when some session takes part in an activity of the definition |
| Web.UserManager.constructor | server/src/java/ai/general/web/UserManager.java:62-64 | no user is loaded |
| Web.UserManager.UnloadUser | server/src/java/ai/general/web/UserManager.java:135-137 | the registry is unchanged |
| Web.UserManager.GetUser | server/src/java/ai/general/web/UserManager.java:98-112 | a user is returned exactly when the name is loadable; a loaded name returns its user, a new one is fresh, kept under its name and typed by the database |
| Web.UserManager.LoadUser | server/src/java/ai/general/web/UserManager.java:103-110 | a fresh human or robot user exactly when the database type is known, kept under the name |
| Web.UserManager.UnloadAllUsers | server/src/java/ai/general/web/UserManager.java:144-146 | the registry is empty |
| Web.VideoChannel.constructor | server/src/java/ai/general/web/video/VideoChannel.java:31-35 | a new channel has its id and activity and no receiver |
| Web.VideoChannel.AddReceiver | server/src/java/ai/general/web/video/VideoChannel.java:62-69 | the receiver is taken exactly when its participant is in this channel's activity; otherwise nothing changes |
| Web.VideoChannel.RemoveReceiver | server/src/java/ai/general/web/video/VideoChannel.java:75-81 | no receiver is left |
| Web.VideoChannel.StreamTarget | server/src/java/ai/general/web/video/VideoChannel.java:100-116 | a frame has a target exactly when a receiver is attached, and it is the receiver's participant |
| Web.VideoChannel.Close | server/src/java/ai/general/web/video/VideoChannel.java:86-88 | the channel's id is unregistered |
| Web.VideoChannelManager.constructor | server/src/java/ai/general/web/video/VideoChannelManager.java:25-27 | no channel is registered |
| Web.VideoChannelManager.CreateChannel | server/src/java/ai/general/web/video/VideoChannelManager.java:45-50 | a fresh channel of the activity, with no receiver and an id of the fixed length, is registered under its id |
| Web.VideoChannelManager.Unregister | server/src/java/ai/general/web/video/VideoChannelManager.java:68-70 | the channel's id is no longer found and every other id finds what it found before |
| Web.CreatedChannelIsFound | server/src/java/ai/general/web/video/VideoChannelManager.java:45-60 | getChannel finds a registered channel under its id |
| Web.FirstFailure | server/src/java/ai/general/web/ControlActivity.java:123-140 | no reason exactly when every check holds; a reason given is that of a failing check |
| Web.FirstFailureAt | server/src/java/ai/general/web/ControlActivity.java:123-140 | when check i is the first to fail, its reason is the one given |
| Web.FirstFailureAppend | server/src/java/ai/general/web/video/VideoStreamActivity.java:115-132 | the first failure of two lists of checks in a row is the first list's, else the second's |
| Web.Activity.constructor | server/src/java/ai/general/web/Activity.java:28-33 | a new activity has no participants, its counter at 0, no call and no channel |
| Web.Activity.BaseJoin | server/src/java/ai/general/web/Activity.java:90-101 | the counter goes up by one, the new participant gets the id activity id "#" counter (new when the old ids were numbered), the earlier participants each get the join event in key order, and the participation is registered here and with its session |
| Web.Activity.BaseExit | server/src/java/ai/general/web/Activity.java:113-123 | removal happens exactly when the id is present; otherwise nothing changes; the remaining participants each get the exit event |
| Web.Activity.Join | server/src/java/ai/general/web/ControlActivity.java:35-55 | the counter goes up by one and the participant gets the next numbered id; it is added here and to its session; the earlier participants each get the join event in key order and nothing else is published; a control activity with a robot-controller pair grants exactly that pair's link, and other kinds grant nothing |
| Web.Activity.FindPair | server/src/java/ai/general/web/ControlActivity.java:37-46 | a pair is found exactly when there are two participants including a first robot and a first controller |
| Web.Activity.ControlExit | server/src/java/ai/general/web/ControlActivity.java:66-107 | removal exactly when present; the pair's link is revoked when paired, even for a non-member; a removed participant is unregistered from its session and stays so through the cascade; the publications start with the exit event to each remaining participant in key order; afterwards a controller remains or no robot does |
| Web.Activity.ExitAndCascade | server/src/java/ai/general/web/ControlActivity.java:84-105 | removal exactly when present; the participant is unregistered from its session; the publications start with the exit event to each remaining participant in key order; robots without a controller leave after it |
| Web.Activity.ExitOrphanedRobots | server/src/java/ai/general/web/ControlActivity.java:87-105 | only robots without a controller leave, an attended activity is untouched, the last publications are their own exit notices, and no participation comes back to the watched session |
| Web.Activity.WebRtcExit | server/src/java/ai/general/web/WebRtcActivity.java:33-42 | the participant is removed and unregistered from its session; the publications are exactly the exit event to each remaining participant in key order; the private call topic and its link are destroyed exactly when this empties an activity with a call |
| Web.Activity.VideoStreamExit | server/src/java/ai/general/web/video/VideoStreamActivity.java:51-89 | removal exactly when present, otherwise no change; a removed participant is unregistered from its session and stays so through the wind-down; the publications start with the exit event to each remaining participant in key order; a removal leaves the activity wound down (no channel when empty, no lone sender) |
| Web.Activity.StopOrDetach | server/src/java/ai/general/web/video/VideoStreamActivity.java:53-70 | a sender's robot gets the stop-stream instruction for the channel, a receiver is detached, and nothing else is published |
| Web.Activity.WindDown | server/src/java/ai/general/web/video/VideoStreamActivity.java:75-87 | an empty activity's channel is closed; a lone sender exits and is told so, as the last publication |
| Web.Activity.Exit | server/src/java/ai/general/web/Activity.java:113-123 | removal exactly when present; a removed participant is unregistered from its session; the publications start with the exit event to each remaining participant in key order, and for a plain or WebRTC activity they are exactly that; afterwards a control activity is attended and a video stream activity wound down |
| Web.Activity.Leave | server/src/java/ai/general/web/Participant.java:129 | the participant is gone from its activity and, when it was there, from its session; the old publications stay a prefix |
| Web.Activity.Screen | server/src/java/ai/general/web/WebRtcActivity.java:62-79 | the reason is that of the first failing check in the kind's order |
| Web.Activity.ScreenUser | server/src/java/ai/general/web/ControlActivity.java:135-140 | the reason is that of the first failing check on the invited user |
| Web.Activity.AdmitRobot | server/src/java/ai/general/web/ControlActivity.java:141-158 | without an idle interbot session the invite is rejected without effect; otherwise the last idle session joins in the role, the user is told, and the invite is accepted |
| Web.Activity.AdmitSender | server/src/java/ai/general/web/video/VideoStreamActivity.java:133-158 | as for a control robot, but a new channel is registered and the robot is told to start streaming into it; the accept carries the channel id |
| Web.Activity.PlaceCall | server/src/java/ai/general/web/WebRtcActivity.java:80-85 | the call records caller and callee and a fresh private topic; the invitation carrying the topic is pending in both lists and the callee is told of it |
| Web.Activity.Invite | server/src/java/ai/general/web/Activity.java:137-139 | the first failing check's reason is the rejection; a rejection adds no participant; a call is never accepted at once and only a call is pending |

## Left out

- The WAMP messaging library behind `Directory.Instance` is not part of this model. The `Directory` class in module `Transport` stands for it as a log of publications plus sets of links and paths, and message delivery is not modelled.
- JSON encoding (`toJson`, `getFriendsAsJson`, the event payloads' serialisation), logging, timers, thread synchronisation and `Thread.sleep` are left out. The model is sequential, and each `synchronized` method is one atomic step.
- The session ping timer (`SessionPingTimerTask`), the task manager's thread and its ten-second sleep are left out. `ExecuteSessionPing` models one round of the timer, and `RunTaskRound` one round of the task manager's loop.
- `setPassword`, the WAMP connection counters, `sendExecutePackageRequest`, `listAllLoadedUsers`, `TurnUser`, the servlets and the plugins are outside this model.
- The alphabet of `RandomString.nextString` is not modelled; only the length of a random string is.
- Java object identity is modelled by Dafny object identity for the classes. Values such as roles, definitions and capabilities compare by their fields, as their `equals` or their singleton use makes them behave.
- A friend list that was never loaded is read as empty (`User.Friends`). In the source, `unfollowFriends` before any login would dereference null.
- A `Devices` property that does not hold a device list gives no devices (`ReportedDevices`). The source's cast would throw.
- Activity.VideoStreamExit: a sender exiting an activity that has no channel publishes nothing. The source dereferences the missing channel there.
- The recursive `exit` calls of ControlActivity and VideoStreamActivity are modelled as a loop (`ExitWhileOrphaned`) and as one unrolled step (`ExitLoneSender`). The exit notices are then published in the order the recursion gives (`NotifyExitedInReverse`).
- Kept as the source has them:
  - the control and video stream invites pick the LAST idle robot session (`LastIdleSession`);
  - `unloadUser` removes nothing, since it is called with a user on a map keyed by username (`UserManager.UnloadUser`);
  - `Invitation.reply` and `cancel` send their events again on a repeated call;
  - a ControlActivity exit of a non-member still revokes the pair's access (`Activity.ControlExit`);
  - a second accepted VideoStream invite replaces the activity's channel;
  - the HttpResponse quirks: the boundary scan restart skips overlaps (`ScanRestartSkipsOverlap`), a status line without a reason phrase gives -1 (`StatusLineWithoutReason`), and `readBinary` at end of stream fails.
- Web.User.SystemLogout: states the logout notice only for a user without sessions. With sessions, the later session ends publish more, and their exact log is not stated.
- Web.User.EndStale: states the remaining sessions as a set, not their order.
- Web.User.ExecuteSessionPing: states the remaining sessions as a set, and of the publications only the final ping.
- Web.User.EndSession: states the sessions, status and pending invitations afterwards, but not the exact publications of the activity exits and the unfollows.
- Web.User.Invite: states only its own four rejections. What the activity then does is stated by `Web.Activity.Invite`.
- Authorization.WebClientCapabilities: the capabilities of a client type are listed in the order they were added. The source keeps them in a `HashMap` (`ClientType.java:26`) whose `values()` (`ClientType.java:74-76`) come in an unspecified order, so the order of the capability lists in the capability notices is that of the model, not every order the source allows.
- HttpResponses.HttpResponse.ReadFrame: a boundary byte is compared unsigned with the byte read. In the source, `getBytes` gives signed bytes (`HttpResponse.java:311`) and `readByte` gives 0 to 255 (`HttpResponse.java:236`), so a boundary character at or above 0x80 never matches there. The model's frames agree with the source only for boundaries whose characters are all below 0x80.
- HttpResponses.PutHeader: the header name is lower-cased by `Strings.ToLower`, which changes only ASCII letters. Java's `toLowerCase` (`HttpResponse.java:351`) also lower-cases letters beyond ASCII, such as Latin-1 capitals.
- Ping.Ping: the message is cut at 256 characters. Java's `substring` (`PingService.java:24-27`) counts UTF-16 code units, so the two differ for messages with characters outside the Basic Multilingual Plane.
- Web.User.ExitActivity: states that the participant has left and its invitations are cancelled. The exit's own effects are stated by `Web.Activity.Exit`.
- Web.Activity.Invite: states the first failing check, and for each kind whether the result is accepted, pending or rejected. The effects of an accepted invite are stated by `Web.Activity.AdmitRobot`, `Web.Activity.AdmitSender` and `Web.Activity.PlaceCall`.

## Findings

| source | as written | input that shows it | evidently intended | confidence | as-written member | corrected member |
|---|---|---|---|---|---|---|
| server/src/java/ai/general/web/Task.java:43-49 | `compareTo` returns the difference of the due times cast to `int`, which wraps around for differences beyond the 32-bit range | two tasks whose due times are 2^31 + 1 ms apart: the later one compares as earlier | the sign of the comparison follows the order of the due times | not executed | Tasks.CompareToAsWrittenMisorders | Tasks.CompareTo |
