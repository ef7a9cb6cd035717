/**
 * The message directory the server publishes through, reduced to what the
 * engine does to it: publications appended to a log, paths created and
 * removed, and links (permissions for one path's subscribers to reach
 * another path) added and removed. Routing and delivery are not modelled.
 */
module Transport {
  import opened UserEvents
  import opened VideoInstructions

  /** A wamp URI: scheme, user information, host and path. */
  datatype Uri = Uri(scheme: string, userInfo: string, host: string, path: string)

  /** What a publication carries. */
  datatype Payload =
    | Event(event: UserEvent)
    | Video(instruction: VideoInstruction)
    | SessionPing(periodMillis: int)
    | SystemInfoRequest(properties: seq<SystemProperty>)

  /** A publish request handled at a directory path. */
  datatype Publication = Publication(path: string, uri: Uri, payload: Payload)

  /** Subscribers of `source` may reach `target`. */
  datatype Link = Link(source: string, target: string)

  class Directory {
    /** Every publication handled so far, oldest first. */
    var log: seq<Publication>
    var paths: set<string>
    /** Links with their multiplicity: each link call adds one, each unlink removes one. */
    var links: multiset<Link>

    constructor()
      ensures log == [] && paths == {} && links == multiset{}
    {
      log := [];
      paths := {};
      links := multiset{};
    }

    /** handle(path, publish request). */
    method Publish(path: string, uri: Uri, payload: Payload)
      modifies this`log
      ensures log == old(log) + [Publication(path, uri, payload)]
    {
      log := log + [Publication(path, uri, payload)];
    }

    method CreatePath(path: string)
      modifies this`paths
      ensures paths == old(paths) + {path}
    {
      paths := paths + {path};
    }

    method RemovePath(path: string)
      modifies this`paths
      ensures paths == old(paths) - {path}
    {
      paths := paths - {path};
    }

    method AddLink(source: string, target: string)
      modifies this`links
      ensures links == old(links) + multiset{Link(source, target)}
    {
      links := links + multiset{Link(source, target)};
    }

    method RemoveLink(source: string, target: string)
      modifies this`links
      ensures links == old(links) - multiset{Link(source, target)}
    {
      links := links - multiset{Link(source, target)};
    }
  }
}
