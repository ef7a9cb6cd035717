/**
 * The user profiles installed on a robot's client: log-in profiles kept in
 * a list, found by name, with an optional named default.
 */
module Profiles {
  import opened Wrappers

  /** A log-in profile: its unique name, the user it logs in, and the hashed password. */
  datatype UserProfile = UserProfile(name: string, username: string, key: string)

  /** The index of the first profile with the name, if any. */
  function IndexOfProfile(profiles: seq<UserProfile>, name: string): (r: Option<nat>)
    ensures r.Some? ==> r.value < |profiles| && profiles[r.value].name == name
    ensures r.Some? ==> forall k :: 0 <= k < r.value ==> profiles[k].name != name
    ensures r.None? ==> forall k :: 0 <= k < |profiles| ==> profiles[k].name != name
  {
    if |profiles| == 0 then None
    else if profiles[0].name == name then Some(0)
    else match IndexOfProfile(profiles[1..], name)
      case None => None
      case Some(k) => Some(k + 1)
  }

  /** No two profiles share a name. */
  predicate NamesDistinct(profiles: seq<UserProfile>) {
    forall i, j :: 0 <= i < j < |profiles| ==> profiles[i].name != profiles[j].name
  }

  class UserProfiles {
    /** The name of the default profile, or "" when none is specified. */
    var defaultName: string
    var profiles: seq<UserProfile>

    /** An empty set of profiles without a default. */
    constructor()
      ensures defaultName == "" && profiles == []
    {
      defaultName := "";
      profiles := [];
    }

    /** findProfile: the first profile with the name, or none. */
    function FindProfile(name: string): (r: Option<UserProfile>)
      reads this
      ensures r.Some? <==> exists k :: 0 <= k < |profiles| && profiles[k].name == name
      ensures r.Some? ==> r.value in profiles && r.value.name == name
    {
      match IndexOfProfile(profiles, name)
      case None => None
      case Some(k) => Some(profiles[k])
    }

    /**
     * defaultProfile: the named default when one is specified (none if it is
     * missing), otherwise the first profile, otherwise none.
     */
    function DefaultProfile(): (r: Option<UserProfile>)
      reads this
      ensures defaultName != "" ==> r == FindProfile(defaultName)
      ensures defaultName == "" && |profiles| > 0 ==> r == Some(profiles[0])
      ensures defaultName == "" && |profiles| == 0 ==> r.None?
    {
      if |defaultName| > 0 then FindProfile(defaultName)
      else if |profiles| > 0 then Some(profiles[0])
      else None
    }

    /** addProfile: appends the profile unless one of the same name exists. */
    method AddProfile(profile: UserProfile) returns (added: bool)
      modifies this`profiles
      ensures added <==> old(FindProfile(profile.name)).None?
      ensures added ==> profiles == old(profiles) + [profile]
      ensures !added ==> profiles == old(profiles)
      ensures NamesDistinct(old(profiles)) ==> NamesDistinct(profiles)
    {
      if FindProfile(profile.name).Some? {
        return false;
      }
      profiles := profiles + [profile];
      return true;
    }

    /** deleteProfile: removes the first profile with the name; nothing for an unknown name. */
    method DeleteProfile(name: string)
      modifies this`profiles
      ensures old(IndexOfProfile(profiles, name)).None? ==> profiles == old(profiles)
      ensures old(IndexOfProfile(profiles, name)).Some? ==>
        var k := old(IndexOfProfile(profiles, name)).value;
        profiles == old(profiles)[..k] + old(profiles)[k + 1..]
      ensures NamesDistinct(old(profiles)) ==> NamesDistinct(profiles) && FindProfile(name).None?
    {
      var index := IndexOfProfile(profiles, name);
      if index.None? {
        return;
      }
      var k := index.value;
      ghost var before := profiles;
      profiles := profiles[..k] + profiles[k + 1..];
      assert forall i :: 0 <= i < |profiles| ==> profiles[i] == before[if i < k then i else i + 1];
    }

    /** setDefault. */
    method SetDefault(name: string)
      modifies this`defaultName
      ensures defaultName == name
    {
      defaultName := name;
    }

    /** setProfiles. */
    method SetProfiles(newProfiles: seq<UserProfile>)
      modifies this`profiles
      ensures profiles == newProfiles
    {
      profiles := newProfiles;
    }
  }

  /**
   * Adding a profile and deleting it again by name restores the list when
   * the name was new.
   */
  lemma {:induction false} DeleteUndoesAdd(profiles: seq<UserProfile>, p: UserProfile)
    requires IndexOfProfile(profiles, p.name).None?
    ensures IndexOfProfile(profiles + [p], p.name) == Some(|profiles|)
    ensures (profiles + [p])[..|profiles|] + (profiles + [p])[|profiles| + 1..] == profiles
  {
    if |profiles| > 0 {
      assert (profiles + [p])[1..] == profiles[1..] + [p];
      DeleteUndoesAdd(profiles[1..], p);
    }
  }
}
