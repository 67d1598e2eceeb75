/** Access to member clusters, over one snapshot of the host cluster (pkg/proxy/members.go). */
module Members {
  import opened Text
  import opened BindingMerge

  const PUBLIC_VIEWER: string := "kubesaw-authenticated"

  datatype Signup = Signup(name: string, compliantUsername: string, apiEndpoint: string, clusterName: string)

  datatype SignupLookup = NoSignup | LookupFailed | Found(signup: Signup)

  datatype Space = Space(name: string, creator: string, tier: string, targetCluster: string, namespaces: seq<string>)

  /** `requests` lists the binding requests per namespace; a namespace without an entry cannot be listed. */
  datatype Member = Member(name: string, apiEndpoint: string, token: string,
                           requests: map<string, seq<SpaceBindingRequest>>)

  /** What one request sees. `bindings` holds what listing the bindings of a space and its parents
      returns; a space without an entry cannot be listed. `memberUrl` is the route look-up. */
  datatype Snapshot = Snapshot(
    signups: map<string, SignupLookup>,
    spaces: map<string, Space>,
    bindings: map<string, seq<SpaceBinding>>,
    tiers: set<string>,
    members: seq<Member>,
    memberUrl: (string, Member) -> Option<string>,
    publicViewerEnabled: bool)
  {
    /** An object read under a name carries that name. */
    ghost predicate WellKeyed() {
      forall n :: n in spaces ==> spaces[n].name == n
    }

    function GetSignup(username: string): SignupLookup {
      if username in signups then signups[username] else NoSignup
    }

    /** The compliant name of a user whose account is provisioned. */
    function ProvisionedName(username: string): Option<string> {
      match GetSignup(username)
      case Found(s) => if s.compliantUsername == "" then None else Some(s.compliantUsername)
      case _ => None
    }
  }

  datatype ClusterAccess = ClusterAccess(apiUrl: string, token: string, username: string)

  datatype AccessError = NotProvisioned | SpaceNotAvailable | NoMembers | NoMatchingMember | NoMemberUrl
                       | Internal | Forbidden

  function FirstNamed(members: seq<Member>, name: string): Option<Member> {
    if members == [] then None
    else if members[0].name == name then Some(members[0])
    else FirstNamed(members[1..], name)
  }

  function FirstServing(members: seq<Member>, apiEndpoint: string, name: string): Option<Member> {
    if members == [] then None
    else if members[0].apiEndpoint == apiEndpoint && members[0].name == name then Some(members[0])
    else FirstServing(members[1..], apiEndpoint, name)
  }

  function AccessThrough(snap: Snapshot, member: Option<Member>, username: string, plugin: string)
    : Result<ClusterAccess, AccessError>
  {
    if snap.members == [] then Err(NoMembers)
    else if member.None? then Err(NoMatchingMember)
    else
      var url := snap.memberUrl(plugin, member.value);
      if url.None? then Err(NoMemberUrl) else Ok(ClusterAccess(url.value, member.value.token, username))
  }

  function AccessForSpace(snap: Snapshot, space: Space, username: string, plugin: string): Result<ClusterAccess,
                          AccessError> {
    AccessThrough(snap, FirstNamed(snap.members, space.targetCluster), username, plugin)
  }

  function AccessForCluster(snap: Snapshot, s: Signup, plugin: string): Result<ClusterAccess, AccessError> {
    AccessThrough(snap, FirstServing(snap.members, s.apiEndpoint, s.clusterName), s.compliantUsername, plugin)
  }

  function ProvisionedSignup(snap: Snapshot, username: string): Result<Signup, AccessError> {
    match snap.GetSignup(username)
    case LookupFailed => Err(Internal)
    case NoSignup => Err(NotProvisioned)
    case Found(s) => if s.compliantUsername == "" then Err(NotProvisioned) else Ok(s)
  }

  /** The public viewer stands for itself when the feature is on; anyone else is looked up. */
  function ComplaintName(snap: Snapshot, username: string, publicViewerEnabled: bool): Result<string, AccessError> {
    if publicViewerEnabled && username == PUBLIC_VIEWER then Ok(username)
    else
      var s := ProvisionedSignup(snap, username);
      if s.Err? then Err(s.error) else Ok(s.value.compliantUsername)
  }

  function SpaceAccess(snap: Snapshot, username: string, workspace: string, plugin: string, publicViewerEnabled: bool)
    : Result<ClusterAccess, AccessError>
  {
    var name := ComplaintName(snap, username, publicViewerEnabled);
    if name.Err? then Err(name.error)
    else if workspace !in snap.spaces then Err(SpaceNotAvailable)
    else AccessForSpace(snap, snap.spaces[workspace], name.value, plugin)
  }

  function GetClusterAccess(snap: Snapshot, username: string, workspace: string, plugin: string,
                            publicViewerEnabled: bool)
    : Result<ClusterAccess, AccessError>
  {
    if workspace == "" then
      var s := ProvisionedSignup(snap, username);
      if s.Err? then Err(s.error) else AccessForCluster(snap, s.value, plugin)
    else SpaceAccess(snap, username, workspace, plugin, publicViewerEnabled)
  }

  lemma {:induction false} FirstNamedIsNamed(members: seq<Member>, name: string)
    ensures FirstNamed(members, name).Some? <==> exists k :: 0 <= k < |members| && members[k].name == name
    ensures FirstNamed(members, name).Some? ==>
      exists k :: 0 <= k < |members| && members[k] == FirstNamed(members, name).value && members[k].name == name
  {
    if members != [] {
      FirstNamedIsNamed(members[1..], name);
      if members[0].name == name {
        assert members[0] == FirstNamed(members, name).value;
      } else {
        forall k | 0 <= k < |members[1..]| ensures members[1..][k] == members[k + 1] {}
        forall k | 1 <= k < |members| ensures members[1..][k - 1] == members[k] {}
      }
    }
  }

  /** Access to a named space is always the token and address of a member that hosts the space, in the
      name of the user's compliant name or, with the feature on, of the public viewer asking as itself. */
  lemma SpaceAccessGoesToTheHost(snap: Snapshot, username: string, workspace: string, plugin: string,
                                 viewerEnabled: bool)
    requires workspace != "" && GetClusterAccess(snap, username, workspace, plugin, viewerEnabled).Ok?
    ensures var a := GetClusterAccess(snap, username, workspace, plugin, viewerEnabled).value;
            && workspace in snap.spaces
            && (exists k :: 0 <= k < |snap.members|
                  && snap.members[k].name == snap.spaces[workspace].targetCluster
                  && snap.members[k].token == a.token
                  && snap.memberUrl(plugin, snap.members[k]) == Some(a.apiUrl))
            && if viewerEnabled && username == PUBLIC_VIEWER then a.username == PUBLIC_VIEWER
               else snap.ProvisionedName(username) == Some(a.username)
  {
    FirstNamedIsNamed(snap.members, snap.spaces[workspace].targetCluster);
  }

  // ----- when access is given, and to what -----

  /** Member `k` is the first of this name. */
  predicate IsFirstNamed(members: seq<Member>, name: string, k: int) {
    0 <= k < |members| && members[k].name == name && forall j :: 0 <= j < k ==> members[j].name != name
  }

  lemma {:induction false} FirstNamedExactly(members: seq<Member>, name: string)
    ensures forall k :: IsFirstNamed(members, name, k) ==> FirstNamed(members, name) == Some(members[k])
    ensures FirstNamed(members, name).Some? ==> exists k :: IsFirstNamed(members, name, k)
  {
    if members != [] && members[0].name != name {
      FirstNamedExactly(members[1..], name);
      forall k | IsFirstNamed(members, name, k) ensures FirstNamed(members, name) == Some(members[k]) {
        assert IsFirstNamed(members[1..], name, k - 1);
      }
      if FirstNamed(members, name).Some? {
        var k :| IsFirstNamed(members[1..], name, k);
        forall j | 0 <= j < k + 1 ensures members[j].name != name {
          if j > 0 { assert members[1..][j - 1].name != name; }
        }
        assert IsFirstNamed(members, name, k + 1);
      }
    } else if members != [] {
      assert IsFirstNamed(members, name, 0);
    }
  }

  /** The name a request for a space is made under: the viewer's own with the feature on, otherwise that of a
      provisioned user. */
  function NameFor(snap: Snapshot, username: string, viewerEnabled: bool): Option<string> {
    if viewerEnabled && username == PUBLIC_VIEWER then Some(username) else snap.ProvisionedName(username)
  }

  /** Access to a named space is given exactly if there is a name to ask under, the space is known, and the
      first member of its cluster's name has an address; it is then that member's address and token. */
  lemma SpaceAccessExactly(snap: Snapshot, username: string, workspace: string, plugin: string, viewerEnabled: bool,
                           a: ClusterAccess)
    requires workspace != ""
    ensures GetClusterAccess(snap, username, workspace, plugin, viewerEnabled) == Ok(a) <==>
      && NameFor(snap, username, viewerEnabled) == Some(a.username) && workspace in snap.spaces
      && exists k :: IsFirstNamed(snap.members, snap.spaces[workspace].targetCluster, k)
                     && snap.memberUrl(plugin, snap.members[k]) == Some(a.apiUrl) && snap.members[k].token == a.token
  {
    if workspace in snap.spaces {
      FirstNamedExactly(snap.members, snap.spaces[workspace].targetCluster);
    }
  }

  /** Each way to be refused a named space has its own error, in the order of the checks. */
  lemma SpaceRefusedExactly(snap: Snapshot, username: string, workspace: string, plugin: string, viewerEnabled: bool)
    requires workspace != ""
    ensures var a := GetClusterAccess(snap, username, workspace, plugin, viewerEnabled);
            var named := NameFor(snap, username, viewerEnabled).Some?;
            var looksUp := !(viewerEnabled && username == PUBLIC_VIEWER);
            && (a == Err(Internal) <==> looksUp && snap.GetSignup(username).LookupFailed?)
            && (a == Err(NotProvisioned) <==> looksUp && !snap.GetSignup(username).LookupFailed? && !named)
            && (a == Err(SpaceNotAvailable) <==> named && workspace !in snap.spaces)
            && (named && workspace in snap.spaces ==>
                  var cluster := snap.spaces[workspace].targetCluster;
                  && (a == Err(NoMembers) <==> snap.members == [])
                  && (a == Err(NoMatchingMember) <==>
                        snap.members != [] && forall k :: 0 <= k < |snap.members| ==> snap.members[k].name != cluster)
                  && (a == Err(NoMemberUrl) <==>
                        exists k :: IsFirstNamed(snap.members, cluster, k)
                                    && snap.memberUrl(plugin, snap.members[k]).None?))
  {
    if workspace in snap.spaces {
      FirstNamedExactly(snap.members, snap.spaces[workspace].targetCluster);
      FirstNamedIsNamed(snap.members, snap.spaces[workspace].targetCluster);
    }
  }

  /** Member `k` is the first of this address and name. */
  predicate IsFirstServing(members: seq<Member>, s: Signup, k: int) {
    && 0 <= k < |members| && members[k].apiEndpoint == s.apiEndpoint && members[k].name == s.clusterName
    && forall j :: 0 <= j < k ==> members[j].apiEndpoint != s.apiEndpoint || members[j].name != s.clusterName
  }

  lemma {:induction false} FirstServingExactly(members: seq<Member>, s: Signup)
    ensures var m := FirstServing(members, s.apiEndpoint, s.clusterName);
            && (forall k :: IsFirstServing(members, s, k) ==> m == Some(members[k]))
            && (m.Some? ==> exists k :: IsFirstServing(members, s, k))
  {
    if members != [] && (members[0].apiEndpoint != s.apiEndpoint || members[0].name != s.clusterName) {
      FirstServingExactly(members[1..], s);
      forall k | IsFirstServing(members, s, k)
        ensures FirstServing(members, s.apiEndpoint, s.clusterName) == Some(members[k])
      {
        assert IsFirstServing(members[1..], s, k - 1);
      }
      if FirstServing(members, s.apiEndpoint, s.clusterName).Some? {
        var k :| IsFirstServing(members[1..], s, k);
        forall j | 0 <= j < k + 1 ensures members[j].apiEndpoint != s.apiEndpoint || members[j].name != s.clusterName {
          if j > 0 { assert members[1..][j - 1] == members[j]; }
        }
        assert IsFirstServing(members, s, k + 1);
      }
    } else if members != [] {
      assert IsFirstServing(members, s, 0);
    }
  }

  /** Without a workspace a provisioned user gets the first member of their own address and cluster name. */
  lemma HomeAccessExactly(snap: Snapshot, username: string, plugin: string, viewerEnabled: bool, a: ClusterAccess)
    ensures GetClusterAccess(snap, username, "", plugin, viewerEnabled) == Ok(a) <==>
      && snap.ProvisionedName(username) == Some(a.username)
      && exists k :: IsFirstServing(snap.members, snap.GetSignup(username).signup, k)
                     && snap.memberUrl(plugin, snap.members[k]) == Some(a.apiUrl) && snap.members[k].token == a.token
  {
    if snap.GetSignup(username).Found? {
      FirstServingExactly(snap.members, snap.GetSignup(username).signup);
    }
  }
}
