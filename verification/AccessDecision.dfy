/** Which identity, if any, a request for a named workspace is forwarded under
    (pkg/proxy/proxy.go, pkg/proxy/handlers/spacelister_get.go, pkg/proxy/handlers/spacelister.go). */
module AccessDecision {
  import opened Text
  import opened BindingMerge
  import opened Members

  datatype Workspace = Workspace(name: string, isHome: bool, owner: string, role: string, bindings: seq<Binding>)

  // ----- the workspace look-up -----

  /** The signup the listing goes by: the user's, or the public viewer's when the user has none. */
  function ListingSignup(snap: Snapshot, username: string): Result<Option<(string, string)>, AccessError> {
    match snap.GetSignup(username)
    case LookupFailed => Err(Internal)
    case Found(s) =>
      if s.compliantUsername != "" then Ok(Some((s.name, s.compliantUsername)))
      else if snap.publicViewerEnabled then Ok(Some((PUBLIC_VIEWER, PUBLIC_VIEWER)))
      else Ok(None)
    case NoSignup =>
      if snap.publicViewerEnabled then Ok(Some((PUBLIC_VIEWER, PUBLIC_VIEWER))) else Ok(None)
  }

  function FirstBindingOf(user: string, sbs: seq<SpaceBinding>): Option<SpaceBinding> {
    if sbs == [] then None
    else if sbs[0].user == user then Some(sbs[0])
    else FirstBindingOf(user, sbs[1..])
  }

  /** The user's own binding, or the public viewer's when the feature is on and the user has none. */
  function VisibleBinding(snap: Snapshot, compliantName: string, sbs: seq<SpaceBinding>): Option<SpaceBinding> {
    var own := FirstBindingOf(compliantName, sbs);
    if own.None? && snap.publicViewerEnabled && compliantName != PUBLIC_VIEWER
    then FirstBindingOf(PUBLIC_VIEWER, sbs)
    else own
  }

  function RequestsInNamespaces(member: Member, namespaces: seq<string>): Result<seq<SpaceBindingRequest>,
                                AccessError> {
    if namespaces == [] then Ok([])
    else if namespaces[0] !in member.requests then Err(Internal)
    else
      var rest := RequestsInNamespaces(member, namespaces[1..]);
      if rest.Err? then rest else Ok(member.requests[namespaces[0]] + rest.value)
  }

  function RequestsOnMembers(members: seq<Member>, space: Space): Result<seq<SpaceBindingRequest>, AccessError> {
    if members == [] then Ok([])
    else
      var rest := RequestsOnMembers(members[1..], space);
      if members[0].name != space.targetCluster then rest
      else
        var here := RequestsInNamespaces(members[0], space.namespaces);
        if here.Err? then here else if rest.Err? then rest else Ok(here.value + rest.value)
  }

  function RequestsForSpace(snap: Snapshot, space: Space): Result<seq<SpaceBindingRequest>, AccessError> {
    if snap.members == [] then Err(NoMembers) else RequestsOnMembers(snap.members, space)
  }

  predicate AnyBroken(space: string, sbs: seq<SpaceBinding>) {
    exists k :: 0 <= k < |sbs| && Broken(space, sbs[k])
  }

  /** The workspace with its bindings; `None` when the user may not know of it. */
  function WorkspaceWithBindings(snap: Snapshot, username: string, name: string): Result<Option<Workspace>,
                                 AccessError> {
    var who := ListingSignup(snap, username);
    if who.Err? then Err(who.error)
    else if who.value.None? || name !in snap.spaces then Ok(None)
    else
      var (signupName, compliantName) := who.value.value;
      var space := snap.spaces[name];
      if space.name !in snap.bindings then Err(Internal)
      else
        var sbs := snap.bindings[space.name];
        var visible := VisibleBinding(snap, compliantName, sbs);
        if visible.None? then Ok(None)
        else
          var requests := RequestsForSpace(snap, space);
          if requests.Err? then Err(requests.error)
          else if AnyBroken(space.name, sbs) || space.tier !in snap.tiers then Err(Internal)
          else Ok(Some(Workspace(space.name, space.creator == signupName, space.creator, visible.value.role,
                                 Merged(space.name, sbs, requests.value))))
  }

  // ----- the decision -----

  predicate Allows(requested: string, w: Workspace) {
    w.name == requested || (requested == "" && w.isHome)
  }

  /** `validateWorkspaceRequest`: with no name given the home workspace is meant. */
  method ValidateWorkspaceRequest(requested: string, workspaces: seq<Workspace>) returns (allowed: bool)
    ensures allowed <==> exists k :: 0 <= k < |workspaces|
                                     && (workspaces[k].name == requested || (requested == "" && workspaces[k].isHome))
  {
    var isHomeRequested := requested == "";
    var allowedWorkspace := -1;
    var i := 0;
    while i < |workspaces|
      invariant 0 <= i <= |workspaces| && allowedWorkspace == -1
      invariant forall k :: 0 <= k < i ==> !Allows(requested, workspaces[k])
    {
      if workspaces[i].name == requested || (isHomeRequested && workspaces[i].isHome) {
        allowedWorkspace := i;
        break;
      }
      i := i + 1;
    }
    return allowedWorkspace != -1;
  }

  predicate UserHasDirectAccess(signup: SignupLookup, w: Workspace) {
    signup.Found? && HasEntry(w.bindings, signup.signup.compliantUsername)
  }

  /** As the public viewer when the feature is on and the user is not listed, otherwise as the user. */
  function AccessAsUserOrPublicViewer(snap: Snapshot, username: string, plugin: string, w: Workspace)
    : Result<ClusterAccess, AccessError>
  {
    var signup := snap.GetSignup(username);
    if signup.LookupFailed? then Err(Internal)
    else if snap.publicViewerEnabled && !UserHasDirectAccess(signup, w)
    then GetClusterAccess(snap, PUBLIC_VIEWER, w.name, plugin, snap.publicViewerEnabled)
    else GetClusterAccess(snap, username, w.name, plugin, snap.publicViewerEnabled)
  }

  predicate UserIsProvisioned(snap: Snapshot, username: string) {
    snap.publicViewerEnabled || snap.ProvisionedName(username).Some?
  }

  function ProcessWorkspaceRequest(snap: Snapshot, username: string, name: string, plugin: string)
    : Result<ClusterAccess, AccessError>
  {
    if !UserIsProvisioned(snap, username) || name !in snap.spaces then Err(Internal)
    else
      var w := WorkspaceWithBindings(snap, username, name);
      if w.Err? then Err(Internal)
      else if w.value.None? then Err(Forbidden)
      else if !Allows(name, w.value.value) then Err(Forbidden)
      else
        var access := AccessAsUserOrPublicViewer(snap, username, plugin, w.value.value);
        if access.Err? then Err(Internal) else access
  }

  // ----- what the decision guarantees -----

  lemma {:induction false} FirstBindingExactly(user: string, sbs: seq<SpaceBinding>)
    ensures FirstBindingOf(user, sbs).Some? <==> HasSpaceBinding(sbs, user)
  {
    if sbs != [] {
      FirstBindingExactly(user, sbs[1..]);
      assert sbs[0] == sbs[0];
      forall k | 0 <= k < |sbs[1..]| ensures sbs[1..][k] == sbs[k + 1] {}
      if k :| 0 <= k < |sbs| && sbs[k].user == user {
        if k > 0 {
          assert sbs[1..][k - 1].user == user;
        }
      }
    }
  }

  /** The name a user is listed under. */
  function ListingName(snap: Snapshot, username: string): string {
    var own := snap.ProvisionedName(username);
    if own.Some? then own.value else PUBLIC_VIEWER
  }

  predicate Listable(snap: Snapshot, name: string) {
    name in snap.spaces && name in snap.bindings
  }

  predicate Entitled(snap: Snapshot, username: string, sbs: seq<SpaceBinding>) {
    || (snap.ProvisionedName(username).Some? && HasSpaceBinding(sbs, snap.ProvisionedName(username).value))
    || (snap.publicViewerEnabled && HasSpaceBinding(sbs, PUBLIC_VIEWER))
  }

  lemma VisibleExactly(snap: Snapshot, username: string, sbs: seq<SpaceBinding>)
    requires UserIsProvisioned(snap, username)
    ensures VisibleBinding(snap, ListingName(snap, username), sbs).Some? <==> Entitled(snap, username, sbs)
  {
    FirstBindingExactly(ListingName(snap, username), sbs);
    FirstBindingExactly(PUBLIC_VIEWER, sbs);
  }

  /** A request for a named workspace is forwarded only if the user's compliant name has a SpaceBinding,
      or the feature is on and the public viewer has one. */
  lemma ForwardedOnlyIfEntitled(snap: Snapshot, username: string, name: string, plugin: string)
    requires snap.WellKeyed()
    requires ProcessWorkspaceRequest(snap, username, name, plugin).Ok?
    ensures Listable(snap, name) && Entitled(snap, username, snap.bindings[name])
  {
    VisibleExactly(snap, username, snap.bindings[name]);
  }

  /** A request is answered "forbidden" exactly when neither of the two has a SpaceBinding, although the user is
      provisioned or the feature is on, and the user, the space and its bindings can be looked up. Anything
      else that stands in the way is answered with an internal error. */
  lemma ForbiddenExactly(snap: Snapshot, username: string, name: string, plugin: string)
    requires snap.WellKeyed()
    ensures var a := ProcessWorkspaceRequest(snap, username, name, plugin);
            && (a == Err(Forbidden) <==>
                  && (snap.publicViewerEnabled || snap.ProvisionedName(username).Some?)
                  && !snap.GetSignup(username).LookupFailed?
                  && name in snap.spaces && name in snap.bindings && !Entitled(snap, username, snap.bindings[name]))
            && (a.Err? ==> a.error in {Forbidden, Internal})
  {
    if Listable(snap, name) && UserIsProvisioned(snap, username) {
      VisibleExactly(snap, username, snap.bindings[name]);
    }
  }

  /** The user is on the workspace's list: by a SpaceBinding, or by a request that made none. */
  predicate OnTheList(snap: Snapshot, username: string, name: string)
    requires name in snap.spaces && name in snap.bindings
  {
    var requests := RequestsForSpace(snap, snap.spaces[name]);
    && snap.GetSignup(username).Found?
    && requests.Ok?
    && HasEntry(Merged(name, snap.bindings[name], requests.value), snap.GetSignup(username).signup.compliantUsername)
  }

  /** The impersonated identity: the public viewer exactly when the feature is on and the user is not
      on the list (or is the viewer), otherwise the user's compliant name. */
  lemma IdentityExactly(snap: Snapshot, username: string, name: string, plugin: string)
    requires snap.WellKeyed() && name != ""
    requires ProcessWorkspaceRequest(snap, username, name, plugin).Ok?
    ensures Listable(snap, name)
    ensures var a := ProcessWorkspaceRequest(snap, username, name, plugin).value;
            if snap.publicViewerEnabled && (!OnTheList(snap, username, name) || username == PUBLIC_VIEWER)
            then a.username == PUBLIC_VIEWER
            else snap.ProvisionedName(username) == Some(a.username)
  {
    var w := WorkspaceWithBindings(snap, username, name).value.value;
    var requests := RequestsForSpace(snap, snap.spaces[name]);
    assert w.name == name && w.bindings == Merged(name, snap.bindings[name], requests.value);
    var asUser := !snap.publicViewerEnabled || UserHasDirectAccess(snap.GetSignup(username), w);
    SpaceAccessGoesToTheHost(snap, if asUser then username else PUBLIC_VIEWER, name, plugin, snap.publicViewerEnabled);
  }

  /** A request of the space for the user that made no SpaceBinding. */
  predicate RequestedOnly(snap: Snapshot, name: string, user: string)
    requires name in snap.spaces && name in snap.bindings
  {
    var requests := RequestsForSpace(snap, snap.spaces[name]);
    requests.Ok? && exists k :: 0 <= k < |requests.value| && requests.value[k].user == user
                                && RequestOnly(name, snap.bindings[name], requests.value, k)
  }

  /** With the feature on, a provisioned user whose request is forwarded is impersonated as themselves exactly
      when they have a SpaceBinding or a request that made none (or their compliant name is the viewer's);
      otherwise, and for a user who is not provisioned, the viewer is impersonated. */
  lemma OwnIdentityExactly(snap: Snapshot, username: string, name: string, plugin: string)
    requires snap.WellKeyed() && name != "" && username != PUBLIC_VIEWER && snap.publicViewerEnabled
    requires ProcessWorkspaceRequest(snap, username, name, plugin).Ok?
    ensures Listable(snap, name)
    ensures var a := ProcessWorkspaceRequest(snap, username, name, plugin).value;
            match snap.ProvisionedName(username)
            case None => a.username == PUBLIC_VIEWER
            case Some(own) =>
              && a.username in {own, PUBLIC_VIEWER}
              && (a.username == own <==>
                    HasSpaceBinding(snap.bindings[name], own) || RequestedOnly(snap, name, own) || own == PUBLIC_VIEWER)
  {
    IdentityExactly(snap, username, name, plugin);
    var own := snap.ProvisionedName(username);
    if own.Some? && RequestsForSpace(snap, snap.spaces[name]).Ok? {
      EntryExactly(name, snap.bindings[name], RequestsForSpace(snap, snap.spaces[name]).value, own.value);
    }
  }

  /** A space the viewer is bound to, and a request of the user for it that has made no SpaceBinding. */
  function PendingRequest(): Snapshot {
    var request := SpaceBindingRequest(RequestRef("ann-admin", "shared-dev"), "ann", "admin");
    Snapshot(map["ann" := Found(Signup("ann", "ann", "https://member", "member"))],
             map["shared" := Space("shared", "bob", "base", "member", ["shared-dev"])],
             map["shared" := [SpaceBinding(PUBLIC_VIEWER, "viewer", map[SpaceLabel := "shared"])]],
             {"base"},
             [Member("member", "https://member", "token", map["shared-dev" := [request]])],
             (plugin: string, member: Member) => Some(member.apiEndpoint), true)
  }

  lemma PendingRequestIsListed()
    ensures var snap := PendingRequest();
            && RequestsForSpace(snap, snap.spaces["shared"])
               == Ok([SpaceBindingRequest(RequestRef("ann-admin", "shared-dev"), "ann", "admin")])
            && ReferencedRefs("shared", snap.bindings["shared"]) == {}
  {
    var snap := PendingRequest();
    var space := snap.spaces["shared"];
    var member := snap.members[0];
    var request := SpaceBindingRequest(RequestRef("ann-admin", "shared-dev"), "ann", "admin");
    assert ["shared-dev"][1..] == [] && member.requests["shared-dev"] == [request] && [request] + [] == [request];
    assert RequestsInNamespaces(member, []) == Ok([]) && RequestsInNamespaces(member, ["shared-dev"]) == Ok([request]);
    assert [member][1..] == [];
    assert space.namespaces == ["shared-dev"] && snap.members == [member] && member.name == space.targetCluster;
    assert RequestsOnMembers([], space) == Ok([]) && RequestsOnMembers([member], space) == Ok([request]);
  }

  /** Being on the list is not having a SpaceBinding: here only the viewer is bound, and the user, whose
      request made no binding, is forwarded under their own name. */
  lemma UnboundUserActsAsThemselves()
    ensures var snap := PendingRequest();
            && snap.WellKeyed() && !HasSpaceBinding(snap.bindings["shared"], "ann")
            && ProcessWorkspaceRequest(snap, "ann", "shared", "") == Ok(ClusterAccess("https://member", "token", "ann"))
  {
    var snap := PendingRequest();
    PendingRequestIsListed();
    var requests := RequestsForSpace(snap, snap.spaces["shared"]).value;
    assert RequestOnly("shared", snap.bindings["shared"], requests, 0);
    assert snap.ProvisionedName("ann") == Some("ann");
    EntryExactly("shared", snap.bindings["shared"], requests, "ann");
    VisibleExactly(snap, "ann", snap.bindings["shared"]);
    assert Entitled(snap, "ann", snap.bindings["shared"]) by {
      assert snap.bindings["shared"][0].user == PUBLIC_VIEWER;
    }
    assert !AnyBroken("shared", snap.bindings["shared"]);
    var w := WorkspaceWithBindings(snap, "ann", "shared");
    assert w.Ok? && w.value.Some? && w.value.value.bindings == Merged("shared", snap.bindings["shared"], requests);
    assert FirstNamed(snap.members, "member") == Some(snap.members[0]);
  }

  lemma BindingPutsOnTheList(snap: Snapshot, username: string, name: string)
    requires Listable(snap, name) && RequestsForSpace(snap, snap.spaces[name]).Ok?
    requires snap.ProvisionedName(username).Some?
    requires HasSpaceBinding(snap.bindings[name], snap.ProvisionedName(username).value)
    ensures OnTheList(snap, username, name)
  {
    EntryExactly(name, snap.bindings[name], RequestsForSpace(snap, snap.spaces[name]).value,
                 snap.ProvisionedName(username).value);
  }

  /** A user with a SpaceBinding of their own is always impersonated as themselves, unless their raw
      username is the one reserved for the viewer. */
  lemma OwnBindingMeansOwnIdentity(snap: Snapshot, username: string, name: string, plugin: string)
    requires snap.WellKeyed() && name != "" && username != PUBLIC_VIEWER
    requires ProcessWorkspaceRequest(snap, username, name, plugin).Ok?
    requires snap.ProvisionedName(username).Some? && name in snap.bindings
    requires HasSpaceBinding(snap.bindings[name], snap.ProvisionedName(username).value)
    ensures Some(ProcessWorkspaceRequest(snap, username, name, plugin).value.username) == snap.ProvisionedName(username)
  {
    IdentityExactly(snap, username, name, plugin);
    BindingPutsOnTheList(snap, username, name);
  }

  /** The public viewer is impersonated only when the feature is on, the viewer has a SpaceBinding and
      the user has none; this speaks of users who are not the viewer under either name. */
  lemma ViewerOnlyWithoutOwnBinding(snap: Snapshot, username: string, name: string, plugin: string)
    requires snap.WellKeyed() && name != "" && username != PUBLIC_VIEWER
    requires snap.ProvisionedName(username) != Some(PUBLIC_VIEWER)
    requires ProcessWorkspaceRequest(snap, username, name, plugin).Ok?
    requires ProcessWorkspaceRequest(snap, username, name, plugin).value.username == PUBLIC_VIEWER
    ensures Listable(snap, name)
    ensures snap.publicViewerEnabled && HasSpaceBinding(snap.bindings[name], PUBLIC_VIEWER)
    ensures snap.ProvisionedName(username).Some? ==>
      !HasSpaceBinding(snap.bindings[name], snap.ProvisionedName(username).value)
  {
    IdentityExactly(snap, username, name, plugin);
    ForwardedOnlyIfEntitled(snap, username, name, plugin);
    if snap.ProvisionedName(username).Some?
       && HasSpaceBinding(snap.bindings[name], snap.ProvisionedName(username).value) {
      OwnBindingMeansOwnIdentity(snap, username, name, plugin);
    }
  }

  /** With the feature off the forwarded identity is always a bound user's own. */
  lemma WithoutTheFeature(snap: Snapshot, username: string, name: string, plugin: string)
    requires snap.WellKeyed() && name != "" && !snap.publicViewerEnabled
    requires ProcessWorkspaceRequest(snap, username, name, plugin).Ok?
    ensures var a := ProcessWorkspaceRequest(snap, username, name, plugin).value;
            && Listable(snap, name)
            && snap.ProvisionedName(username) == Some(a.username)
            && HasSpaceBinding(snap.bindings[name], a.username)
  {
    IdentityExactly(snap, username, name, plugin);
    ForwardedOnlyIfEntitled(snap, username, name, plugin);
  }

  // ----- exactly when a request is forwarded, and where to -----

  /** The members of the space's cluster list every namespace of the space. */
  predicate HostsAnswer(members: seq<Member>, space: Space) {
    forall m, n :: m in members && m.name == space.targetCluster && n in space.namespaces ==> n in m.requests
  }

  /** A member of the space's cluster lists the request in a namespace of the space. */
  predicate Lists(members: seq<Member>, space: Space, r: SpaceBindingRequest) {
    exists m, n :: m in members && m.name == space.targetCluster && n in space.namespaces && n in m.requests
                   && r in m.requests[n]
  }

  lemma {:induction false} NamespacesListed(member: Member, namespaces: seq<string>)
    ensures var requests := RequestsInNamespaces(member, namespaces);
            && (requests.Ok? <==> forall n :: n in namespaces ==> n in member.requests)
            && (requests.Err? ==> requests.error == Internal)
            && (requests.Ok? ==> forall r :: r in requests.value <==>
                  exists n :: n in namespaces && n in member.requests && r in member.requests[n])
  {
    if namespaces != [] {
      NamespacesListed(member, namespaces[1..]);
      assert namespaces == [namespaces[0]] + namespaces[1..];
    }
  }

  lemma {:induction false} MembersListed(members: seq<Member>, space: Space)
    ensures var requests := RequestsOnMembers(members, space);
            && (requests.Ok? <==> HostsAnswer(members, space))
            && (requests.Ok? ==> forall r :: r in requests.value <==> Lists(members, space, r))
  {
    if members != [] {
      MembersListed(members[1..], space);
      NamespacesListed(members[0], space.namespaces);
      assert members == [members[0]] + members[1..];
    }
  }

  /** The requests of a space are all those its members list in its namespaces; they can be had exactly if there
      are members and those of its cluster list every namespace. */
  lemma RequestsExactly(snap: Snapshot, space: Space)
    ensures var requests := RequestsForSpace(snap, space);
            && (requests.Ok? <==> snap.members != [] && HostsAnswer(snap.members, space))
            && (requests.Ok? ==> forall r :: r in requests.value <==> Lists(snap.members, space, r))
  {
    MembersListed(snap.members, space);
  }

  /** No binding of the space itself carries one of the two request labels without both having a value. */
  predicate NoneBroken(name: string, sbs: seq<SpaceBinding>) {
    forall sb :: sb in sbs && NamesRequest(name, sb) ==>
      && RequestNameLabel in sb.labels && sb.labels[RequestNameLabel] != ""
      && RequestNamespaceLabel in sb.labels && sb.labels[RequestNamespaceLabel] != ""
  }

  lemma NoneBrokenExactly(name: string, sbs: seq<SpaceBinding>)
    ensures NoneBroken(name, sbs) <==> !AnyBroken(name, sbs)
  {
    forall k | 0 <= k < |sbs| ensures sbs[k] in sbs {
      BrokenExactly(name, sbs[k]);
    }
    if NoneBroken(name, sbs) {
      forall k | 0 <= k < |sbs| ensures !Broken(name, sbs[k]) {
        BrokenExactly(name, sbs[k]);
      }
    } else {
      var sb :| sb in sbs && NamesRequest(name, sb)
                && !(&& RequestNameLabel in sb.labels && sb.labels[RequestNameLabel] != ""
                     && RequestNamespaceLabel in sb.labels && sb.labels[RequestNamespaceLabel] != "");
      BrokenExactly(name, sb);
    }
  }

  /** Everything the request needs besides a right to it: its bindings and requests can be listed, none is
      broken, the tier exists, and the first member of the cluster's name has an address. */
  ghost predicate Served(snap: Snapshot, name: string, plugin: string)
    requires name in snap.spaces && name in snap.bindings
  {
    var space := snap.spaces[name];
    && HostsAnswer(snap.members, space) && NoneBroken(name, snap.bindings[name]) && space.tier in snap.tiers
    && exists k :: IsFirstNamed(snap.members, space.targetCluster, k) && snap.memberUrl(plugin, snap.members[k]).Some?
  }

  /** A user without a compliant name is taken for one that is on the list: there is an entry without a name. */
  predicate ListedWithoutName(snap: Snapshot, username: string, name: string)
    requires name in snap.spaces && name in snap.bindings
  {
    && username != PUBLIC_VIEWER && snap.GetSignup(username).Found?
    && snap.GetSignup(username).signup.compliantUsername == ""
    && (HasSpaceBinding(snap.bindings[name], "") || RequestedOnly(snap, name, ""))
  }

  lemma ListingExactly(snap: Snapshot, username: string, name: string)
    requires snap.WellKeyed() && Listable(snap, name) && UserIsProvisioned(snap, username)
    requires !snap.GetSignup(username).LookupFailed?
    ensures var w := WorkspaceWithBindings(snap, username, name);
            var space := snap.spaces[name];
            && (w.Ok? && w.value.Some? <==>
                  && Entitled(snap, username, snap.bindings[name])
                  && snap.members != [] && HostsAnswer(snap.members, space)
                  && NoneBroken(name, snap.bindings[name]) && space.tier in snap.tiers)
            && (w.Ok? && w.value.Some? ==>
                  && w.value.value.name == name
                  && w.value.value.bindings == Merged(name, snap.bindings[name], RequestsForSpace(snap, space).value))
  {
    VisibleExactly(snap, username, snap.bindings[name]);
    RequestsExactly(snap, snap.spaces[name]);
    NoneBrokenExactly(name, snap.bindings[name]);
  }

  /** The user is impersonated as themselves, or the public viewer is. */
  lemma ChosenNameExactly(snap: Snapshot, username: string, name: string, plugin: string, w: Workspace)
    requires Listable(snap, name) && name != "" && w.name == name && Entitled(snap, username, snap.bindings[name])
    requires RequestsForSpace(snap, snap.spaces[name]).Ok? && !snap.GetSignup(username).LookupFailed?
    requires w.bindings == Merged(name, snap.bindings[name], RequestsForSpace(snap, snap.spaces[name]).value)
    ensures AccessAsUserOrPublicViewer(snap, username, plugin, w).Ok? <==>
      && !ListedWithoutName(snap, username, name)
      && exists k :: IsFirstNamed(snap.members, snap.spaces[name].targetCluster, k)
                     && snap.memberUrl(plugin, snap.members[k]).Some?
  {
    var signup := snap.GetSignup(username);
    var asUser := !snap.publicViewerEnabled || UserHasDirectAccess(signup, w);
    var who := if asUser then username else PUBLIC_VIEWER;
    FirstNamedExactly(snap.members, snap.spaces[name].targetCluster);
    if signup.Found? {
      EntryExactly(name, snap.bindings[name], RequestsForSpace(snap, snap.spaces[name]).value,
                   signup.signup.compliantUsername);
    }
    assert NameFor(snap, who, snap.publicViewerEnabled).None? <==> ListedWithoutName(snap, username, name);
  }

  /** A request for a named workspace is forwarded exactly if the user's account can be looked up, the user's
      compliant name, or with the feature on the public viewer, has a SpaceBinding, and everything else the
      request needs is there. With the feature on this holds but for a user without a compliant name on a
      workspace with a nameless entry. It goes to the address and under the token of the first member of
      the name of the space's cluster. */
  lemma ForwardedExactly(snap: Snapshot, username: string, name: string, plugin: string)
    requires snap.WellKeyed() && name != ""
    ensures ProcessWorkspaceRequest(snap, username, name, plugin).Ok? <==>
      && name in snap.spaces && name in snap.bindings && !snap.GetSignup(username).LookupFailed?
      && Entitled(snap, username, snap.bindings[name]) && Served(snap, name, plugin)
      && !ListedWithoutName(snap, username, name)
    ensures var a := ProcessWorkspaceRequest(snap, username, name, plugin);
            a.Ok? ==> exists k :: IsFirstNamed(snap.members, snap.spaces[name].targetCluster, k)
                                  && snap.memberUrl(plugin, snap.members[k]) == Some(a.value.apiUrl)
                                  && snap.members[k].token == a.value.token
  {
    if Listable(snap, name) && UserIsProvisioned(snap, username) && !snap.GetSignup(username).LookupFailed? {
      ListingExactly(snap, username, name);
      var w := WorkspaceWithBindings(snap, username, name);
      if w.Ok? && w.value.Some? {
        RequestsExactly(snap, snap.spaces[name]);
        ChosenNameExactly(snap, username, name, plugin, w.value.value);
      }
    }
    var a := ProcessWorkspaceRequest(snap, username, name, plugin);
    if a.Ok? {
      var w := WorkspaceWithBindings(snap, username, name).value.value;
      var asUser := !snap.publicViewerEnabled || UserHasDirectAccess(snap.GetSignup(username), w);
      SpaceAccessExactly(snap, if asUser then username else PUBLIC_VIEWER, name, plugin, snap.publicViewerEnabled,
                         a.value);
    }
  }

  /** The workspace a user is shown: its owner is the space's creator, it is the home of the signup it was
      listed for if that is the creator, and the role is that of the user's first binding, or of the viewer's
      if the user has none. */
  lemma WorkspaceIsTheUsers(snap: Snapshot, username: string, name: string)
    requires snap.WellKeyed() && WorkspaceWithBindings(snap, username, name).Ok?
    requires WorkspaceWithBindings(snap, username, name).value.Some?
    ensures Listable(snap, name)
    ensures var w := WorkspaceWithBindings(snap, username, name).value.value;
            var own := snap.ProvisionedName(username);
            var sbs := snap.bindings[name];
            var user := if own.Some? && HasSpaceBinding(sbs, own.value) then own.value else PUBLIC_VIEWER;
            && w.name == name && w.owner == snap.spaces[name].creator
            && (w.isHome <==>
                  w.owner == if own.Some? then snap.GetSignup(username).signup.name else PUBLIC_VIEWER)
            && exists k :: 0 <= k < |sbs| && sbs[k].user == user && sbs[k].role == w.role
                           && forall j :: 0 <= j < k ==> sbs[j].user != user
  {
    var own := ListingName(snap, username);
    FirstBindingExactly(own, snap.bindings[name]);
    FirstBindingIsFirst(own, snap.bindings[name]);
    FirstBindingIsFirst(PUBLIC_VIEWER, snap.bindings[name]);
  }

  lemma {:induction false} FirstBindingIsFirst(user: string, sbs: seq<SpaceBinding>)
    ensures FirstBindingOf(user, sbs).Some? ==>
      exists k :: 0 <= k < |sbs| && sbs[k] == FirstBindingOf(user, sbs).value && sbs[k].user == user
                  && forall j :: 0 <= j < k ==> sbs[j].user != user
  {
    if sbs != [] && sbs[0].user != user && FirstBindingOf(user, sbs).Some? {
      FirstBindingIsFirst(user, sbs[1..]);
      var k :| 0 <= k < |sbs[1..]| && sbs[1..][k] == FirstBindingOf(user, sbs).value && sbs[1..][k].user == user
               && forall j :: 0 <= j < k ==> sbs[1..][j].user != user;
      forall j | 0 <= j < k + 1 ensures sbs[j].user != user {
        if j > 0 { assert sbs[1..][j - 1].user != user; }
      }
      assert sbs[k + 1] == FirstBindingOf(user, sbs).value;
    }
  }
}
