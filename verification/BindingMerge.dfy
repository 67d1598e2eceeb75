/** The bindings list of a workspace: SpaceBindings merged with the SpaceBindingRequests that have
    produced none (pkg/proxy/handlers/spacelister_get.go). */
module BindingMerge {
  import opened Text
  import opened Sorting

  const UPDATE: string := "update"
  const DELETE: string := "delete"
  const OVERRIDE: string := "override"

  datatype BindingLabel = SpaceLabel | RequestNameLabel | RequestNamespaceLabel | OtherLabel(key: string)

  datatype SpaceBinding = SpaceBinding(user: string, role: string, labels: map<BindingLabel, string>)

  datatype RequestRef = RequestRef(name: string, namespace: string)

  datatype SpaceBindingRequest = SpaceBindingRequest(ref: RequestRef, user: string, role: string)

  datatype Binding = Binding(user: string, role: string, actions: seq<string>, request: Option<RequestRef>)

  datatype BindingError = RequestNameMissing | RequestNamespaceMissing

  function LabelOf(sb: SpaceBinding, key: BindingLabel): string {
    if key in sb.labels then sb.labels[key] else ""
  }

  /** The binding stands on the space itself and carries a request label. */
  predicate OwnRequest(space: string, sb: SpaceBinding) {
    (RequestNameLabel in sb.labels || RequestNamespaceLabel in sb.labels) && LabelOf(sb, SpaceLabel) == space
  }

  function RefOf(sb: SpaceBinding): RequestRef {
    RequestRef(LabelOf(sb, RequestNameLabel), LabelOf(sb, RequestNamespaceLabel))
  }

  predicate Broken(space: string, sb: SpaceBinding) {
    OwnRequest(space, sb) && (RefOf(sb).name == "" || RefOf(sb).namespace == "")
  }

  function ErrorOf(sb: SpaceBinding): BindingError {
    if RefOf(sb).name == "" then RequestNameMissing else RequestNamespaceMissing
  }

  function EntryOfBinding(space: string, sb: SpaceBinding): Binding {
    if OwnRequest(space, sb) then Binding(sb.user, sb.role, [UPDATE, DELETE], Some(RefOf(sb)))
    else if LabelOf(sb, SpaceLabel) != space then Binding(sb.user, sb.role, [OVERRIDE], None)
    else Binding(sb.user, sb.role, [], None)
  }

  function EntryOfRequest(sbr: SpaceBindingRequest): Binding {
    Binding(sbr.user, sbr.role, [UPDATE, DELETE], Some(sbr.ref))
  }

  function EntriesOfBindings(space: string, sbs: seq<SpaceBinding>): (r: seq<Binding>)
    ensures |r| == |sbs|
  {
    seq(|sbs|, k requires 0 <= k < |sbs| => EntryOfBinding(space, sbs[k]))
  }

  predicate Listed(bindings: seq<Binding>, ref: RequestRef) {
    exists k :: 0 <= k < |bindings| && bindings[k].request == Some(ref)
  }

  /** The list once every request it does not name yet is added. */
  function WithRequests(bindings: seq<Binding>, sbrs: seq<SpaceBindingRequest>): seq<Binding>
    decreases |sbrs|
  {
    if sbrs == [] then bindings
    else if Listed(bindings, sbrs[0].ref) then WithRequests(bindings, sbrs[1..])
    else WithRequests(bindings + [EntryOfRequest(sbrs[0])], sbrs[1..])
  }

  function Merged(space: string, sbs: seq<SpaceBinding>, sbrs: seq<SpaceBindingRequest>): seq<Binding> {
    WithRequests(EntriesOfBindings(space, sbs), sbrs)
  }

  function UserOf(b: Binding): string {
    b.user
  }

  method AlreadyInBindingList(bindings: seq<Binding>, sbr: SpaceBindingRequest) returns (found: bool)
    ensures found <==> Listed(bindings, sbr.ref)
  {
    for i := 0 to |bindings|
      invariant forall k :: 0 <= k < i ==> bindings[k].request != Some(sbr.ref)
    {
      if bindings[i].request.Some? && bindings[i].request.value.name == sbr.ref.name
         && bindings[i].request.value.namespace == sbr.ref.namespace {
        assert bindings[i].request == Some(sbr.ref);
        return true;
      }
    }
    return false;
  }

  /** Fails exactly when a binding of the space itself carries a request label with an empty name or
      namespace; otherwise returns the merged list in the order of the users. */
  method GenerateWorkspaceBindings(space: string, sbs: seq<SpaceBinding>, sbrs: seq<SpaceBindingRequest>)
    returns (r: Result<seq<Binding>, BindingError>)
    ensures r.Err? <==> exists k :: 0 <= k < |sbs| && Broken(space, sbs[k])
    ensures r.Err? ==> exists k :: 0 <= k < |sbs| && Broken(space, sbs[k]) && r.error == ErrorOf(sbs[k])
                         && forall j :: 0 <= j < k ==> !Broken(space, sbs[j])
    ensures r.Ok? ==> multiset(r.value) == multiset(Merged(space, sbs, sbrs))
    ensures r.Ok? ==> forall i, j :: 0 <= i < j < |r.value| ==> NotAfter(r.value[i].user, r.value[j].user)
  {
    var bindings: seq<Binding> := [];
    for i := 0 to |sbs|
      invariant forall j :: 0 <= j < i ==> !Broken(space, sbs[j])
      invariant bindings == EntriesOfBindings(space, sbs[..i])
    {
      var sb := sbs[i];
      var binding := Binding(sb.user, sb.role, [], None);
      var bindingSpace := LabelOf(sb, SpaceLabel);
      var sbrName := LabelOf(sb, RequestNameLabel);
      var sbrNamespace := LabelOf(sb, RequestNamespaceLabel);
      if (RequestNameLabel in sb.labels || RequestNamespaceLabel in sb.labels) && bindingSpace == space {
        if sbrName == "" {
          assert Broken(space, sbs[i]);
          return Err(RequestNameMissing);
        }
        if sbrNamespace == "" {
          assert Broken(space, sbs[i]);
          return Err(RequestNamespaceMissing);
        }
        binding := binding.(actions := [UPDATE, DELETE], request := Some(RequestRef(sbrName, sbrNamespace)));
      } else if bindingSpace != space {
        binding := binding.(actions := [OVERRIDE]);
      } else {
        binding := binding.(actions := []);
      }
      assert binding == EntryOfBinding(space, sb);
      assert EntriesOfBindings(space, sbs[..i + 1]) == EntriesOfBindings(space, sbs[..i]) + [binding];
      bindings := bindings + [binding];
    }
    assert sbs[..|sbs|] == sbs && sbrs[0..] == sbrs;
    for i := 0 to |sbrs|
      invariant WithRequests(bindings, sbrs[i..]) == Merged(space, sbs, sbrs)
    {
      var sbr := sbrs[i];
      assert sbrs[i..][0] == sbr && sbrs[i..][1..] == sbrs[i + 1..];
      var found := AlreadyInBindingList(bindings, sbr);
      if found {
        continue;
      }
      var binding := Binding(sbr.user, sbr.role, [UPDATE, DELETE], None);
      binding := binding.(request := Some(RequestRef(sbr.ref.name, sbr.ref.namespace)));
      assert binding == EntryOfRequest(sbr);
      bindings := bindings + [binding];
    }
    var sorted := SortBy(UserOf, bindings);
    return Ok(sorted);
  }

  // ----- what the merged list holds -----

  function RefsOf(sbrs: seq<SpaceBindingRequest>): set<RequestRef> {
    set k | 0 <= k < |sbrs| :: sbrs[k].ref
  }

  /** The requests some binding of the space itself was made from. */
  function ReferencedRefs(space: string, sbs: seq<SpaceBinding>): set<RequestRef> {
    set k | 0 <= k < |sbs| && OwnRequest(space, sbs[k]) :: RefOf(sbs[k])
  }

  predicate DistinctRequests(bindings: seq<Binding>) {
    forall i, j :: 0 <= i < j < |bindings| ==> bindings[i].request != bindings[j].request
  }

  function ListedRefs(bindings: seq<Binding>): set<RequestRef> {
    set k | 0 <= k < |bindings| && bindings[k].request.Some? :: bindings[k].request.value
  }

  predicate FirstAt(sbrs: seq<SpaceBindingRequest>, k: nat)
    requires k < |sbrs|
  {
    forall j :: 0 <= j < k ==> sbrs[j].ref != sbrs[k].ref
  }

  predicate FirstOfItsRef(sbrs: seq<SpaceBindingRequest>, b: Binding) {
    exists k :: 0 <= k < |sbrs| && b == EntryOfRequest(sbrs[k]) && FirstAt(sbrs, k)
  }

  /** Adding the requests appends one entry for each reference that was not listed, made from the
      first request of that reference. */
  lemma {:induction false} WithRequestsAppends(bindings: seq<Binding>, sbrs: seq<SpaceBindingRequest>)
    returns (added: seq<Binding>)
    ensures WithRequests(bindings, sbrs) == bindings + added
    ensures DistinctRequests(added)
    ensures forall k :: 0 <= k < |added| ==> FirstOfItsRef(sbrs, added[k])
    ensures ListedRefs(added) == RefsOf(sbrs) - ListedRefs(bindings)
    decreases |sbrs|
  {
    if sbrs == [] {
      added := [];
    } else {
      var listed := Listed(bindings, sbrs[0].ref);
      var first := if listed then [] else [EntryOfRequest(sbrs[0])];
      var rest := WithRequestsAppends(bindings + first, sbrs[1..]);
      assert listed ==> bindings + first == bindings;
      added := first + rest;
      assert bindings + first + rest == bindings + added;
      assert RefsOf(sbrs) == RefsOf(sbrs[1..]) + {sbrs[0].ref} by {
        assert sbrs == [sbrs[0]] + sbrs[1..];
        forall ref | ref in RefsOf(sbrs) ensures ref in RefsOf(sbrs[1..]) + {sbrs[0].ref} {
          var k :| 0 <= k < |sbrs| && sbrs[k].ref == ref;
          if k > 0 { assert sbrs[1..][k - 1].ref == ref; }
        }
      }
      ListedRefsAppend(bindings, first);
      ListedRefsAppend(first, rest);
      AddedAreFirsts(sbrs, bindings + first, rest, first, listed);
    }
  }

  lemma ListedRefsAppend(a: seq<Binding>, b: seq<Binding>)
    ensures ListedRefs(a + b) == ListedRefs(a) + ListedRefs(b)
    ensures forall ref :: Listed(a, ref) <==> ref in ListedRefs(a)
  {
    forall ref | ref in ListedRefs(b) ensures ref in ListedRefs(a + b) {
      var k :| 0 <= k < |b| && b[k].request == Some(ref);
      assert (a + b)[|a| + k].request == Some(ref);
    }
    forall ref | ref in ListedRefs(a) ensures ref in ListedRefs(a + b) {
      var k :| 0 <= k < |a| && a[k].request == Some(ref);
      assert (a + b)[k].request == Some(ref);
    }
  }

  lemma AddedAreFirsts(sbrs: seq<SpaceBindingRequest>, before: seq<Binding>, rest: seq<Binding>, first: seq<Binding>,
                       listed: bool)
    requires sbrs != []
    requires first == if listed then [] else [EntryOfRequest(sbrs[0])]
    requires sbrs[0].ref in ListedRefs(before)
    requires DistinctRequests(rest)
    requires ListedRefs(rest) == RefsOf(sbrs[1..]) - ListedRefs(before)
    requires forall k :: 0 <= k < |rest| ==> FirstOfItsRef(sbrs[1..], rest[k])
    ensures DistinctRequests(first + rest)
    ensures forall k :: 0 <= k < |first + rest| ==> FirstOfItsRef(sbrs, (first + rest)[k])
  {
    forall k | 0 <= k < |rest|
      ensures FirstOfItsRef(sbrs, rest[k]) && rest[k].request != Some(sbrs[0].ref)
    {
      var i :| 0 <= i < |sbrs[1..]| && rest[k] == EntryOfRequest(sbrs[1..][i]) && FirstAt(sbrs[1..], i);
      assert rest[k].request.value in ListedRefs(rest);
      forall j | 0 <= j < i + 1 ensures sbrs[j].ref != sbrs[i + 1].ref {
        if j > 0 {
          assert sbrs[j] == sbrs[1..][j - 1];
        }
      }
      assert rest[k] == EntryOfRequest(sbrs[i + 1]) && FirstAt(sbrs, i + 1);
    }
    if !listed {
      assert FirstAt(sbrs, 0);
      assert FirstOfItsRef(sbrs, EntryOfRequest(sbrs[0]));
    }
  }

  lemma ListedOfEntries(space: string, sbs: seq<SpaceBinding>)
    ensures ListedRefs(EntriesOfBindings(space, sbs)) == ReferencedRefs(space, sbs)
  {
    var entries := EntriesOfBindings(space, sbs);
    forall ref | ref in ReferencedRefs(space, sbs) ensures ref in ListedRefs(entries) {
      var k :| 0 <= k < |sbs| && OwnRequest(space, sbs[k]) && RefOf(sbs[k]) == ref;
      assert entries[k].request == Some(ref);
    }
    forall ref | ref in ListedRefs(entries) ensures ref in ReferencedRefs(space, sbs) {
      var k :| 0 <= k < |entries| && entries[k].request == Some(ref);
      assert OwnRequest(space, sbs[k]) && RefOf(sbs[k]) == ref;
    }
  }

  lemma {:induction false} DistinctCount(bindings: seq<Binding>)
    requires DistinctRequests(bindings)
    requires forall k :: 0 <= k < |bindings| ==> bindings[k].request.Some?
    ensures |ListedRefs(bindings)| == |bindings|
  {
    if bindings != [] {
      DistinctCount(bindings[1..]);
      assert bindings == [bindings[0]] + bindings[1..];
      ListedRefsAppend([bindings[0]], bindings[1..]);
      var ref := bindings[0].request.value;
      assert ListedRefs([bindings[0]]) == {ref};
      forall k | 0 <= k < |bindings[1..]| ensures bindings[1..][k].request != Some(ref) {
        assert bindings[1..][k] == bindings[k + 1];
      }
    } else {
      assert ListedRefs(bindings) == {};
    }
  }

  /** The merged list is one entry per binding, in order, and then exactly one entry for each distinct
      request that no binding of the space itself refers to. Every request is referred to. */
  lemma MergedExactly(space: string, sbs: seq<SpaceBinding>, sbrs: seq<SpaceBindingRequest>)
    returns (added: seq<Binding>)
    ensures Merged(space, sbs, sbrs) == EntriesOfBindings(space, sbs) + added
    ensures DistinctRequests(added) && ListedRefs(added) == RefsOf(sbrs) - ReferencedRefs(space, sbs)
    ensures forall k :: 0 <= k < |added| ==> FirstOfItsRef(sbrs, added[k])
    ensures |Merged(space, sbs, sbrs)| == |sbs| + |RefsOf(sbrs) - ReferencedRefs(space, sbs)|
    ensures forall k :: 0 <= k < |sbrs| ==> Listed(Merged(space, sbs, sbrs), sbrs[k].ref)
  {
    var entries := EntriesOfBindings(space, sbs);
    added := WithRequestsAppends(entries, sbrs);
    ListedOfEntries(space, sbs);
    DistinctCount(added);
    ListedRefsAppend(entries, added);
    ListedRefsAppend(entries + added, []);
    forall k | 0 <= k < |sbrs| ensures Listed(Merged(space, sbs, sbrs), sbrs[k].ref) {
      assert sbrs[k].ref in RefsOf(sbrs);
    }
  }

  /** A binding is of the space itself and names a request, wholly or in part. */
  predicate NamesRequest(space: string, sb: SpaceBinding) {
    && (if SpaceLabel in sb.labels then sb.labels[SpaceLabel] == space else space == "")
    && (RequestNameLabel in sb.labels || RequestNamespaceLabel in sb.labels)
  }

  /** What makes the list fail: a binding that names a request without its name or without its namespace. A
      missing name is noticed first. */
  lemma BrokenExactly(space: string, sb: SpaceBinding)
    ensures Broken(space, sb) <==>
      && NamesRequest(space, sb)
      && (|| RequestNameLabel !in sb.labels || sb.labels[RequestNameLabel] == ""
          || RequestNamespaceLabel !in sb.labels || sb.labels[RequestNamespaceLabel] == "")
    ensures ErrorOf(sb) == RequestNameMissing
       <==> RequestNameLabel !in sb.labels || sb.labels[RequestNameLabel] == ""
  {
  }

  /** What a user may do with an entry: update or delete what a request of this space made, override
      what a parent space gave, nothing with what the system made. User and role are those of the binding,
      or of the first request with the entry's reference. */
  lemma ActionsOfMerged(space: string, sbs: seq<SpaceBinding>, sbrs: seq<SpaceBindingRequest>, k: nat)
    requires k < |Merged(space, sbs, sbrs)|
    ensures var b := Merged(space, sbs, sbrs)[k];
            && (b.request.Some? <==> b.actions == [UPDATE, DELETE])
            && (k >= |sbs| ==>
                  exists m :: 0 <= m < |sbrs| && b.request == Some(sbrs[m].ref) && FirstAt(sbrs, m)
                              && b.user == sbrs[m].user && b.role == sbrs[m].role)
            && (k < |sbs| ==>
                  && b.user == sbs[k].user && b.role == sbs[k].role
                  && (b.actions == [UPDATE, DELETE] <==>
                        (&& LabelOf(sbs[k], SpaceLabel) == space
                         && (RequestNameLabel in sbs[k].labels || RequestNamespaceLabel in sbs[k].labels)))
                  && (b.request.Some? ==>
                        && b.request.value.name == LabelOf(sbs[k], RequestNameLabel)
                        && b.request.value.namespace == LabelOf(sbs[k], RequestNamespaceLabel))
                  && (b.actions == [OVERRIDE] <==> LabelOf(sbs[k], SpaceLabel) != space)
                  && (b.actions == [] <==>
                        (&& LabelOf(sbs[k], SpaceLabel) == space
                         && RequestNameLabel !in sbs[k].labels && RequestNamespaceLabel !in sbs[k].labels)))
  {
    var added := MergedExactly(space, sbs, sbrs);
    if k >= |sbs| {
      assert FirstOfItsRef(sbrs, added[k - |sbs|]);
    }
  }

  predicate HasEntry(bindings: seq<Binding>, user: string) {
    exists k :: 0 <= k < |bindings| && bindings[k].user == user
  }

  predicate HasSpaceBinding(sbs: seq<SpaceBinding>, user: string) {
    exists k :: 0 <= k < |sbs| && sbs[k].user == user
  }

  /** Request `k` is the first of its reference and no binding of the space itself was made from it. */
  predicate RequestOnly(space: string, sbs: seq<SpaceBinding>, sbrs: seq<SpaceBindingRequest>, k: nat)
    requires k < |sbrs|
  {
    sbrs[k].ref !in ReferencedRefs(space, sbs) && FirstAt(sbrs, k)
  }

  lemma EntryOfRequestOnly(space: string, sbs: seq<SpaceBinding>, sbrs: seq<SpaceBindingRequest>, k: nat)
    requires k < |sbrs| && RequestOnly(space, sbs, sbrs, k)
    ensures HasEntry(Merged(space, sbs, sbrs), sbrs[k].user)
  {
    var added := MergedExactly(space, sbs, sbrs);
    assert sbrs[k].ref in ListedRefs(added);
    var i := EntryWithRef(sbrs, added, k);
    EntryAppended(EntriesOfBindings(space, sbs), added, i);
  }

  lemma EntryAppended(entries: seq<Binding>, added: seq<Binding>, i: nat)
    requires i < |added|
    ensures HasEntry(entries + added, added[i].user)
  {
    assert (entries + added)[|entries| + i] == added[i];
  }

  /** The entry for a listed reference is made from the first request of that reference. */
  lemma EntryWithRef(sbrs: seq<SpaceBindingRequest>, added: seq<Binding>, k: nat) returns (i: nat)
    requires k < |sbrs| && FirstAt(sbrs, k) && sbrs[k].ref in ListedRefs(added)
    requires forall i :: 0 <= i < |added| ==> FirstOfItsRef(sbrs, added[i])
    ensures i < |added| && added[i].user == sbrs[k].user
  {
    i :| 0 <= i < |added| && added[i].request == Some(sbrs[k].ref);
    assert FirstOfItsRef(sbrs, added[i]);
    var m :| 0 <= m < |sbrs| && added[i] == EntryOfRequest(sbrs[m]) && FirstAt(sbrs, m);
    assert sbrs[m].ref == sbrs[k].ref;
  }

  lemma EntryComesFrom(space: string, sbs: seq<SpaceBinding>, sbrs: seq<SpaceBindingRequest>, i: nat)
    requires i < |Merged(space, sbs, sbrs)|
    ensures var user := Merged(space, sbs, sbrs)[i].user;
            || HasSpaceBinding(sbs, user)
            || exists k :: 0 <= k < |sbrs| && sbrs[k].user == user && RequestOnly(space, sbs, sbrs, k)
  {
    var added := MergedExactly(space, sbs, sbrs);
    if i < |sbs| {
      assert Merged(space, sbs, sbrs)[i].user == sbs[i].user;
    } else {
      var b := added[i - |sbs|];
      assert FirstOfItsRef(sbrs, b);
      var k :| 0 <= k < |sbrs| && b == EntryOfRequest(sbrs[k]) && FirstAt(sbrs, k);
      assert b.request.value in ListedRefs(added);
      assert RequestOnly(space, sbs, sbrs, k);
    }
  }

  /** A user has an entry through a SpaceBinding, or only through a request that made none. */
  lemma EntryExactly(space: string, sbs: seq<SpaceBinding>, sbrs: seq<SpaceBindingRequest>, user: string)
    ensures HasEntry(Merged(space, sbs, sbrs), user)
       <==> (|| HasSpaceBinding(sbs, user)
             || exists k :: 0 <= k < |sbrs| && sbrs[k].user == user && RequestOnly(space, sbs, sbrs, k))
  {
    var merged := Merged(space, sbs, sbrs);
    if i :| 0 <= i < |merged| && merged[i].user == user {
      EntryComesFrom(space, sbs, sbrs, i);
    }
    if k :| 0 <= k < |sbs| && sbs[k].user == user {
      var added := MergedExactly(space, sbs, sbrs);
      assert merged[k] == EntryOfBinding(space, sbs[k]);
    }
    if k :| 0 <= k < |sbrs| && sbrs[k].user == user && RequestOnly(space, sbs, sbrs, k) {
      EntryOfRequestOnly(space, sbs, sbrs, k);
    }
  }
}
