/** Converting a whole group between v1alpha1 and v1alpha2: the fields only v1alpha1 has travel in annotations. */
module GroupConversion {
  import opened Wrappers
  import opened Sequences
  import opened Decimal
  import opened Conversion

  datatype Volcano = Volcano(queue: string, priorityClassName: string)

  /** `kube` holds the optional timeout of the kube scheduling policy. */
  datatype PodGroupPolicy = PodGroupPolicy(kube: Option<Option<int>>, volcano: Option<Volcano>)

  datatype RoleTemplate = RoleTemplate(name: string, template: string)

  datatype RoleStatus = RoleStatus(name: string, readyReplicas: int, replicas: int, updatedReplicas: int)

  datatype Status = Status(observedGeneration: int, conditions: seq<string>, roleStatuses: seq<RoleStatus>)

  /** `meta` is the object's metadata besides its annotations. */
  datatype GroupV1 = GroupV1(
    meta: string,
    annotations: map<Key, string>,
    roleTemplates: seq<RoleTemplate>,
    roles: seq<RoleV1>,
    podGroupPolicy: Option<PodGroupPolicy>,
    coordination: seq<string>,
    status: Status)

  datatype GroupV2 = GroupV2(
    meta: string,
    annotations: map<Key, string>,
    roleTemplates: seq<RoleTemplate>,
    roles: seq<RoleV2>,
    status: Status)

  /** Serialisation of the saved fields. */
  datatype Codec = Codec(
    writePolicy: PodGroupPolicy -> string,
    readPolicy: string -> Option<PodGroupPolicy>,
    writeCoordination: seq<string> -> string,
    readCoordination: string -> Option<seq<string>>)

  /** What is written can be read back, and is never empty. */
  ghost predicate Faithful(c: Codec) {
    && (forall p :: c.writePolicy(p) != "" && c.readPolicy(c.writePolicy(p)) == Some(p))
    && (forall s :: c.writeCoordination(s) != "" && c.readCoordination(c.writeCoordination(s)) == Some(s))
  }

  /** The annotations that exist only for the conversion. */
  const OWNED := {SavedPodGroupPolicy, SavedCoordination, GangScheduling, GangTimeout, GangVolcanoQueue,
                  GangVolcanoPriority, GroupExclusiveTopology}

  // ----- Annotations

  function TranslateTopology(a: map<Key, string>): map<Key, string> {
    if ExclusiveTopologyV1 in a then a[GroupExclusiveTopology := a[ExclusiveTopologyV1]] else a
  }

  function TranslatePolicy(a: map<Key, string>, p: PodGroupPolicy): map<Key, string> {
    if p.kube.Some? then
      var gang := a[GangScheduling := "true"];
      if p.kube.value.Some? then gang[GangTimeout := FormatInt(p.kube.value.value)] else gang
    else if p.volcano.Some? then
      var gang := a[GangScheduling := "true"];
      var queued := if p.volcano.value.queue != "" then gang[GangVolcanoQueue := p.volcano.value.queue] else gang;
      if p.volcano.value.priorityClassName != ""
      then queued[GangVolcanoPriority := p.volcano.value.priorityClassName] else queued
    else a
  }

  function SavePolicy(c: Codec, a: map<Key, string>, p: Option<PodGroupPolicy>): map<Key, string> {
    match p
    case None => a
    case Some(policy) => TranslatePolicy(a[SavedPodGroupPolicy := c.writePolicy(policy)], policy)
  }

  function SaveCoordination(c: Codec, a: map<Key, string>, coordination: seq<string>): map<Key, string> {
    if coordination == [] then a else a[SavedCoordination := c.writeCoordination(coordination)]
  }

  function Preserved(c: Codec, g: GroupV1): map<Key, string> {
    SaveCoordination(c, SavePolicy(c, TranslateTopology(g.annotations), g.podGroupPolicy), g.coordination)
  }

  function Lookup(a: map<Key, string>, k: Key): string {
    if k in a then a[k] else ""
  }

  /** A saved field: Success of nothing when there is none, Failure when it cannot be read. */
  function RestorePolicy(c: Codec, a: map<Key, string>): Result<Option<PodGroupPolicy>, ()> {
    var raw := Lookup(a, SavedPodGroupPolicy);
    if raw == "" then Success(None)
    else
      match c.readPolicy(raw)
      case None => Failure(())
      case Some(p) => Success(Some(p))
  }

  function RestoreCoordination(c: Codec, a: map<Key, string>): Result<seq<string>, ()> {
    var raw := Lookup(a, SavedCoordination);
    if raw == "" then Success([])
    else
      match c.readCoordination(raw)
      case None => Failure(())
      case Some(s) => Success(s)
  }

  // ----- The two conversions

  function ToHub(c: Codec, g: GroupV1): GroupV2 {
    GroupV2(g.meta, Preserved(c, g), g.roleTemplates, Mapped(RoleToHub, g.roles), g.status)
  }

  function FromHub(c: Codec, g: GroupV2): Result<GroupV1, ()> {
    var policy, coordination := RestorePolicy(c, g.annotations), RestoreCoordination(c, g.annotations);
    if policy.Failure? || coordination.Failure? then Failure(())
    else Success(GroupV1(g.meta, g.annotations - OWNED, g.roleTemplates, Mapped(RoleFromHub, g.roles), policy.value,
                         coordination.value, g.status))
  }

  /** Exactly the seven keys that only the conversion uses are gone, and every other annotation is as it was. */
  ghost predicate Stripped(before: map<Key, string>, after: map<Key, string>) {
    forall k ::
      if k in {SavedPodGroupPolicy, SavedCoordination, GangScheduling, GangTimeout, GangVolcanoQueue,
               GangVolcanoPriority, GroupExclusiveTopology}
      then k !in after
      else (k in after <==> k in before) && (k in before ==> after[k] == before[k])
  }

  /** Empty lists of the source leave the destination's as they were. */
  function Overlay<T>(source: seq<T>, prior: seq<T>): seq<T> {
    if source == [] then prior else source
  }

  function OverlayStatus(source: Status, prior: Status): Status {
    source.(roleStatuses := Overlay(source.roleStatuses, prior.roleStatuses))
  }

  /** The conversion into an object that already holds `prior`. */
  function ToHubOnto(c: Codec, g: GroupV1, prior: GroupV2): GroupV2 {
    ToHub(c, g).(roleTemplates := Overlay(g.roleTemplates, prior.roleTemplates),
                 status := OverlayStatus(g.status, prior.status))
  }

  /** A field that is not saved stays as it was, too. */
  function FromHubOnto(c: Codec, g: GroupV2, prior: GroupV1): Result<GroupV1, ()> {
    match FromHub(c, g)
    case Failure(e) => Failure(e)
    case Success(v) =>
      Success(v.(
        roleTemplates := Overlay(g.roleTemplates, prior.roleTemplates),
        status := OverlayStatus(g.status, prior.status),
        podGroupPolicy :=
          if Lookup(g.annotations, SavedPodGroupPolicy) == "" then prior.podGroupPolicy else v.podGroupPolicy,
        coordination := if Lookup(g.annotations, SavedCoordination) == "" then prior.coordination else v.coordination))
  }

  predicate BlankV2(g: GroupV2) {
    g.roleTemplates == [] && g.status.roleStatuses == []
  }

  predicate BlankV1(g: GroupV1) {
    g.roleTemplates == [] && g.status.roleStatuses == [] && g.podGroupPolicy == None && g.coordination == []
  }

  /** Into a new object, which is how a conversion webhook calls it, nothing shows through. */
  lemma NothingShowsThrough(c: Codec, g: GroupV1, hub: GroupV2, priorV1: GroupV1, priorV2: GroupV2)
    ensures BlankV2(priorV2) ==> ToHubOnto(c, g, priorV2) == ToHub(c, g)
    ensures BlankV1(priorV1) ==> FromHubOnto(c, hub, priorV1) == FromHub(c, hub)
  {
    if BlankV1(priorV1) && FromHub(c, hub).Success? {
      assert Overlay(hub.roleTemplates, priorV1.roleTemplates) == hub.roleTemplates;
      assert FromHubOnto(c, hub, priorV1).value == FromHub(c, hub).value;
    }
  }

  /** Of an object that is converted into, exactly the lists that the source leaves empty show through. */
  lemma ShowsThroughExactly(c: Codec, g: GroupV1, prior: GroupV2)
    ensures ToHubOnto(c, g, prior) == ToHub(c, g) <==>
            && (g.roleTemplates == [] ==> prior.roleTemplates == [])
            && (g.status.roleStatuses == [] ==> prior.status.roleStatuses == [])
  {
    assert ToHubOnto(c, g, prior).roleTemplates == Overlay(g.roleTemplates, prior.roleTemplates);
    assert ToHubOnto(c, g, prior).status.roleStatuses == Overlay(g.status.roleStatuses, prior.status.roleStatuses);
  }

  /** And on the way back the two saved fields as well, when they are not saved. */
  lemma ShowsThroughBackExactly(c: Codec, hub: GroupV2, prior: GroupV1)
    requires FromHub(c, hub).Success?
    ensures FromHubOnto(c, hub, prior) == FromHub(c, hub) <==>
            && (hub.roleTemplates == [] ==> prior.roleTemplates == [])
            && (hub.status.roleStatuses == [] ==> prior.status.roleStatuses == [])
            && (Lookup(hub.annotations, SavedPodGroupPolicy) == "" ==> prior.podGroupPolicy == None)
            && (Lookup(hub.annotations, SavedCoordination) == "" ==> prior.coordination == [])
  {
    var v := FromHubOnto(c, hub, prior).value;
    assert v.roleTemplates == Overlay(hub.roleTemplates, prior.roleTemplates);
    assert v.status.roleStatuses == Overlay(hub.status.roleStatuses, prior.status.roleStatuses);
  }

  /** The conversion back fails exactly when a field was saved in a form that cannot be read. */
  lemma FromHubFailsExactly(c: Codec, hub: GroupV2)
    ensures FromHub(c, hub).Failure? <==>
            || (SavedPodGroupPolicy in hub.annotations && hub.annotations[SavedPodGroupPolicy] != ""
                && c.readPolicy(hub.annotations[SavedPodGroupPolicy]).None?)
            || (SavedCoordination in hub.annotations && hub.annotations[SavedCoordination] != ""
                && c.readCoordination(hub.annotations[SavedCoordination]).None?)
  {
  }

  /** An annotation map that several objects can share. */
  class AnnotationMap {
    var entries: map<Key, string>

    constructor (entries: map<Key, string>)
      ensures this.entries == entries
    {
      this.entries := entries;
    }
  }

  class V2Object {
    var meta: string
    var annotations: AnnotationMap?
    var roleTemplates: seq<RoleTemplate>
    var roles: seq<RoleV2>
    var status: Status

    constructor () {
      meta, annotations, roleTemplates, roles, status := "", null, [], [], Status(0, [], []);
    }

    function Value(): GroupV2
      reads this, annotations
    {
      GroupV2(meta, if annotations == null then map[] else annotations.entries, roleTemplates, roles, status)
    }
  }

  method RolesToHub(roles: seq<RoleV1>) returns (hub: seq<RoleV2>)
    ensures hub == Mapped(RoleToHub, roles)
  {
    hub := [];
    for i := 0 to |roles|
      invariant hub == Mapped(RoleToHub, roles[..i])
    {
      assert roles[..i + 1][..i] == roles[..i];
      hub := hub + [RoleToHub(roles[i])];
    }
    assert roles[..|roles|] == roles;
  }

  method RolesFromHub(hub: seq<RoleV2>) returns (roles: seq<RoleV1>)
    ensures roles == Mapped(RoleFromHub, hub)
  {
    roles := [];
    for i := 0 to |hub|
      invariant roles == Mapped(RoleFromHub, hub[..i])
    {
      assert hub[..i + 1][..i] == hub[..i];
      roles := roles + [RoleFromHub(hub[i])];
    }
    assert hub[..|hub|] == hub;
  }

  class V1Object {
    var meta: string
    var annotations: AnnotationMap?
    var roleTemplates: seq<RoleTemplate>
    var roles: seq<RoleV1>
    var podGroupPolicy: Option<PodGroupPolicy>
    var coordination: seq<string>
    var status: Status

    constructor (g: GroupV1)
      ensures Value() == g && annotations != null && fresh(annotations)
    {
      var a := new AnnotationMap(g.annotations);
      meta, annotations, roleTemplates, roles := g.meta, a, g.roleTemplates, g.roles;
      podGroupPolicy, coordination, status := g.podGroupPolicy, g.coordination, g.status;
    }

    function Value(): GroupV1
      reads this, annotations
    {
      GroupV1(meta, if annotations == null then map[] else annotations.entries, roleTemplates, roles, podGroupPolicy,
              coordination, status)
    }

    method SpecAndStatusTo(dst: V2Object)
      modifies dst`roleTemplates, dst`roles, dst`status
      ensures dst.roleTemplates == Overlay(roleTemplates, old(dst.roleTemplates))
      ensures dst.roles == Mapped(RoleToHub, roles)
      ensures dst.status == OverlayStatus(status, old(dst.status))
    {
      if |roleTemplates| > 0 { dst.roleTemplates := roleTemplates; }
      dst.roles := RolesToHub(roles);
      dst.status := Status(status.observedGeneration, status.conditions, dst.status.roleStatuses);
      if |status.roleStatuses| > 0 { dst.status := dst.status.(roleStatuses := status.roleStatuses); }
    }

    method PreserveV1alpha1Fields(c: Codec, dst: V2Object)
      modifies dst`annotations, dst.annotations
      ensures dst.annotations != null
      ensures if old(dst.annotations) == null then fresh(dst.annotations) else dst.annotations == old(dst.annotations)
      ensures dst.annotations.entries ==
              SaveCoordination(c, SavePolicy(c, TranslateTopology(old(dst.Value().annotations)), podGroupPolicy),
                               coordination)
    {
      if dst.annotations == null {
        dst.annotations := new AnnotationMap(map[]);
      }
      var a := dst.annotations;
      if ExclusiveTopologyV1 in a.entries {
        a.entries := a.entries[GroupExclusiveTopology := a.entries[ExclusiveTopologyV1]];
      }
      if podGroupPolicy.Some? {
        a.entries := a.entries[SavedPodGroupPolicy := c.writePolicy(podGroupPolicy.value)];
        a.entries := TranslatePolicy(a.entries, podGroupPolicy.value);
      }
      if |coordination| > 0 {
        a.entries := a.entries[SavedCoordination := c.writeCoordination(coordination)];
      }
    }

    /** Fills `dst`. The two objects share one annotation map afterwards, so this object's annotations become those of
        the hub as well, unless it had none. */
    method ConvertTo(c: Codec, dst: V2Object)
      modifies dst, annotations
      ensures dst.Value() == ToHubOnto(c, old(Value()), old(dst.Value()))
      ensures if annotations == null then fresh(dst.annotations) && Value() == old(Value())
              else dst.annotations == annotations && Value() == old(Value()).(annotations := dst.Value().annotations)
    {
      dst.meta, dst.annotations := meta, annotations;
      SpecAndStatusTo(dst);
      PreserveV1alpha1Fields(c, dst);
    }

    method SpecAndStatusFrom(src: V2Object)
      modifies this`roleTemplates, this`roles, this`status
      ensures roleTemplates == Overlay(src.roleTemplates, old(roleTemplates))
      ensures roles == Mapped(RoleFromHub, src.roles)
      ensures status == OverlayStatus(src.status, old(status))
    {
      if |src.roleTemplates| > 0 { roleTemplates := src.roleTemplates; }
      roles := RolesFromHub(src.roles);
      status := Status(src.status.observedGeneration, src.status.conditions, status.roleStatuses);
      if |src.status.roleStatuses| > 0 { status := status.(roleStatuses := src.status.roleStatuses); }
    }

    method RestoreV1alpha1Fields(c: Codec, saved: map<Key, string>) returns (ok: bool)
      modifies this`podGroupPolicy, this`coordination
      ensures ok <==> RestorePolicy(c, saved).Success? && RestoreCoordination(c, saved).Success?
      ensures ok ==> podGroupPolicy ==
                     if Lookup(saved, SavedPodGroupPolicy) == "" then old(podGroupPolicy)
                     else RestorePolicy(c, saved).value
      ensures ok ==> coordination ==
                     if Lookup(saved, SavedCoordination) == "" then old(coordination)
                     else RestoreCoordination(c, saved).value
    {
      if Lookup(saved, SavedPodGroupPolicy) != "" {
        var policy := c.readPolicy(saved[SavedPodGroupPolicy]);
        if policy.None? { return false; }
        podGroupPolicy := policy;
      }
      if Lookup(saved, SavedCoordination) != "" {
        var read := c.readCoordination(saved[SavedCoordination]);
        if read.None? { return false; }
        coordination := read.value;
      }
      return true;
    }

    /** Fills this object from the hub, or fails when a saved field cannot be read. Afterwards the hub shares the
        annotation map, so it loses the conversion's annotations too. */
    method ConvertFrom(c: Codec, src: V2Object) returns (ok: bool)
      modifies this, src.annotations
      ensures ok <==> FromHub(c, old(src.Value())).Success?
      ensures ok ==> Value() == FromHubOnto(c, old(src.Value()), old(Value())).value && annotations == src.annotations
      ensures ok && src.annotations != null ==> Stripped(old(src.annotations.entries), annotations.entries)
      ensures ok && src.annotations != null ==> src.Value() == old(src.Value()).(annotations := Value().annotations)
      ensures !ok || src.annotations == null ==> src.Value() == old(src.Value())
    {
      meta, annotations := src.meta, src.annotations;
      SpecAndStatusFrom(src);
      ok := RestoreV1alpha1Fields(c, src.Value().annotations);
      if ok && annotations != null {
        annotations.entries := annotations.entries - OWNED;
      }
    }
  }

  // ----- There and back

  function GroupTrip(c: Codec, g: GroupV1): Result<GroupV1, ()> {
    FromHub(c, ToHub(c, g))
  }

  function RoleNoted(r: RoleV1): RoleV1 {
    Noted(r)
  }

  /** A group as it should come back: its roles have their workload noted. */
  function NotedGroup(g: GroupV1): GroupV1 {
    g.(roles := Mapped(RoleNoted, g.roles))
  }

  predicate WellFormed(g: GroupV1) {
    g.annotations.Keys !! OWNED && forall r :: r in g.roles ==> WellFormedRole(r)
  }

  /** What the controller reads on the hub says what the v1alpha1 object asked for: a gang exactly when a scheduling
      policy is set, kube before Volcano, with its timeout. */
  lemma HubIsReadable(c: Codec, g: GroupV1)
    requires g.annotations.Keys !! OWNED
    ensures var a := ToHub(c, g).annotations;
            var kube := g.podGroupPolicy.Some? && g.podGroupPolicy.value.kube.Some?;
            var volcano := g.podGroupPolicy.Some? && !kube && g.podGroupPolicy.value.volcano.Some?;
            && (GangScheduling in a <==> kube || volcano)
            && (GangScheduling in a ==> a[GangScheduling] == "true")
            && (GangTimeout in a <==> kube && g.podGroupPolicy.value.kube.value.Some?)
            && (GangTimeout in a && g.podGroupPolicy.value.kube.value.value >= 0 ==>
                  Atoi(a[GangTimeout]) == g.podGroupPolicy.value.kube.value)
  {
    if g.podGroupPolicy.Some? && g.podGroupPolicy.value.kube.Some? && g.podGroupPolicy.value.kube.value.Some?
       && g.podGroupPolicy.value.kube.value.value >= 0
    {
      AtoiItoa(g.podGroupPolicy.value.kube.value.value);
    }
    assert forall k :: k in OWNED ==> k !in g.annotations;
  }

  /** The queue and the priority class are there exactly for Volcano alone and when they are set. */
  lemma HubSaysVolcano(c: Codec, g: GroupV1)
    requires g.annotations.Keys !! OWNED
    ensures var a, p := ToHub(c, g).annotations, g.podGroupPolicy;
            var volcano := p.Some? && p.value.kube.None? && p.value.volcano.Some?;
            && (volcano ==> Lookup(a, GangVolcanoQueue) == p.value.volcano.value.queue)
            && (volcano ==> Lookup(a, GangVolcanoPriority) == p.value.volcano.value.priorityClassName)
            && (GangVolcanoQueue in a ==> volcano && a[GangVolcanoQueue] != "")
            && (GangVolcanoPriority in a ==> volcano && a[GangVolcanoPriority] != "")
  {
    assert forall k :: k in OWNED ==> k !in g.annotations;
  }

  /** The exclusive topology is under the controller's key exactly when it is under the v1alpha1 one. */
  lemma HubSaysTopology(c: Codec, g: GroupV1)
    requires g.annotations.Keys !! OWNED
    ensures var a := ToHub(c, g).annotations;
            && (GroupExclusiveTopology in a <==> ExclusiveTopologyV1 in g.annotations)
            && Lookup(a, GroupExclusiveTopology) == Lookup(g.annotations, ExclusiveTopologyV1)
  {
    assert GroupExclusiveTopology in OWNED;
  }

  lemma PreservedKeeps(c: Codec, g: GroupV1)
    ensures Preserved(c, g) - OWNED == g.annotations - OWNED
  {
    TopologyKeeps(g.annotations);
    PolicyKeeps(c, TranslateTopology(g.annotations), g.podGroupPolicy);
    var a := SavePolicy(c, TranslateTopology(g.annotations), g.podGroupPolicy);
    assert SaveCoordination(c, a, g.coordination) - OWNED == a - OWNED;
  }

  lemma TopologyKeeps(a: map<Key, string>)
    ensures TranslateTopology(a) - OWNED == a - OWNED
    ensures Lookup(TranslateTopology(a), SavedPodGroupPolicy) == Lookup(a, SavedPodGroupPolicy)
    ensures Lookup(TranslateTopology(a), SavedCoordination) == Lookup(a, SavedCoordination)
  {
  }

  lemma PolicyKeeps(c: Codec, a: map<Key, string>, p: Option<PodGroupPolicy>)
    ensures SavePolicy(c, a, p) - OWNED == a - OWNED
    ensures Lookup(SavePolicy(c, a, p), SavedCoordination) == Lookup(a, SavedCoordination)
    ensures Lookup(SavePolicy(c, a, p), SavedPodGroupPolicy) ==
            if p.Some? then c.writePolicy(p.value) else Lookup(a, SavedPodGroupPolicy)
  {
  }

  /** What comes back of the lossy fields: the field itself, or what an annotation of the input already held. */
  lemma SavedFieldsTrip(c: Codec, g: GroupV1)
    requires Faithful(c)
    ensures RestorePolicy(c, Preserved(c, g)) ==
            if g.podGroupPolicy.Some? then Success(g.podGroupPolicy) else RestorePolicy(c, g.annotations)
    ensures RestoreCoordination(c, Preserved(c, g)) ==
            if g.coordination != [] then Success(g.coordination) else RestoreCoordination(c, g.annotations)
  {
    TopologyKeeps(g.annotations);
    PolicyKeeps(c, TranslateTopology(g.annotations), g.podGroupPolicy);
  }

  lemma RolesTrip(roles: seq<RoleV1>)
    ensures Mapped(RoleFromHub, Mapped(RoleToHub, roles)) == Mapped(RoleTrip, roles)
  {
    MappedTwice(RoleToHub, RoleFromHub, RoleTrip, roles);
  }

  lemma RolesTripExactly(roles: seq<RoleV1>)
    ensures Mapped(RoleTrip, roles) == Mapped(RoleNoted, roles) <==> forall r :: r in roles ==> WellFormedRole(r)
  {
    MappedSame(RoleTrip, RoleNoted, roles);
    forall i | 0 <= i < |roles|
      ensures RoleTrip(roles[i]) == RoleNoted(roles[i]) <==> WellFormedRole(roles[i])
    {
      RoleTripExactly(roles[i]);
    }
  }

  lemma TripValue(c: Codec, g: GroupV1)
    requires Faithful(c) && GroupTrip(c, g).Success?
    ensures GroupTrip(c, g).value.annotations == g.annotations - OWNED
    ensures GroupTrip(c, g).value.roles == Mapped(RoleTrip, g.roles)
    ensures GroupTrip(c, g).value.meta == g.meta && GroupTrip(c, g).value.status == g.status
    ensures GroupTrip(c, g).value.roleTemplates == g.roleTemplates
  {
    PreservedKeeps(c, g);
    RolesTrip(g.roles);
  }

  lemma TripSucceeds(c: Codec, g: GroupV1)
    requires Faithful(c) && g.annotations.Keys !! OWNED
    ensures GroupTrip(c, g).Success?
    ensures GroupTrip(c, g).value.podGroupPolicy == g.podGroupPolicy
    ensures GroupTrip(c, g).value.coordination == g.coordination
  {
    SavedFieldsTrip(c, g);
    assert SavedPodGroupPolicy in OWNED && SavedCoordination in OWNED;
  }

  /** No annotation is lost or changed by the trip but those of the conversion; in particular the exclusive topology
      of the user comes back. */
  lemma AnnotationsReturn(c: Codec, g: GroupV1)
    requires Faithful(c) && GroupTrip(c, g).Success?
    ensures Stripped(g.annotations, GroupTrip(c, g).value.annotations)
    ensures Lookup(GroupTrip(c, g).value.annotations, ExclusiveTopologyV1) == Lookup(g.annotations, ExclusiveTopologyV1)
  {
    TripValue(c, g);
  }

  /** On the way to the hub none but those seven keys is written. */
  lemma HubKeepsAnnotations(c: Codec, g: GroupV1, k: Key)
    requires k !in {SavedPodGroupPolicy, SavedCoordination, GangScheduling, GangTimeout, GangVolcanoQueue,
                    GangVolcanoPriority, GroupExclusiveTopology}
    ensures k in ToHub(c, g).annotations <==> k in g.annotations
    ensures k in g.annotations ==> ToHub(c, g).annotations[k] == g.annotations[k]
  {
    PreservedKeeps(c, g);
    assert k in Preserved(c, g) - OWNED <==> k in Preserved(c, g);
    assert k in g.annotations - OWNED <==> k in g.annotations;
    if k in g.annotations { assert (Preserved(c, g) - OWNED)[k] == (g.annotations - OWNED)[k]; }
  }

  /** A group survives the trip, up to the noted workload types, exactly when it is well formed. */
  lemma GroupTripExactly(c: Codec, g: GroupV1)
    requires Faithful(c)
    ensures GroupTrip(c, g) == Success(NotedGroup(g)) <==> WellFormed(g)
  {
    RolesTripExactly(g.roles);
    if g.annotations.Keys !! OWNED {
      TripSucceeds(c, g);
      TripValue(c, g);
      assert g.annotations - OWNED == g.annotations;
    } else if GroupTrip(c, g).Success? {
      TripValue(c, g);
      var k :| k in g.annotations && k in OWNED;
      assert k !in GroupTrip(c, g).value.annotations;
    }
  }

  // ----- A second trip

  /** Whatever came back once comes back again, unchanged exactly when no role was given the default workload. */
  lemma GroupTwiceExactly(c: Codec, g: GroupV1)
    requires Faithful(c) && GroupTrip(c, g).Success?
    ensures GroupTrip(c, GroupTrip(c, g).value).Success?
    ensures GroupTrip(c, GroupTrip(c, g).value) == GroupTrip(c, g) <==> forall r :: r in g.roles ==> !Defaulted(r)
  {
    var once := GroupTrip(c, g).value;
    TripValue(c, g);
    TripSucceeds(c, once);
    TripValue(c, once);
    assert once.annotations - OWNED == once.annotations;
    RolesTwice(g.roles);
  }

  function TwoTrips(r: RoleV1): RoleV1 {
    RoleTrip(RoleTrip(r))
  }

  predicate Stable(r: RoleV1) {
    TwoTrips(r) == RoleTrip(r)
  }

  lemma StableExactly(r: RoleV1)
    ensures Stable(r) <==> !Defaulted(r)
  {
    RoleTwiceExactly(r);
  }

  lemma RolesTwice(roles: seq<RoleV1>)
    ensures Mapped(RoleTrip, Mapped(RoleTrip, roles)) == Mapped(RoleTrip, roles) <==>
            forall r :: r in roles ==> !Defaulted(r)
  {
    RolesStable(roles);
    forall r | r in roles
      ensures Stable(r) <==> !Defaulted(r)
    {
      StableExactly(r);
    }
  }

  lemma RolesStable(roles: seq<RoleV1>)
    ensures Mapped(RoleTrip, Mapped(RoleTrip, roles)) == Mapped(RoleTrip, roles) <==>
            forall r :: r in roles ==> Stable(r)
  {
    MappedTwice(RoleTrip, RoleTrip, TwoTrips, roles);
    MappedSame(TwoTrips, RoleTrip, roles);
    assert (forall r :: r in roles ==> Stable(r)) <==> forall i :: 0 <= i < |roles| ==> Stable(roles[i]);
  }

  /** No role that came back is given the default workload once more. */
  lemma ReturnedNotDefaulted(roles: seq<RoleV1>)
    ensures forall r :: r in Mapped(RoleTrip, roles) ==> !Defaulted(r)
  {
    MappedAt(RoleTrip, roles);
    forall i | 0 <= i < |roles|
      ensures !Defaulted(RoleTrip(roles[i]))
    {
      RoleTwiceExactly(roles[i]);
    }
  }

  /** A third trip never changes anything. */
  lemma GroupTripSettles(c: Codec, g: GroupV1)
    requires Faithful(c) && GroupTrip(c, g).Success?
    ensures var once := GroupTrip(c, g).value;
            GroupTrip(c, once).Success? && GroupTrip(c, GroupTrip(c, once).value) == GroupTrip(c, once)
  {
    var once := GroupTrip(c, g).value;
    GroupTwiceExactly(c, g);
    TripValue(c, g);
    ReturnedNotDefaulted(g.roles);
    GroupTwiceExactly(c, once);
  }
}
