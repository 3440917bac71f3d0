/** Controller revisions of a group: patches, applying a revision, and the cache of semantic equality. */
module Revisions {
  import opened Wrappers

  /** `body` is everything of a role except its name and its replica count. */
  datatype Role = Role(name: string, body: string, replicas: int)

  /** `rest` is everything of the object outside the roles and the role templates. */
  datatype Group = Group(uid: string, generation: int, roles: seq<Role>, templates: seq<string>, rest: string)

  datatype PatchRole = PatchRole(name: string, body: string)

  /** A replacement of both lists; replica counts are not part of it. */
  datatype Patch = Patch(roles: seq<PatchRole>, templates: seq<string>)

  /** The stored bytes: a patch as some version of the serializer wrote it, or bytes that do not parse. Two
      versions may write one patch differently. */
  datatype Raw = Encoded(serializer: int, patch: Patch) | Unreadable(bytes: string)

  datatype Revision = Revision(name: string, number: int, created: int, resourceVersion: string, raw: Raw)

  // ----- Patches

  function StripReplicas(roles: seq<Role>): (r: seq<PatchRole>)
    ensures |r| == |roles|
    ensures forall i :: 0 <= i < |r| ==> r[i] == PatchRole(roles[i].name, roles[i].body)
  {
    if roles == [] then []
    else
      var last := roles[|roles| - 1];
      StripReplicas(roles[..|roles| - 1]) + [PatchRole(last.name, last.body)]
  }

  function PatchOf(g: Group): Patch {
    Patch(StripReplicas(g.roles), g.templates)
  }

  function GroupPatch(g: Group, serializer: int): Raw {
    Encoded(serializer, PatchOf(g))
  }

  // ----- Applying a revision

  /** The replica counts by role name; of several roles with one name the last counts. */
  function ReplicasByName(roles: seq<Role>): map<string, int> {
    if roles == [] then map[]
    else ReplicasByName(roles[..|roles| - 1])[roles[|roles| - 1].name := roles[|roles| - 1].replicas]
  }

  function Restore(role: PatchRole, current: map<string, int>): Role {
    Role(role.name, role.body, if role.name in current then current[role.name] else 1)
  }

  function RestoreAll(roles: seq<PatchRole>, current: map<string, int>): (r: seq<Role>)
    ensures |r| == |roles|
    ensures forall i :: 0 <= i < |r| ==> r[i] == Restore(roles[i], current)
  {
    if roles == [] then [] else RestoreAll(roles[..|roles| - 1], current) + [Restore(roles[|roles| - 1], current)]
  }

  function Applied(g: Group, raw: Raw): Option<Group> {
    match raw
    case Unreadable(_) => None
    case Encoded(_, patch) =>
      Some(g.(roles := RestoreAll(patch.roles, ReplicasByName(g.roles)), templates := patch.templates))
  }

  method ApplyRevision(g: Group, revision: Revision) returns (restored: Option<Group>)
    ensures restored == Applied(g, revision.raw)
  {
    var currentReplicas: map<string, int> := map[];
    for i := 0 to |g.roles|
      invariant currentReplicas == ReplicasByName(g.roles[..i])
    {
      assert g.roles[..i + 1][..i] == g.roles[..i];
      currentReplicas := currentReplicas[g.roles[i].name := g.roles[i].replicas];
    }
    assert g.roles[..|g.roles|] == g.roles;
    if revision.raw.Unreadable? { return None; }
    var patched := revision.raw.patch;
    var roles: seq<Role> := [];
    for i := 0 to |patched.roles|
      invariant roles == RestoreAll(patched.roles[..i], currentReplicas)
    {
      assert patched.roles[..i + 1][..i] == patched.roles[..i];
      var role := patched.roles[i];
      var count := if role.name in currentReplicas then currentReplicas[role.name] else 1;
      roles := roles + [Role(role.name, role.body, count)];
    }
    assert patched.roles[..|patched.roles|] == patched.roles;
    return Some(g.(roles := roles, templates := patched.templates));
  }

  // ----- Rollback

  /** Re-patching what a revision restores gives the revision's own patch back, on any current group. */
  lemma RepatchGivesRevision(current: Group, raw: Raw, serializer: int)
    requires raw.Encoded?
    ensures PatchOf(Applied(current, raw).value) == raw.patch
    ensures GroupPatch(Applied(current, raw).value, serializer) == Encoded(serializer, raw.patch)
  {
    var restored := Applied(current, raw).value;
    var stripped := StripReplicas(restored.roles);
    assert forall i :: 0 <= i < |stripped| ==> stripped[i] == raw.patch.roles[i];
  }

  /** Of several roles with one name the last one's count is taken. */
  lemma {:induction false} LastCountTaken(roles: seq<Role>, i: nat)
    requires i < |roles| && forall j :: i < j < |roles| ==> roles[j].name != roles[i].name
    ensures roles[i].name in ReplicasByName(roles) && ReplicasByName(roles)[roles[i].name] == roles[i].replicas
    decreases |roles|
  {
    if i < |roles| - 1 { LastCountTaken(roles[..|roles| - 1], i); }
  }

  lemma {:induction false} ReplicasByNameDomain(roles: seq<Role>, n: string)
    ensures n in ReplicasByName(roles) <==> exists i :: 0 <= i < |roles| && roles[i].name == n
  {
    if roles != [] {
      var init, last := roles[..|roles| - 1], roles[|roles| - 1];
      ReplicasByNameDomain(init, n);
      if n in ReplicasByName(init) {
        var i :| 0 <= i < |init| && init[i].name == n;
        assert roles[i].name == n;
      }
      if exists i :: 0 <= i < |roles| && roles[i].name == n && n != last.name {
        var i :| 0 <= i < |roles| && roles[i].name == n && n != last.name;
        assert init[i].name == n;
      }
      if n == last.name { assert roles[|roles| - 1].name == n; }
    }
  }

  /** Rolling back to a revision taken of `past` restores its roles and templates; a role keeps the replica count
      it has now, or gets one if it does not exist now, and everything else stays as it is now. */
  lemma RollbackRestores(past: Group, current: Group, serializer: int)
    requires forall j, k :: 0 <= j < k < |current.roles| ==> current.roles[j].name != current.roles[k].name
    ensures var restored := Applied(current, GroupPatch(past, serializer)).value;
            && restored.templates == past.templates && restored.rest == current.rest
            && restored.uid == current.uid && restored.generation == current.generation
            && |restored.roles| == |past.roles|
            && (forall i :: 0 <= i < |past.roles| ==>
                  && restored.roles[i].name == past.roles[i].name && restored.roles[i].body == past.roles[i].body
                  && (forall k :: 0 <= k < |current.roles| && current.roles[k].name == past.roles[i].name ==>
                        restored.roles[i].replicas == current.roles[k].replicas)
                  && ((forall k :: 0 <= k < |current.roles| ==> current.roles[k].name != past.roles[i].name) ==>
                        restored.roles[i].replicas == 1))
            && PatchOf(restored) == PatchOf(past)
  {
    RepatchGivesRevision(current, GroupPatch(past, serializer), serializer);
    forall i | 0 <= i < |past.roles|
      ensures forall k :: 0 <= k < |current.roles| && current.roles[k].name == past.roles[i].name ==>
                Restore(PatchOf(past).roles[i], ReplicasByName(current.roles)).replicas == current.roles[k].replicas
      ensures (forall k :: 0 <= k < |current.roles| ==> current.roles[k].name != past.roles[i].name) ==>
                Restore(PatchOf(past).roles[i], ReplicasByName(current.roles)).replicas == 1
    {
      ReplicasByNameDomain(current.roles, past.roles[i].name);
      forall k | 0 <= k < |current.roles| && current.roles[k].name == past.roles[i].name
        ensures Restore(PatchOf(past).roles[i], ReplicasByName(current.roles)).replicas == current.roles[k].replicas
      {
        LastCountTaken(current.roles, k);
      }
    }
  }

  // ----- The cache of semantic equality

  datatype Key = Key(uid: string, generation: int, resourceVersion: string)

  /** One call: the group, the revision proposed from it, the stored revision, and the entries the LRU cache
      drops when it stores this one. */
  datatype Call = Call(group: Group, proposed: Option<Revision>, existing: Option<Revision>, evicted: set<Key>)

  function KeyOf(c: Call): Key
    requires c.existing.Some?
  {
    Key(c.group.uid, c.group.generation, c.existing.value.resourceVersion)
  }

  /** The answer without a cache: the stored revision, applied and patched again, gives the proposed bytes. */
  predicate Matches(c: Call, serializer: int) {
    && c.proposed.Some? && c.existing.Some?
    && Applied(c.group, c.existing.value.raw).Some?
    && c.proposed.value.raw == GroupPatch(Applied(c.group, c.existing.value.raw).value, serializer)
  }

  predicate Answer(cache: set<Key>, c: Call, serializer: int) {
    c.proposed.Some? && c.existing.Some? && (KeyOf(c) in cache || Matches(c, serializer))
  }

  function CacheAfter(cache: set<Key>, c: Call, serializer: int): set<Key> {
    if Answer(cache, c, serializer) && KeyOf(c) !in cache then cache + {KeyOf(c)} - c.evicted else cache
  }

  /** A positive answer is remembered unless it is evicted at once, and nothing else is. */
  lemma RememberedUnlessEvicted(cache: set<Key>, c: Call, serializer: int)
    requires c.existing.Some?
    ensures Answer(cache, c, serializer) && KeyOf(c) !in c.evicted ==> KeyOf(c) in CacheAfter(cache, c, serializer)
    ensures !Answer(cache, c, serializer) ==> CacheAfter(cache, c, serializer) == cache
    ensures CacheAfter(cache, c, serializer) <= cache + {KeyOf(c)}
  {
  }

  class RevisionMatcher {
    const serializer: int
    var cache: set<Key>

    constructor (serializer: int)
      ensures this.serializer == serializer && cache == {}
    {
      this.serializer, cache := serializer, {};
    }

    method SetMatchesRevision(c: Call) returns (matches: bool)
      modifies this
      ensures matches == Answer(old(cache), c, serializer)
      ensures cache == CacheAfter(old(cache), c, serializer)
    {
      if c.existing.None? || c.proposed.None? { return false; }
      var cacheKey := Key(c.group.uid, c.group.generation, c.existing.value.resourceVersion);
      if cacheKey in cache { return true; }
      var latest := ApplyRevision(c.group, c.existing.value);
      if latest.None? { return false; }
      var reconstructed := GroupPatch(latest.value, serializer);
      if c.proposed.value.raw == reconstructed {
        cache := cache + {cacheKey} - c.evicted;
        return true;
      }
      return false;
    }
  }

  function CacheAfterAll(cache: set<Key>, calls: seq<Call>, serializer: int): set<Key>
    decreases |calls|
  {
    if calls == [] then cache
    else CacheAfter(CacheAfterAll(cache, calls[..|calls| - 1], serializer), calls[|calls| - 1], serializer)
  }

  /** What the cache key stands for: uid and generation fix the patch of the spec, which is what is proposed,
      and the resource version fixes the stored bytes. */
  ghost predicate KeysAreFaithful(calls: seq<Call>, serializer: int) {
    && (forall i :: 0 <= i < |calls| && calls[i].proposed.Some? ==>
          calls[i].proposed.value.raw == GroupPatch(calls[i].group, serializer))
    && (forall i, j :: 0 <= i < |calls| && 0 <= j < |calls| && SameSpecKey(calls[i], calls[j]) ==>
          PatchOf(calls[i].group) == PatchOf(calls[j].group))
    && (forall i, j :: 0 <= i < |calls| && 0 <= j < |calls| && SameStoredKey(calls[i], calls[j]) ==>
          calls[i].existing.value.raw == calls[j].existing.value.raw)
  }

  predicate SameSpecKey(a: Call, b: Call) {
    a.group.uid == b.group.uid && a.group.generation == b.group.generation
  }

  predicate SameStoredKey(a: Call, b: Call) {
    a.existing.Some? && b.existing.Some? && a.existing.value.resourceVersion == b.existing.value.resourceVersion
  }

  /** The uncached answer depends on the proposed and the stored bytes only, not on the group it is asked for. */
  lemma MatchesMeansSamePatch(c: Call, serializer: int)
    requires c.proposed.Some? && c.existing.Some?
    ensures Matches(c, serializer) <==>
            c.existing.value.raw.Encoded? && c.proposed.value.raw == Encoded(serializer, c.existing.value.raw.patch)
  {
    if c.existing.value.raw.Encoded? { RepatchGivesRevision(c.group, c.existing.value.raw, serializer); }
  }

  /** Every cached key was put there by an earlier call that matched. */
  ghost predicate Earned(cache: set<Key>, calls: seq<Call>, serializer: int) {
    forall k :: k in cache ==>
      exists i :: 0 <= i < |calls| && calls[i].existing.Some? && KeyOf(calls[i]) == k && Matches(calls[i], serializer)
  }

  lemma {:induction false} CacheEarned(calls: seq<Call>, n: nat, serializer: int)
    requires n <= |calls| && KeysAreFaithful(calls, serializer)
    ensures Earned(CacheAfterAll({}, calls[..n], serializer), calls, serializer)
  {
    if n > 0 {
      CacheEarned(calls, n - 1, serializer);
      assert calls[..n][..n - 1] == calls[..n - 1];
      var before := CacheAfterAll({}, calls[..n - 1], serializer);
      var c := calls[n - 1];
      if Answer(before, c, serializer) && KeyOf(c) !in before {
        assert Matches(c, serializer);
      }
    }
  }

  /** Over any sequence of calls and any evictions, the cached answer is the uncached one. */
  lemma CacheAgrees(calls: seq<Call>, n: nat, serializer: int)
    requires n < |calls| && KeysAreFaithful(calls, serializer)
    ensures Answer(CacheAfterAll({}, calls[..n], serializer), calls[n], serializer) <==> Matches(calls[n], serializer)
  {
    CacheEarned(calls, n, serializer);
    var c := calls[n];
    if c.proposed.Some? && c.existing.Some? && KeyOf(c) in CacheAfterAll({}, calls[..n], serializer) {
      var i :| 0 <= i < |calls| && calls[i].existing.Some? && KeyOf(calls[i]) == KeyOf(c)
               && Matches(calls[i], serializer);
      MatchesMeansSamePatch(calls[i], serializer);
      MatchesMeansSamePatch(c, serializer);
      assert SameSpecKey(calls[i], c) && SameStoredKey(calls[i], c);
    }
  }
}
