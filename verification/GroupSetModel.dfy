/** A RoleBasedGroupSet and its child groups as values: which children a set may manage, when a child needs an
    update, and what an update or a new child looks like. */
module GroupSetModel {
  import opened Wrappers
  import opened StringOrder
  import opened Decimal

  const NAME_KEY := "rbg.workloads.x-k8s.io/groupset-name"
  const INDEX_KEY := "rbg.workloads.x-k8s.io/groupset-index"

  /** `updateType` is the rolling-update type, None when the role has no rolling update; `body` is everything else. */
  datatype Role = Role(name: string, updateType: Option<string>, body: string)

  datatype Group = Group(labels: map<string, string>, annotations: map<string, string>,
                         controller: Option<string>, roles: seq<Role>)

  datatype GroupSet = GroupSet(name: string, uid: string, replicas: nat,
                               labels: map<string, string>, annotations: map<string, string>, roles: seq<Role>)

  /** Reading a missing key of a Go map gives the empty string. */
  function Get(m: map<string, string>, k: string): string {
    if k in m then m[k] else ""
  }

  function ChildName(s: GroupSet, index: nat): string {
    s.name + "-" + Itoa(index)
  }

  lemma ChildNameInjective(s: GroupSet, i: nat, j: nat)
    requires ChildName(s, i) == ChildName(s, j)
    ensures i == j
  {
    var p := s.name + "-";
    assert ChildName(s, i)[|p|..] == Itoa(i) && ChildName(s, j)[|p|..] == Itoa(j);
    ItoaInjective(i, j);
  }

  // ----- Ownership

  /** Listed by the set's name label, and controlled by the set or by nobody. */
  predicate Manageable(s: GroupSet, g: Group) {
    && NAME_KEY in g.labels && g.labels[NAME_KEY] == s.name
    && (g.controller.None? || g.controller.value == s.uid)
  }

  function IndexOf(g: Group): Option<int> {
    if INDEX_KEY in g.labels then Atoi(g.labels[INDEX_KEY]) else None
  }

  // ----- Comparing roles

  function NormalizeType(t: string): string {
    if t == "" then "InPlaceIfPossible" else if t == "Recreate" then "RecreatePod" else t
  }

  function NormalizeRole(r: Role): Role {
    match r.updateType
    case None => r
    case Some(t) => r.(updateType := Some(NormalizeType(t)))
  }

  function Normalize(roles: seq<Role>): (r: seq<Role>)
    ensures |r| == |roles| && forall i :: 0 <= i < |r| ==> r[i] == NormalizeRole(roles[i])
  {
    seq(|roles|, i requires 0 <= i < |roles| => NormalizeRole(roles[i]))
  }

  function InsertByName(r: Role, sorted: seq<Role>): seq<Role> {
    if sorted == [] then [r]
    else if Less(r.name, sorted[0].name) then [r] + sorted
    else [sorted[0]] + InsertByName(r, sorted[1..])
  }

  function SortByName(roles: seq<Role>): seq<Role> {
    if roles == [] then [] else InsertByName(roles[|roles| - 1], SortByName(roles[..|roles| - 1]))
  }

  /** Equal up to order and legacy spellings of the update type. */
  predicate RolesEqual(a: seq<Role>, b: seq<Role>) {
    |a| == |b| && Normalize(SortByName(a)) == Normalize(SortByName(b))
  }

  // ----- Updates

  /** A template label differs on the child, or the child has a label the template does not have. */
  predicate LabelsStale(s: GroupSet, g: Group) {
    || (exists k :: k in s.labels && Get(g.labels, k) != s.labels[k])
    || (exists k :: k in g.labels && k != NAME_KEY && k != INDEX_KEY && k !in s.labels)
  }

  predicate AnnotationsStale(s: GroupSet, g: Group) {
    || (exists k :: k in s.annotations && Get(g.annotations, k) != s.annotations[k])
    || (exists k :: k in g.annotations && k !in s.annotations)
  }

  predicate NeedsUpdate(s: GroupSet, g: Group) {
    !RolesEqual(g.roles, s.roles) || LabelsStale(s, g) || AnnotationsStale(s, g)
  }

  function SyncedLabels(s: GroupSet, index: string): map<string, string> {
    s.labels[NAME_KEY := s.name][INDEX_KEY := index]
  }

  /** The child after an update: roles, labels and annotations from the template; the index label is kept. */
  function Sync(s: GroupSet, g: Group): Group {
    Group(SyncedLabels(s, Get(g.labels, INDEX_KEY)), s.annotations, g.controller, Normalize(s.roles))
  }

  function NewChild(s: GroupSet, index: nat): Group {
    Group(SyncedLabels(s, Itoa(index)), s.annotations, Some(s.uid), Normalize(s.roles))
  }

  // ----- What updates settle

  lemma {:induction false} SortOfNormalized(roles: seq<Role>)
    ensures SortByName(Normalize(roles)) == Normalize(SortByName(roles))
    decreases |roles|
  {
    if roles != [] {
      var init, last := roles[..|roles| - 1], roles[|roles| - 1];
      assert Normalize(roles)[..|roles| - 1] == Normalize(init);
      SortOfNormalized(init);
      InsertOfNormalized(last, SortByName(init));
    }
  }

  lemma {:induction false} InsertOfNormalized(r: Role, sorted: seq<Role>)
    ensures InsertByName(NormalizeRole(r), Normalize(sorted)) == Normalize(InsertByName(r, sorted))
    decreases |sorted|
  {
    if sorted != [] {
      InsertOfNormalized(r, sorted[1..]);
      assert Normalize(sorted)[1..] == Normalize(sorted[1..]);
    }
  }

  lemma NormalizeTwice(roles: seq<Role>)
    ensures Normalize(Normalize(roles)) == Normalize(roles)
  {
  }

  /** The normalised template equals the template. */
  lemma NormalizedEqual(roles: seq<Role>)
    ensures RolesEqual(Normalize(roles), roles)
  {
    SortOfNormalized(roles);
    NormalizeTwice(SortByName(roles));
    assert |SortByName(Normalize(roles))| == |SortByName(roles)|;
  }

  /** After an update a child needs none, exactly when the template does not set the two system labels to other
      values than the set's name and the child's index. */
  lemma SyncSettlesExactly(s: GroupSet, g: Group)
    ensures NeedsUpdate(s, Sync(s, g)) <==>
            || (NAME_KEY in s.labels && s.labels[NAME_KEY] != s.name)
            || (INDEX_KEY in s.labels && s.labels[INDEX_KEY] != Get(g.labels, INDEX_KEY))
  {
    NormalizedEqual(s.roles);
    var after := Sync(s, g);
    assert |NAME_KEY| != |INDEX_KEY|;
    if NAME_KEY in s.labels && s.labels[NAME_KEY] != s.name {
      assert Get(after.labels, NAME_KEY) != s.labels[NAME_KEY];
    }
    if INDEX_KEY in s.labels && s.labels[INDEX_KEY] != Get(g.labels, INDEX_KEY) {
      assert Get(after.labels, INDEX_KEY) != s.labels[INDEX_KEY];
    }
  }

  // ----- Role comparison does not depend on order

  predicate UniqueNames(roles: seq<Role>) {
    forall i, j :: 0 <= i < j < |roles| ==> roles[i].name != roles[j].name
  }

  predicate SortedByName(roles: seq<Role>) {
    forall i, j :: 0 <= i < j < |roles| ==> !Less(roles[j].name, roles[i].name)
  }

  lemma {:induction false} InsertPermutes(r: Role, sorted: seq<Role>)
    ensures multiset(InsertByName(r, sorted)) == multiset(sorted) + multiset{r}
    decreases |sorted|
  {
    if sorted == [] {
    } else if Less(r.name, sorted[0].name) {
      FirstCounted([r] + sorted);
    } else {
      InsertPermutes(r, sorted[1..]);
      var first, rest := sorted[0], InsertByName(r, sorted[1..]);
      assert InsertByName(r, sorted) == [first] + rest;
      FirstCounted([first] + rest);
      FirstCounted(sorted);
    }
  }

  lemma FirstCounted(roles: seq<Role>)
    requires roles != []
    ensures multiset(roles) == multiset(roles[1..]) + multiset{roles[0]}
  {
    assert roles == [roles[0]] + roles[1..];
  }

  lemma SplitLast(roles: seq<Role>)
    requires roles != []
    ensures multiset(roles) == multiset(roles[..|roles| - 1]) + multiset{roles[|roles| - 1]}
  {
    assert roles == roles[..|roles| - 1] + [roles[|roles| - 1]];
  }

  lemma {:induction false} SortPermutes(roles: seq<Role>)
    ensures multiset(SortByName(roles)) == multiset(roles)
    decreases |roles|
  {
    if roles != [] {
      var init, last := roles[..|roles| - 1], roles[|roles| - 1];
      SortPermutes(init);
      var sorted := SortByName(init);
      InsertPermutes(last, sorted);
      assert SortByName(roles) == InsertByName(last, sorted);
      SplitLast(roles);
    }
  }

  lemma {:induction false} InsertSorts(r: Role, sorted: seq<Role>)
    requires SortedByName(sorted)
    ensures SortedByName(InsertByName(r, sorted))
    decreases |sorted|
  {
    if sorted == [] {
    } else if Less(r.name, sorted[0].name) {
      forall j | 0 <= j < |sorted|
        ensures !Less(sorted[j].name, r.name)
      {
        Trichotomy(sorted[0].name, sorted[0].name);
        if Less(sorted[j].name, r.name) { Transitive(sorted[j].name, r.name, sorted[0].name); }
      }
    } else {
      InsertSorts(r, sorted[1..]);
      var rest := InsertByName(r, sorted[1..]);
      InsertPermutes(r, sorted[1..]);
      forall j | 0 <= j < |rest|
        ensures !Less(rest[j].name, sorted[0].name)
      {
        assert rest[j] in multiset(rest);
        if rest[j] != r {
          assert rest[j] in sorted[1..];
        }
      }
    }
  }

  lemma {:induction false} SortSorts(roles: seq<Role>)
    ensures SortedByName(SortByName(roles))
    decreases |roles|
  {
    if roles != [] {
      SortSorts(roles[..|roles| - 1]);
      InsertSorts(roles[|roles| - 1], SortByName(roles[..|roles| - 1]));
    }
  }

  /** Two sorted lists of uniquely named roles with the same members are the same list. */
  lemma {:induction false} SortedUnique(a: seq<Role>, b: seq<Role>)
    requires SortedByName(a) && SortedByName(b) && UniqueNames(a)
    requires multiset(a) == multiset(b)
    ensures a == b
    decreases |a|
  {
    assert |a| == |multiset(a)| == |multiset(b)| == |b|;
    if a != [] {
      FirstInSorted(a, b);
      assert a == [a[0]] + a[1..] && b == [b[0]] + b[1..];
      assert multiset(a[1..]) == multiset(a) - multiset{a[0]};
      assert multiset(b[1..]) == multiset(b) - multiset{b[0]};
      SortedUnique(a[1..], b[1..]);
    }
  }

  lemma FirstInSorted(a: seq<Role>, b: seq<Role>)
    requires a != [] && b != [] && SortedByName(a) && SortedByName(b) && UniqueNames(a)
    requires multiset(a) == multiset(b)
    ensures a[0] == b[0]
  {
    assert b[0] in multiset(a) && a[0] in multiset(b);
    var i :| 0 <= i < |a| && a[i] == b[0];
    var j :| 0 <= j < |b| && b[j] == a[0];
    Trichotomy(a[0].name, b[0].name);
  }

  /** For uniquely named roles the comparison is exactly equality of the normalised roles regardless of order. */
  lemma RolesEqualIgnoresOrder(a: seq<Role>, b: seq<Role>)
    requires UniqueNames(a)
    ensures RolesEqual(a, b) <==> multiset(Normalize(a)) == multiset(Normalize(b))
  {
    SortOfNormalized(a);
    SortOfNormalized(b);
    SortPermutes(Normalize(a));
    SortPermutes(Normalize(b));
    assert |multiset(Normalize(a))| == |a| && |multiset(Normalize(b))| == |b|;
    if multiset(Normalize(a)) == multiset(Normalize(b)) {
      SortSorts(Normalize(a));
      SortSorts(Normalize(b));
      UniqueSorted(Normalize(a));
      SortedUnique(SortByName(Normalize(a)), SortByName(Normalize(b)));
    }
  }

  lemma {:induction false} InsertKeepsUnique(r: Role, sorted: seq<Role>)
    requires UniqueNames(sorted) && forall i :: 0 <= i < |sorted| ==> sorted[i].name != r.name
    ensures UniqueNames(InsertByName(r, sorted))
    decreases |sorted|
  {
    if sorted != [] && !Less(r.name, sorted[0].name) {
      InsertKeepsUnique(r, sorted[1..]);
      InsertPermutes(r, sorted[1..]);
      var rest := InsertByName(r, sorted[1..]);
      forall j | 0 <= j < |rest|
        ensures rest[j].name != sorted[0].name
      {
        assert rest[j] in multiset(rest);
        if rest[j] != r { assert rest[j] in sorted[1..]; }
      }
    }
  }

  lemma {:induction false} UniqueSorted(roles: seq<Role>)
    requires UniqueNames(roles)
    ensures UniqueNames(SortByName(roles))
    decreases |roles|
  {
    if roles != [] {
      var init, last := roles[..|roles| - 1], roles[|roles| - 1];
      UniqueSorted(init);
      SortPermutes(init);
      forall i | 0 <= i < |SortByName(init)|
        ensures SortByName(init)[i].name != last.name
      {
        assert SortByName(init)[i] in multiset(init);
      }
      InsertKeepsUnique(last, SortByName(init));
    }
  }
}
