/** No two pods of a role are listed under one address. */
module EnumerationAddresses {
  import opened Sequences
  import opened Enumeration
  import opened EnumerationTotals
  import opened Decimal
  import opened Arithmetic

  // ----- Reading an address back

  lemma LaterCut(a: string, x: string, b: string, y: string, c: char)
    requires a + [c] + x == b + [c] + y
    ensures |a| < |b| ==> c in b && c in x
  {
    if |a| < |b| {
      var s := a + [c] + x;
      assert s[|a|] == c && s[|b|] == c;
      assert s[|a|] == b[|a|] && s[|b|] == x[|b| - |a| - 1];
    }
  }

  lemma SameCut(a: string, x: string, b: string, y: string, c: char)
    requires a + [c] + x == b + [c] + y && |a| == |b|
    ensures a == b && x == y
  {
    var s, t := a + [c] + x, b + [c] + y;
    assert s[..|a|] == a && t[..|a|] == b;
    assert s[|a| + 1..] == x && t[|a| + 1..] == y;
  }

  /** Cutting at the first occurrence of a character is unambiguous. */
  lemma FirstCut(a: string, x: string, b: string, y: string, c: char)
    requires c !in a && c !in b && a + [c] + x == b + [c] + y
    ensures a == b && x == y
  {
    LaterCut(a, x, b, y, c);
    LaterCut(b, y, a, x, c);
    SameCut(a, x, b, y, c);
  }

  /** So is cutting at the last. */
  lemma LastCut(a: string, x: string, b: string, y: string, c: char)
    requires c !in x && c !in y && a + [c] + x == b + [c] + y
    ensures a == b && x == y
  {
    LaterCut(a, x, b, y, c);
    LaterCut(b, y, a, x, c);
    SameCut(a, x, b, y, c);
  }

  lemma SameEnds(prefix: string, a: string, b: string, suffix: string)
    requires prefix + a + suffix == prefix + b + suffix
    ensures a == b
  {
    var s, t := prefix + a + suffix, prefix + b + suffix;
    assert |a| == |b|;
    assert s[|prefix|..|prefix| + |a|] == a && t[|prefix|..|prefix| + |b|] == b;
  }

  lemma NumberShape(n: nat)
    ensures '-' !in FormatInt(n) && '.' !in FormatInt(n)
  {
  }

  lemma DashMeansNegative(n: int)
    ensures '-' in FormatInt(n) <==> n < 0
  {
    if n < 0 { assert FormatInt(n)[0] == '-'; } else { NumberShape(n); }
  }

  lemma NumberInjective(m: int, n: int)
    requires FormatInt(m) == FormatInt(n)
    ensures m == n
  {
    DashMeansNegative(m);
    DashMeansNegative(n);
    if m < 0 {
      assert ("-" + Itoa(-m))[1..] == Itoa(-m);
      assert ("-" + Itoa(-n))[1..] == Itoa(-n);
      ItoaInjective(-m, -n);
    } else {
      ItoaInjective(m, n);
    }
  }

  /** One pod: the same replica, component and number, whichever service it is reached through. */
  predicate SamePod(p: Pod, q: Pod) {
    match p
    case Ordinal(k) => q.Ordinal? && q.ordinal == k
    case Member(i, j) => q.Member? && q.instance == i && q.member == j
    case ComponentPod(i, c, j, _) => q.ComponentPod? && q.instance == i && q.component == c && q.member == j
  }

  predicate Alike(p: Pod, q: Pod) {
    (p.Ordinal? <==> q.Ordinal?) && (p.Member? <==> q.Member?)
  }

  predicate Dotless(p: Pod) {
    p.ComponentPod? ==> '.' !in p.component
  }

  lemma PairInjective(a: string, b: string, a': string, b': string)
    requires '-' !in a && '-' !in a' && a + "-" + b == a' + "-" + b'
    ensures a == a' && b == b'
  {
    FirstCut(a, b, a', b', '-');
  }

  lemma OrdinalInjective(w: string, a: string, b: string, s: string)
    requires w + "-" + a + "." + s == w + "-" + b + "." + s
    ensures a == b
  {
    assert w + "-" + a + "." + s == (w + "-") + a + ("." + s);
    assert w + "-" + b + "." + s == (w + "-") + b + ("." + s);
    SameEnds(w + "-", a, b, "." + s);
  }

  lemma MemberInjective(w: string, a: string, b: string, a': string, b': string, s: string)
    requires '-' !in a && '-' !in a'
    requires w + "-" + a + "-" + b + "." + s == w + "-" + a' + "-" + b' + "." + s
    ensures a == a' && b == b'
  {
    assert w + "-" + a + "-" + b + "." + s == (w + "-") + (a + "-" + b) + ("." + s);
    assert w + "-" + a' + "-" + b' + "." + s == (w + "-") + (a' + "-" + b') + ("." + s);
    SameEnds(w + "-", a + "-" + b, a' + "-" + b', "." + s);
    PairInjective(a, b, a', b');
  }

  lemma ComponentInjective(w: string, i: string, c: string, j: string, s: string,
                           i': string, c': string, j': string, s': string)
    requires '-' !in i && '-' !in i' && '-' !in j && '-' !in j'
    requires '.' !in c && '.' !in c' && '.' !in j && '.' !in j'
    requires w + "-" + i + "-" + c + "-" + j + "." + s == w + "-" + i' + "-" + c' + "-" + j' + "." + s'
    ensures i == i' && c == c' && j == j'
  {
    var x, x' := c + "-" + j + "." + s, c' + "-" + j' + "." + s';
    assert w + "-" + i + "-" + c + "-" + j + "." + s == (w + "-") + (i + "-" + x) + "";
    assert w + "-" + i' + "-" + c' + "-" + j' + "." + s' == (w + "-") + (i' + "-" + x') + "";
    SameEnds(w + "-", i + "-" + x, i' + "-" + x', "");
    PairInjective(i, x, i', x');
    FirstCut(c + "-" + j, s, c' + "-" + j', s', '.');
    LastCut(c, j, c', j', '-');
  }

  /** Two pods of one role with the same address are the same pod. */
  lemma AddressInjective(p: Pod, q: Pod, workload: string, service: string)
    requires Alike(p, q) && Dotless(p) && Dotless(q)
    requires Address(p, workload, service) == Address(q, workload, service)
    ensures SamePod(p, q)
  {
    match p
    case Ordinal(k) =>
      OrdinalInjective(workload, FormatInt(k), FormatInt(q.ordinal), service);
      NumberInjective(k, q.ordinal);
    case Member(i, j) =>
      NumberShape(i);
      NumberShape(q.instance);
      MemberInjective(workload, FormatInt(i), FormatInt(j), FormatInt(q.instance), FormatInt(q.member), service);
      NumberInjective(i, q.instance);
      NumberInjective(j, q.member);
    case ComponentPod(i, c, j, own) =>
      NumberShape(i);
      NumberShape(j);
      NumberShape(q.instance);
      NumberShape(q.member);
      ComponentInjective(workload, FormatInt(i), c, FormatInt(j), if own == "" then service else own,
                         FormatInt(q.instance), q.component, FormatInt(q.member),
                         if q.service == "" then service else q.service);
      NumberInjective(i, q.instance);
      NumberInjective(j, q.member);
  }

  // ----- The pods of a role are distinct

  ghost predicate Distinct(pods: seq<Pod>) {
    forall k, l :: 0 <= k < l < |pods| ==> !SamePod(pods[k], pods[l])
  }

  ghost predicate Apart(a: seq<Pod>, b: seq<Pod>) {
    forall k, l :: 0 <= k < |a| && 0 <= l < |b| ==> !SamePod(a[k], b[l])
  }

  lemma DistinctConcat(a: seq<Pod>, b: seq<Pod>)
    requires Distinct(a) && Distinct(b) && Apart(a, b)
    ensures Distinct(a + b)
  {
  }

  /** Component names are distinct and, as DNS labels, free of dots. */
  predicate WellNamed(components: seq<Component>) {
    && (forall k, l :: 0 <= k < l < |components| ==> components[k].name != components[l].name)
    && (forall k :: 0 <= k < |components| ==> '.' !in components[k].name)
  }

  ghost predicate FromComponents(pods: seq<Pod>, components: seq<Component>, i: nat) {
    forall k :: 0 <= k < |pods| ==> FromComponent(pods[k], components, i)
  }

  ghost predicate FromComponent(p: Pod, components: seq<Component>, i: nat) {
    p.ComponentPod? && p.instance == i && exists m :: 0 <= m < |components| && components[m].name == p.component
  }

  lemma {:induction false} ComponentPodsDistinct(components: seq<Component>, i: nat)
    requires WellNamed(components)
    ensures Distinct(ComponentPods(components, i)) && FromComponents(ComponentPods(components, i), components, i)
    decreases |components|
  {
    if components != [] {
      var n := |components| - 1;
      var init, last := components[..n], components[n];
      ComponentPodsDistinct(init, i);
      OnePartCount(last, i, ComponentSize(last));
      var before, part := ComponentPods(init, i), OnePartPods(last, i, ComponentSize(last));
      forall k | 0 <= k < |before|
        ensures before[k].component != last.name && FromComponent(before[k], components, i)
      {
        assert FromComponent(before[k], init, i);
        var m :| 0 <= m < |init| && init[m].name == before[k].component;
        assert components[m] == init[m];
      }
      DistinctConcat(before, part);
    }
  }

  /** Groups of a LeaderWorkerSet have a positive size, unless there is at most one. */
  predicate SizedGroups(role: Role) {
    IsLeaderWorkerSet(role) ==> LeaderWorkerSize(role.leaderWorker.value) >= 1 || role.replicas <= 1
  }

  /** The pods of replica i carry its number. */
  ghost predicate OfReplica(p: Pod, role: Role, i: nat) {
    if role.components.Some? then FromComponent(p, role.components.value, i)
    else if role.leaderWorker.Some? then p.Member? && p.instance == i
    else p == Ordinal(i)
  }

  lemma ReplicaDistinct(role: Role, i: nat)
    requires !IsLeaderWorkerSet(role) && (role.components.Some? ==> WellNamed(role.components.value))
    ensures Distinct(ReplicaPods(role, i))
    ensures forall k :: 0 <= k < |ReplicaPods(role, i)| ==> OfReplica(ReplicaPods(role, i)[k], role, i)
  {
    if role.components.Some? {
      ComponentPodsDistinct(role.components.value, i);
    } else if role.leaderWorker.Some? {
      MemberCount(i, Max(LeaderWorkerSize(role.leaderWorker.value), 1));
    }
  }

  ghost predicate OfSomeReplica(p: Pod, role: Role, n: nat) {
    exists i :: 0 <= i < n && OfReplica(p, role, i)
  }

  lemma {:induction false} PodsDistinct(role: Role, n: nat)
    requires !IsLeaderWorkerSet(role) && (role.components.Some? ==> WellNamed(role.components.value))
    ensures Distinct(Pods(role, n))
    ensures forall k :: 0 <= k < |Pods(role, n)| ==> OfSomeReplica(Pods(role, n)[k], role, n)
  {
    if n > 0 {
      PodsDistinct(role, n - 1);
      ReplicaDistinct(role, n - 1);
      var before, more := Pods(role, n - 1), ReplicaPods(role, n - 1);
      forall k | 0 <= k < |before|
        ensures OfSomeReplica(before[k], role, n)
        ensures forall l :: 0 <= l < |more| ==> !SamePod(before[k], more[l])
      {
        assert OfSomeReplica(before[k], role, n - 1);
      }
      forall l | 0 <= l < |more|
        ensures OfSomeReplica(more[l], role, n)
      {
        assert OfReplica(more[l], role, n - 1);
      }
      DistinctConcat(before, more);
    }
  }

  /** All addresses in a role's discovery config are different. */
  lemma AddressesDistinct(role: Role, workload: string, service: string, k: nat, l: nat)
    requires SizedGroups(role) && (role.components.Some? ==> WellNamed(role.components.value))
    requires k < l < |Listed(role, Addresser(workload, service), PortMap(role.ports))|
    ensures Listed(role, Addresser(workload, service), PortMap(role.ports))[k].address
            != Listed(role, Addresser(workload, service), PortMap(role.ports))[l].address
  {
    var pods := Pods(role, role.replicas);
    MappedAt(Addresser(workload, service), pods);
    MappedAt(WithPort(PortMap(role.ports)), Mapped(Addresser(workload, service), pods));
    RolePodsDistinct(role, k, l);
    if Address(pods[k], workload, service) == Address(pods[l], workload, service) {
      AddressInjective(pods[k], pods[l], workload, service);
    }
  }

  lemma RolePodsDistinct(role: Role, k: nat, l: nat)
    requires SizedGroups(role) && (role.components.Some? ==> WellNamed(role.components.value))
    requires k < l < |Pods(role, role.replicas)|
    ensures !SamePod(Pods(role, role.replicas)[k], Pods(role, role.replicas)[l])
    ensures Alike(Pods(role, role.replicas)[k], Pods(role, role.replicas)[l])
    ensures Dotless(Pods(role, role.replicas)[k]) && Dotless(Pods(role, role.replicas)[l])
  {
    if IsLeaderWorkerSet(role) {
      OrdinalsExactly(role);
      OrdinalCount(0, role.replicas * SubGroupSize(role));
    } else {
      PodsDistinct(role, role.replicas);
      var p, q := Pods(role, role.replicas)[k], Pods(role, role.replicas)[l];
      assert OfSomeReplica(p, role, role.replicas) && OfSomeReplica(q, role, role.replicas);
    }
  }
}
