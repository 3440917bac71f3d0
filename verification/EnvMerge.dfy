/** Merging injected environment variables into a container, phase by phase, so that a `$(VAR)` reference in an
    injected variable finds its variable defined earlier whenever it was injected at all. */
module EnvMerge {
  import opened Wrappers
  import opened Sequences

  /** A text, in which `$(NAME)` stands for the value of an earlier variable, or a reference to a label of the pod. */
  datatype Value = Literal(text: string) | Label(key: string)

  datatype EnvVar = EnvVar(name: string, value: Value)

  // ----- Names and values

  predicate Defines(envs: seq<EnvVar>, name: string) {
    exists i :: 0 <= i < |envs| && envs[i].name == name
  }

  function Names(envs: seq<EnvVar>): set<string> {
    set i | 0 <= i < |envs| :: envs[i].name
  }

  predicate DistinctNames(envs: seq<EnvVar>) {
    forall i, j :: 0 <= i < j < |envs| ==> envs[i].name != envs[j].name
  }

  /** The value a name ends up with: its last definition. */
  function Lookup(envs: seq<EnvVar>, name: string): Option<Value> {
    if envs == [] then None
    else if envs[|envs| - 1].name == name then Some(envs[|envs| - 1].value)
    else Lookup(envs[..|envs| - 1], name)
  }

  lemma {:induction false} LookupDefined(envs: seq<EnvVar>, name: string)
    ensures Lookup(envs, name).Some? <==> Defines(envs, name)
    decreases |envs|
  {
    if envs != [] {
      var init := envs[..|envs| - 1];
      LookupDefined(init, name);
      if Defines(envs, name) && envs[|envs| - 1].name != name {
        var i :| 0 <= i < |envs| && envs[i].name == name;
        assert init[i].name == name;
      }
      if Defines(init, name) {
        var i :| 0 <= i < |init| && init[i].name == name;
        assert envs[i].name == name;
      }
    }
  }

  lemma {:induction false} LookupConcat(a: seq<EnvVar>, b: seq<EnvVar>, name: string)
    ensures Lookup(a + b, name) == if Defines(b, name) then Lookup(b, name) else Lookup(a, name)
    decreases |b|
  {
    if b == [] {
      assert a + b == a;
    } else {
      var init := b[..|b| - 1];
      assert (a + b)[..|a + b| - 1] == a + init;
      LookupConcat(a, init, name);
      LookupDefined(b, name);
      LookupDefined(init, name);
    }
  }

  // ----- Deduplication, keeping the last definition of each name

  function KeepLast(envs: seq<EnvVar>): seq<EnvVar> {
    if envs == [] then []
    else if Defines(envs[1..], envs[0].name) then KeepLast(envs[1..])
    else [envs[0]] + KeepLast(envs[1..])
  }

  lemma {:induction false} KeepLastMeaning(envs: seq<EnvVar>)
    ensures DistinctNames(KeepLast(envs))
    ensures forall n :: Defines(KeepLast(envs), n) <==> Defines(envs, n)
    ensures forall n :: Lookup(KeepLast(envs), n) == Lookup(envs, n)
  {
    if envs != [] {
      var head, tail := [envs[0]], envs[1..];
      KeepLastMeaning(tail);
      assert envs == head + tail;
      forall n
        ensures Defines(KeepLast(envs), n) <==> Defines(envs, n)
        ensures Lookup(KeepLast(envs), n) == Lookup(envs, n)
      {
        DefinesConcat(head, tail, n);
        DefinesConcat(head, KeepLast(tail), n);
        LookupConcat(head, tail, n);
        LookupConcat(head, KeepLast(tail), n);
        LookupDefined(tail, n);
        assert Defines(head, n) <==> head[0].name == n;
      }
    }
  }

  lemma DefinesConcat(a: seq<EnvVar>, b: seq<EnvVar>, n: string)
    ensures Defines(a + b, n) <==> Defines(a, n) || Defines(b, n)
  {
    if Defines(a, n) {
      var i :| 0 <= i < |a| && a[i].name == n;
      assert (a + b)[i].name == n;
    }
    if Defines(b, n) {
      var i :| 0 <= i < |b| && b[i].name == n;
      assert (a + b)[|a| + i].name == n;
    }
  }

  lemma {:induction false} KeepLastOfDistinct(envs: seq<EnvVar>)
    requires DistinctNames(envs)
    ensures KeepLast(envs) == envs
  {
    if envs != [] {
      KeepLastOfDistinct(envs[1..]);
      assert envs == [envs[0]] + envs[1..];
    }
  }

  lemma ReversedAppend(s: seq<EnvVar>, e: EnvVar)
    ensures Reversed(s + [e]) == [e] + Reversed(s)
  {
  }

  /** The two-pointer reversal. */
  method ReverseInPlace(a: array<EnvVar>)
    modifies a
    ensures a[..] == Reversed(old(a[..]))
  {
    var left, right := 0, a.Length - 1;
    ghost var was := a[..];
    while left < right
      invariant 0 <= left <= right + 1 && right == a.Length - 1 - left
      invariant forall k :: 0 <= k < left || right < k < a.Length ==> a[k] == was[a.Length - 1 - k]
      invariant forall k :: left <= k <= right ==> a[k] == was[k]
    {
      a[left], a[right] := a[right], a[left];
      left, right := left + 1, right - 1;
    }
    forall k | 0 <= k < a.Length
      ensures a[k] == was[a.Length - 1 - k]
    {
    }
  }

  lemma NamesStep(envs: seq<EnvVar>, i: nat)
    requires i < |envs|
    ensures Names(envs[i..]) == Names(envs[i + 1..]) + {envs[i].name}
    ensures KeepLast(envs[i..]) == if envs[i].name in Names(envs[i + 1..]) then KeepLast(envs[i + 1..])
                                   else [envs[i]] + KeepLast(envs[i + 1..])
  {
    var rest := envs[i + 1..];
    assert envs[i..] == [envs[i]] + rest;
    assert envs[i..][1..] == rest;
    assert envs[i].name in Names(rest) <==> Defines(rest, envs[i].name);
    forall n
      ensures n in Names(envs[i..]) <==> n in Names(rest) || n == envs[i].name
    {
      DefinesConcat([envs[i]], rest, n);
    }
  }

  /** The last definition of each name, last name first. */
  method CollectBackwards(envs: seq<EnvVar>) returns (backwards: seq<EnvVar>)
    ensures Reversed(backwards) == KeepLast(envs)
  {
    var seen: set<string> := {};
    backwards := [];
    var i := |envs|;
    while 0 < i
      invariant 0 <= i <= |envs|
      invariant seen == Names(envs[i..])
      invariant Reversed(backwards) == KeepLast(envs[i..])
    {
      i := i - 1;
      NamesStep(envs, i);
      if envs[i].name !in seen {
        seen := seen + {envs[i].name};
        ReversedAppend(backwards, envs[i]);
        backwards := backwards + [envs[i]];
      }
    }
    assert envs[0..] == envs;
  }

  method DedupeEnvVarsPreserveLast(envs: seq<EnvVar>) returns (deduped: seq<EnvVar>)
    ensures deduped == KeepLast(envs)
  {
    if |envs| < 2 {
      KeepLastOfDistinct(envs);
      return envs;
    }
    var backwards := CollectBackwards(envs);
    var buffer := new EnvVar[|backwards|](k requires 0 <= k < |backwards| => backwards[k]);
    assert buffer[..] == backwards;
    ReverseInPlace(buffer);
    return buffer[..];
  }

  // ----- Merging

  /** System variables, system variables that may refer to them, and everything else. */
  datatype Kind = Base | Derived | User

  function KindOf(name: string): Kind {
    if "RBG_" <= name then (if "RBG_LWP_" <= name then Derived else Base) else User
  }

  function Rank(name: string): nat {
    match KindOf(name)
    case Base => 0
    case Derived => 1
    case User => 2
  }

  /** The variables of one kind that are not in `excluded`, in their order. */
  function Select(envs: seq<EnvVar>, kind: Kind, excluded: set<string>): seq<EnvVar> {
    if envs == [] then []
    else
      var last := envs[|envs| - 1];
      var init := Select(envs[..|envs| - 1], kind, excluded);
      if KindOf(last.name) == kind && last.name !in excluded then init + [last] else init
  }

  /** Existing base variables, then the injected ones, then existing derived and user variables; a name injected
      anew loses its existing definition. */
  function Merged(existing: seq<EnvVar>, injected: seq<EnvVar>): seq<EnvVar> {
    var old', new' := KeepLast(existing), KeepLast(injected);
    Select(old', Base, Names(new')) + new' + Select(old', Derived, Names(new')) + Select(old', User, Names(new'))
  }

  method MergeEnvVars(existing: seq<EnvVar>, injected: seq<EnvVar>) returns (merged: seq<EnvVar>)
    ensures merged == Merged(existing, injected)
  {
    var kept := DedupeEnvVarsPreserveLast(existing);
    var added := DedupeEnvVarsPreserveLast(injected);
    var injectedNames := Names(added);
    var base, derived, other := [], [], [];
    for i := 0 to |kept|
      invariant base == Select(kept[..i], Base, injectedNames)
      invariant derived == Select(kept[..i], Derived, injectedNames)
      invariant other == Select(kept[..i], User, injectedNames)
    {
      var env := kept[i];
      assert kept[..i + 1][..i] == kept[..i];
      if env.name in injectedNames { continue; }
      if "RBG_" <= env.name {
        if "RBG_LWP_" <= env.name { derived := derived + [env]; } else { base := base + [env]; }
        continue;
      }
      other := other + [env];
    }
    assert kept[..|kept|] == kept;
    merged := base + added + derived + other;
  }

  // ----- What Select keeps

  lemma {:induction false} SelectMembers(envs: seq<EnvVar>, kind: Kind, excluded: set<string>)
    ensures forall e :: e in Select(envs, kind, excluded) <==>
            e in envs && KindOf(e.name) == kind && e.name !in excluded
    decreases |envs|
  {
    if envs != [] {
      SelectMembers(envs[..|envs| - 1], kind, excluded);
      assert envs == envs[..|envs| - 1] + [envs[|envs| - 1]];
    }
  }

  lemma {:induction false} SelectDistinct(envs: seq<EnvVar>, kind: Kind, excluded: set<string>)
    requires DistinctNames(envs)
    ensures DistinctNames(Select(envs, kind, excluded))
    decreases |envs|
  {
    if envs != [] {
      var init, last := envs[..|envs| - 1], envs[|envs| - 1];
      SelectDistinct(init, kind, excluded);
      SelectMembers(init, kind, excluded);
      forall i | 0 <= i < |Select(init, kind, excluded)|
        ensures Select(init, kind, excluded)[i].name != last.name
      {
        assert Select(init, kind, excluded)[i] in init;
      }
    }
  }

  lemma {:induction false} SelectConcat(a: seq<EnvVar>, b: seq<EnvVar>, kind: Kind, excluded: set<string>)
    ensures Select(a + b, kind, excluded) == Select(a, kind, excluded) + Select(b, kind, excluded)
    decreases |b|
  {
    if b == [] {
      assert a + b == a;
    } else {
      assert (a + b)[..|a + b| - 1] == a + b[..|b| - 1];
      SelectConcat(a, b[..|b| - 1], kind, excluded);
    }
  }

  lemma {:induction false} SelectAll(envs: seq<EnvVar>, kind: Kind, excluded: set<string>)
    requires forall e :: e in envs ==> KindOf(e.name) == kind && e.name !in excluded
    ensures Select(envs, kind, excluded) == envs
    decreases |envs|
  {
    if envs != [] { SelectAll(envs[..|envs| - 1], kind, excluded); }
  }

  lemma {:induction false} SelectNone(envs: seq<EnvVar>, kind: Kind, excluded: set<string>)
    requires forall e :: e in envs ==> KindOf(e.name) != kind || e.name in excluded
    ensures Select(envs, kind, excluded) == []
    decreases |envs|
  {
    if envs != [] { SelectNone(envs[..|envs| - 1], kind, excluded); }
  }

  lemma {:induction false} LookupOfDistinct(envs: seq<EnvVar>, e: EnvVar)
    requires DistinctNames(envs) && e in envs
    ensures Lookup(envs, e.name) == Some(e.value)
    decreases |envs|
  {
    if envs[|envs| - 1] != e { LookupOfDistinct(envs[..|envs| - 1], e); }
  }

  lemma LookupIsMember(envs: seq<EnvVar>, n: string)
    requires Lookup(envs, n).Some?
    ensures EnvVar(n, Lookup(envs, n).value) in envs
    decreases |envs|
  {
    if envs[|envs| - 1].name != n { LookupIsMember(envs[..|envs| - 1], n); }
  }

  // ----- What a merge promises, whatever was there before

  lemma MergedMembers(existing: seq<EnvVar>, injected: seq<EnvVar>)
    ensures var kept, added := KeepLast(existing), KeepLast(injected);
            forall e :: e in Merged(existing, injected) <==> e in added || (e in kept && e.name !in Names(added))
  {
    var kept, added := KeepLast(existing), KeepLast(injected);
    SelectMembers(kept, Base, Names(added));
    SelectMembers(kept, Derived, Names(added));
    SelectMembers(kept, User, Names(added));
    forall e
      ensures e in Merged(existing, injected) <==> e in added || (e in kept && e.name !in Names(added))
    {
      assert KindOf(e.name) == Base || KindOf(e.name) == Derived || KindOf(e.name) == User;
    }
  }

  lemma ConcatDistinct(a: seq<EnvVar>, b: seq<EnvVar>)
    requires DistinctNames(a) && DistinctNames(b)
    requires forall x, y :: x in a && y in b ==> x.name != y.name
    ensures DistinctNames(a + b)
  {
  }

  /** After a merge every name is defined once. */
  lemma MergedDistinct(existing: seq<EnvVar>, injected: seq<EnvVar>)
    ensures DistinctNames(Merged(existing, injected))
  {
    var kept, added := KeepLast(existing), KeepLast(injected);
    KeepLastMeaning(existing);
    KeepLastMeaning(injected);
    var base := Select(kept, Base, Names(added));
    var derived := Select(kept, Derived, Names(added));
    var user := Select(kept, User, Names(added));
    SelectDistinct(kept, Base, Names(added));
    SelectDistinct(kept, Derived, Names(added));
    SelectDistinct(kept, User, Names(added));
    SelectMembers(kept, Base, Names(added));
    SelectMembers(kept, Derived, Names(added));
    SelectMembers(kept, User, Names(added));
    ConcatDistinct(base, added);
    ConcatDistinct(base + added, derived);
    ConcatDistinct(base + added + derived, user);
  }

  /** After a merge a name has its injected value, or else the value it had. */
  lemma MergedValue(existing: seq<EnvVar>, injected: seq<EnvVar>, n: string)
    ensures Lookup(Merged(existing, injected), n) ==
            if Defines(injected, n) then Lookup(injected, n) else Lookup(existing, n)
  {
    var merged, kept, added := Merged(existing, injected), KeepLast(existing), KeepLast(injected);
    KeepLastMeaning(existing);
    KeepLastMeaning(injected);
    MergedDistinct(existing, injected);
    MergedMembers(existing, injected);
    LookupDefined(added, n);
    assert n in Names(added) <==> Defines(added, n);
    if Lookup(merged, n).Some? { LookupIsMember(merged, n); }
    var source := if Defines(added, n) then added else kept;
    if Lookup(source, n).Some? {
      LookupIsMember(source, n);
      LookupOfDistinct(merged, EnvVar(n, Lookup(source, n).value));
    } else if Lookup(merged, n).Some? {
      var e := EnvVar(n, Lookup(merged, n).value);
      LookupOfDistinct(kept, e);
    }
  }

  /** Base variables come first, then derived ones, then user variables. */
  predicate Ordered(envs: seq<EnvVar>) {
    forall i, j :: 0 <= i < j < |envs| ==> Rank(envs[i].name) <= Rank(envs[j].name)
  }

  /** A batch of one kind of system variables, as the two builders produce them. */
  predicate Homogeneous(batch: seq<EnvVar>) {
    (forall e :: e in batch ==> KindOf(e.name) == Base) || (forall e :: e in batch ==> KindOf(e.name) == Derived)
  }

  lemma KeepLastMembers(envs: seq<EnvVar>)
    ensures forall e :: e in KeepLast(envs) ==> e in envs
  {
  }

  lemma ConcatOrdered(a: seq<EnvVar>, b: seq<EnvVar>, rank: nat)
    requires forall e :: e in a ==> Rank(e.name) <= rank
    requires forall e :: e in b ==> Rank(e.name) == rank
    requires Ordered(a)
    ensures Ordered(a + b)
  {
  }

  /** One merge of a homogeneous batch puts everything in order, whatever the order was before. */
  lemma MergedOrdered(existing: seq<EnvVar>, injected: seq<EnvVar>)
    requires Homogeneous(injected)
    ensures Ordered(Merged(existing, injected))
  {
    var kept, added := KeepLast(existing), KeepLast(injected);
    KeepLastMembers(injected);
    var base := Select(kept, Base, Names(added));
    var derived := Select(kept, Derived, Names(added));
    SelectMembers(kept, Base, Names(added));
    SelectMembers(kept, Derived, Names(added));
    SelectMembers(kept, User, Names(added));
    ConcatOrdered([], base, 0);
    assert [] + base == base;
    ConcatOrdered(base, added, if (forall e :: e in injected ==> KindOf(e.name) == Base) then 0 else 1);
    ConcatOrdered(base + added, derived, 1);
    ConcatOrdered(base + added + derived, Select(kept, User, Names(added)), 2);
  }

  lemma SelectAgain(envs: seq<EnvVar>, has: Kind, kind: Kind, excluded: set<string>)
    ensures Select(Select(envs, has, excluded), kind, excluded) ==
            if kind == has then Select(envs, has, excluded) else []
  {
    SelectMembers(envs, has, excluded);
    if kind == has {
      SelectAll(Select(envs, has, excluded), kind, excluded);
    } else {
      SelectNone(Select(envs, has, excluded), kind, excluded);
    }
  }

  lemma SelectConcat4(a: seq<EnvVar>, b: seq<EnvVar>, c: seq<EnvVar>, d: seq<EnvVar>, kind: Kind, x: set<string>)
    ensures Select(a + b + c + d, kind, x) ==
            Select(a, kind, x) + Select(b, kind, x) + Select(c, kind, x) + Select(d, kind, x)
  {
    SelectConcat(a + b + c, d, kind, x);
    SelectConcat(a + b, c, kind, x);
    SelectConcat(a, b, kind, x);
  }

  lemma SelectOfMerged(existing: seq<EnvVar>, injected: seq<EnvVar>, kind: Kind)
    ensures var kept, added := KeepLast(existing), KeepLast(injected);
            Select(Merged(existing, injected), kind, Names(added)) == Select(kept, kind, Names(added))
  {
    var kept, added := KeepLast(existing), KeepLast(injected);
    var x := Names(added);
    var base, derived, user := Select(kept, Base, x), Select(kept, Derived, x), Select(kept, User, x);
    SelectConcat4(base, added, derived, user, kind, x);
    NamesAll(added);
    SelectNone(added, kind, x);
    SelectAgain(kept, Base, kind, x);
    SelectAgain(kept, Derived, kind, x);
    SelectAgain(kept, User, kind, x);
    OnlyOne(base, derived, user);
  }

  lemma NamesAll(envs: seq<EnvVar>)
    ensures forall e :: e in envs ==> e.name in Names(envs)
  {
  }

  lemma OnlyOne(a: seq<EnvVar>, b: seq<EnvVar>, c: seq<EnvVar>)
    ensures a + [] + [] + [] == a && [] + [] + b + [] == b && [] + [] + [] + c == c
  {
  }

  /** Repeating the last merge changes nothing. */
  lemma MergedTwice(existing: seq<EnvVar>, injected: seq<EnvVar>)
    ensures Merged(Merged(existing, injected), injected) == Merged(existing, injected)
  {
    MergedDistinct(existing, injected);
    KeepLastOfDistinct(Merged(existing, injected));
    SelectOfMerged(existing, injected, Base);
    SelectOfMerged(existing, injected, Derived);
    SelectOfMerged(existing, injected, User);
  }

  // ----- Whole runs of injections

  function Injections(envs: seq<EnvVar>, batches: seq<seq<EnvVar>>): seq<EnvVar>
    decreases |batches|
  {
    if batches == [] then envs
    else Merged(Injections(envs, batches[..|batches| - 1]), batches[|batches| - 1])
  }

  /** The value of the last batch that defines a name, or the initial one. */
  function LastValue(envs: seq<EnvVar>, batches: seq<seq<EnvVar>>, n: string): Option<Value>
    decreases |batches|
  {
    if batches == [] then Lookup(envs, n)
    else if Defines(batches[|batches| - 1], n) then Lookup(batches[|batches| - 1], n)
    else LastValue(envs, batches[..|batches| - 1], n)
  }

  /** After any non-empty run of injections of system variables: every name is defined once, base before derived
      before user variables, and each name holds the last injected value or else its last initial one. */
  lemma {:induction false} InjectionsOrderedAndCurrent(envs: seq<EnvVar>, batches: seq<seq<EnvVar>>, n: string)
    requires forall i :: 0 <= i < |batches| ==> Homogeneous(batches[i])
    ensures batches != [] ==> DistinctNames(Injections(envs, batches)) && Ordered(Injections(envs, batches))
    ensures Lookup(Injections(envs, batches), n) == LastValue(envs, batches, n)
    decreases |batches|
  {
    if batches != [] {
      var before, last := Injections(envs, batches[..|batches| - 1]), batches[|batches| - 1];
      InjectionsOrderedAndCurrent(envs, batches[..|batches| - 1], n);
      MergedDistinct(before, last);
      MergedOrdered(before, last);
      MergedValue(before, last, n);
    }
  }

  // ----- The batches that are injected

  const ROLE_INSTANCE_NAME := "RBG_ROLE_INSTANCE_NAME"
  const LEADER_ADDRESS := "RBG_LWP_LEADER_ADDRESS"

  const COMPONENT_ID := "rbg.workloads.x-k8s.io/component-id"
  const COMPONENT_NAME := "rbg.workloads.x-k8s.io/component-name"
  const COMPONENT_INDEX := "rbg.workloads.x-k8s.io/component-index"
  const COMPONENT_SIZE := "rbg.workloads.x-k8s.io/component-size"
  const INSTANCE_NAME := "rbg.workloads.x-k8s.io/role-instance-name"

  /** The variables of every role in the order of their names; index and instance variables depend on the workload. */
  function CommonEnv(group: string, role: string, stateful: bool, roleInstanceSet: bool, indexLabel: string)
    : seq<EnvVar>
  {
    (if roleInstanceSet then
       [EnvVar("RBG_COMPONENT_INDEX", Label(COMPONENT_ID)), EnvVar("RBG_COMPONENT_NAME", Label(COMPONENT_NAME))]
     else [])
    + [EnvVar("RBG_GROUP_NAME", Literal(group))]
    + (if stateful then [EnvVar("RBG_ROLE_INDEX", Label(indexLabel))] else [])
    + (if roleInstanceSet then [EnvVar(ROLE_INSTANCE_NAME, Label(INSTANCE_NAME))] else [])
    + [EnvVar("RBG_ROLE_NAME", Literal(role))]
  }

  /** The leader-worker variables; the leader address refers to the role instance name. */
  function LeaderWorkerEnv(service: string, namespace: string): seq<EnvVar> {
    [EnvVar(LEADER_ADDRESS, Literal("$(" + ROLE_INSTANCE_NAME + ")-0." + service + "." + namespace)),
     EnvVar("RBG_LWP_WORKER_INDEX", Label(COMPONENT_INDEX)),
     EnvVar("RBG_LWP_GROUP_SIZE", Label(COMPONENT_SIZE))]
  }

  lemma BatchesHomogeneous(group: string, role: string, stateful: bool, roleInstanceSet: bool, indexLabel: string,
                           service: string, namespace: string)
    ensures Homogeneous(CommonEnv(group, role, stateful, roleInstanceSet, indexLabel))
    ensures Homogeneous(LeaderWorkerEnv(service, namespace))
  {
    forall e | e in CommonEnv(group, role, stateful, roleInstanceSet, indexLabel)
      ensures KindOf(e.name) == Base
    {
      assert "RBG_" <= e.name && e.name[4] != 'L';
    }
    forall e | e in LeaderWorkerEnv(service, namespace)
      ensures KindOf(e.name) == Derived
    {
    }
  }

  /** After any run that ends in order, the leader address comes after the name it refers to. */
  lemma LeaderAddressAfterInstanceName(envs: seq<EnvVar>, i: nat, j: nat)
    requires Ordered(envs) && i < |envs| && j < |envs|
    requires envs[i].name == ROLE_INSTANCE_NAME && envs[j].name == LEADER_ADDRESS
    ensures i < j
  {
    assert ROLE_INSTANCE_NAME[4] != 'L';
    assert KindOf(ROLE_INSTANCE_NAME) == Base && KindOf(LEADER_ADDRESS) == Derived;
  }

  lemma {:induction false} LastValueDefined(envs: seq<EnvVar>, batches: seq<seq<EnvVar>>, n: string)
    ensures LastValue(envs, batches, n).Some? <==>
            Defines(envs, n) || exists k :: 0 <= k < |batches| && Defines(batches[k], n)
    decreases |batches|
  {
    if batches == [] {
      LookupDefined(envs, n);
    } else {
      var init, last := batches[..|batches| - 1], batches[|batches| - 1];
      LookupDefined(last, n);
      LastValueDefined(envs, init, n);
      if exists k :: 0 <= k < |init| && Defines(init[k], n) {
        var k :| 0 <= k < |init| && Defines(init[k], n);
        assert Defines(batches[k], n);
      }
    }
  }

  /** Over any run of injections of system variables, a leader address finds the instance name it refers to defined
      before it, exactly when the instance name was injected by some batch or was there from the start. */
  lemma LeaderAddressResolves(envs: seq<EnvVar>, batches: seq<seq<EnvVar>>, j: nat)
    requires batches != [] && forall i :: 0 <= i < |batches| ==> Homogeneous(batches[i])
    requires j < |Injections(envs, batches)| && Injections(envs, batches)[j].name == LEADER_ADDRESS
    ensures Defines(Injections(envs, batches)[..j], ROLE_INSTANCE_NAME) <==>
            || Defines(envs, ROLE_INSTANCE_NAME)
            || exists k :: 0 <= k < |batches| && Defines(batches[k], ROLE_INSTANCE_NAME)
  {
    var result := Injections(envs, batches);
    InjectionsOrderedAndCurrent(envs, batches, ROLE_INSTANCE_NAME);
    LastValueDefined(envs, batches, ROLE_INSTANCE_NAME);
    LookupDefined(result, ROLE_INSTANCE_NAME);
    if Defines(result, ROLE_INSTANCE_NAME) {
      var i :| 0 <= i < |result| && result[i].name == ROLE_INSTANCE_NAME;
      LeaderAddressAfterInstanceName(result, i, j);
      assert result[..j][i].name == ROLE_INSTANCE_NAME;
    }
    if Defines(result[..j], ROLE_INSTANCE_NAME) {
      var i :| 0 <= i < j && result[..j][i].name == ROLE_INSTANCE_NAME;
      assert result[i].name == ROLE_INSTANCE_NAME;
    }
  }

  /** The other variables of a role: its index exactly for a stateful one, the component's exactly for a
      RoleInstanceSet, and the names of the group and the role always. */
  lemma CommonVariables(group: string, role: string, stateful: bool, roleInstanceSet: bool, indexLabel: string)
    ensures var envs := CommonEnv(group, role, stateful, roleInstanceSet, indexLabel);
            && Defines(envs, "RBG_GROUP_NAME") && Defines(envs, "RBG_ROLE_NAME")
            && (Defines(envs, "RBG_ROLE_INDEX") <==> stateful)
            && (Defines(envs, "RBG_COMPONENT_NAME") <==> roleInstanceSet)
            && (Defines(envs, "RBG_COMPONENT_INDEX") <==> roleInstanceSet)
  {
    var envs := CommonEnv(group, role, stateful, roleInstanceSet, indexLabel);
    var n := if roleInstanceSet then 2 else 0;
    assert envs[n].name == "RBG_GROUP_NAME" && envs[|envs| - 1].name == "RBG_ROLE_NAME";
    if stateful { assert envs[n + 1].name == "RBG_ROLE_INDEX"; }
    if roleInstanceSet { assert envs[0].name == "RBG_COMPONENT_INDEX" && envs[1].name == "RBG_COMPONENT_NAME"; }
  }

  /** The variables of a role define the instance name exactly for a RoleInstanceSet, so injecting both batches of one
      gives its leader address something to refer to. */
  lemma InstanceNameInjected(group: string, role: string, stateful: bool, roleInstanceSet: bool, indexLabel: string)
    ensures Defines(CommonEnv(group, role, stateful, roleInstanceSet, indexLabel), ROLE_INSTANCE_NAME) <==>
            roleInstanceSet
  {
    var envs := CommonEnv(group, role, stateful, roleInstanceSet, indexLabel);
    if roleInstanceSet { assert envs[|envs| - 2].name == ROLE_INSTANCE_NAME; }
  }
}
