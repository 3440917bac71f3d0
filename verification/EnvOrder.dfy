/** The order of a container's variables after any run of injections: system variables first, and the user's own in
    the order they had. */
module EnvOrder {
  import opened EnvMerge

  predicate IsSystem(name: string) {
    "RBG_" <= name
  }

  predicate IsLeaderWorker(name: string) {
    "RBG_LWP_" <= name
  }

  /** Nothing a later variable may refer to comes after it: no system variable behind one of the user, and no common
      one behind one of the leader-worker pattern. */
  lemma SystemVariablesFirst(envs: seq<EnvVar>, batches: seq<seq<EnvVar>>, i: nat, j: nat)
    requires batches != [] && forall k :: 0 <= k < |batches| ==> Homogeneous(batches[k])
    requires i < j < |Injections(envs, batches)|
    ensures var result := Injections(envs, batches);
            && (IsSystem(result[j].name) ==> IsSystem(result[i].name))
            && (IsSystem(result[j].name) && !IsLeaderWorker(result[j].name) ==> !IsLeaderWorker(result[i].name))
  {
    InjectionsOrderedAndCurrent(envs, batches, "");
  }

  // ----- The order of two variables

  /** The definition of the name that counts. */
  predicate LastAt(envs: seq<EnvVar>, i: nat, n: string) {
    i < |envs| && envs[i].name == n && forall j :: i < j < |envs| ==> envs[j].name != n
  }

  ghost predicate Before(envs: seq<EnvVar>, a: string, b: string) {
    exists i: nat, j: nat :: LastAt(envs, i, a) && LastAt(envs, j, b) && i < j
  }

  lemma {:induction false} LastExists(envs: seq<EnvVar>, n: string) returns (i: nat)
    requires Defines(envs, n)
    ensures LastAt(envs, i, n)
  {
    if envs[|envs| - 1].name == n {
      i := |envs| - 1;
    } else {
      var init := envs[..|envs| - 1];
      var k :| 0 <= k < |envs| && envs[k].name == n;
      assert init[k].name == n;
      i := LastExists(init, n);
    }
  }

  /** A list in the middle of others that define neither name decides their order. */
  lemma BeforeWithin(x: seq<EnvVar>, y: seq<EnvVar>, z: seq<EnvVar>, a: string, b: string)
    requires !Defines(x, a) && !Defines(x, b) && !Defines(z, a) && !Defines(z, b)
    ensures Before(x + y + z, a, b) <==> Before(y, a, b)
  {
    forall i: nat, n | n in {a, b}
      ensures LastAt(y, i, n) <==> LastAt(x + y + z, |x| + i, n)
      ensures LastAt(x + y + z, i, n) ==> |x| <= i < |x + y|
    {
      WithinAt(x, y, z, i, n);
    }
    if Before(y, a, b) {
      var i: nat, j: nat :| LastAt(y, i, a) && LastAt(y, j, b) && i < j;
      assert LastAt(x + y + z, |x| + i, a) && LastAt(x + y + z, |x| + j, b);
    }
    if Before(x + y + z, a, b) {
      var i: nat, j: nat :| LastAt(x + y + z, i, a) && LastAt(x + y + z, j, b) && i < j;
      assert LastAt(y, i - |x|, a) && LastAt(y, j - |x|, b);
    }
  }

  lemma WithinAt(x: seq<EnvVar>, y: seq<EnvVar>, z: seq<EnvVar>, i: nat, n: string)
    requires !Defines(x, n) && !Defines(z, n)
    ensures LastAt(y, i, n) <==> LastAt(x + y + z, |x| + i, n)
    ensures LastAt(x + y + z, i, n) ==> |x| <= i < |x + y|
  {
    var s := x + y + z;
    assert forall k :: 0 <= k < |x| ==> s[k].name != n;
    assert forall k :: |x + y| <= k < |s| ==> s[k] == z[k - |x + y|] && s[k].name != n;
    if LastAt(y, i, n) {
      forall k | |x| + i < k < |s|
        ensures s[k].name != n
      {
        if k < |x + y| { assert s[k] == y[k - |x|]; } else { assert s[k] == z[k - |x + y|]; }
      }
    }
    if LastAt(s, |x| + i, n) {
      forall k | i < k < |y|
        ensures y[k].name != n
      {
        assert s[|x| + k] == y[k];
      }
    }
  }

  /** One more variable in front, of a name that the others do not define. */
  lemma BeforeFirst(e: EnvVar, rest: seq<EnvVar>, a: string, b: string)
    requires !Defines(rest, e.name)
    ensures Before([e] + rest, a, b) <==>
            if e.name in {a, b} then a == e.name && Defines(rest, b) else Before(rest, a, b)
  {
    var all := [e] + rest;
    assert LastAt(all, 0, e.name);
    OnlyOnce(all, 0);
    if e.name !in {a, b} {
      BeforeWithin([e], rest, [], a, b);
      assert [e] + rest + [] == all;
    } else if a == e.name && Defines(rest, b) {
      var j := LastExists(rest, b);
      WithinAt([e], rest, [], j, b);
      assert [e] + rest + [] == all;
    } else {
      assert forall j :: 0 < j < |all| ==> all[j] == rest[j - 1];
    }
  }

  lemma OnlyOnce(envs: seq<EnvVar>, i: nat)
    requires i < |envs| && LastAt(envs, i, envs[i].name)
    ensures forall k: nat :: LastAt(envs, k, envs[i].name) ==> k == i
  {
  }

  /** And one of a name that is defined again later. */
  lemma BeforeShadowed(e: EnvVar, rest: seq<EnvVar>, a: string, b: string)
    requires Defines(rest, e.name)
    ensures Before([e] + rest, a, b) <==> Before(rest, a, b)
  {
    forall i: nat, n
      ensures LastAt([e] + rest, i, n) <==> 0 < i && LastAt(rest, i - 1, n)
    {
      ShadowedAt(e, rest, i, n);
    }
    if Before(rest, a, b) {
      var i: nat, j: nat :| LastAt(rest, i, a) && LastAt(rest, j, b) && i < j;
      assert LastAt([e] + rest, i + 1, a) && LastAt([e] + rest, j + 1, b);
    }
  }

  lemma ShadowedAt(e: EnvVar, rest: seq<EnvVar>, i: nat, n: string)
    requires Defines(rest, e.name)
    ensures LastAt([e] + rest, i, n) <==> 0 < i && LastAt(rest, i - 1, n)
  {
    var all := [e] + rest;
    var again :| 0 <= again < |rest| && rest[again].name == e.name;
    assert all[again + 1].name == e.name;
    if 0 < i && LastAt(all, i, n) {
      forall k | i - 1 < k < |rest|
        ensures rest[k].name != n
      {
        assert all[k + 1] == rest[k];
      }
    }
  }

  // ----- What a merge does to it

  lemma {:induction false} KeepLastOrder(envs: seq<EnvVar>, a: string, b: string)
    ensures Before(KeepLast(envs), a, b) <==> Before(envs, a, b)
  {
    if envs != [] {
      var e, rest := envs[0], envs[1..];
      assert envs == [e] + rest;
      KeepLastOrder(rest, a, b);
      KeepLastMeaning(rest);
      if Defines(rest, e.name) {
        BeforeShadowed(e, rest, a, b);
      } else {
        BeforeFirst(e, rest, a, b);
        BeforeFirst(e, KeepLast(rest), a, b);
      }
    }
  }

  lemma SelectFirst(envs: seq<EnvVar>, kind: Kind, excluded: set<string>)
    requires envs != []
    ensures Select(envs, kind, excluded) ==
            (if KindOf(envs[0].name) == kind && envs[0].name !in excluded then [envs[0]] else [])
            + Select(envs[1..], kind, excluded)
  {
    assert envs == [envs[0]] + envs[1..];
    SelectConcat([envs[0]], envs[1..], kind, excluded);
  }

  lemma {:induction false} SelectOrder(envs: seq<EnvVar>, kind: Kind, excluded: set<string>, a: string, b: string)
    requires DistinctNames(envs) && KindOf(a) == KindOf(b) == kind && a !in excluded && b !in excluded
    ensures Before(Select(envs, kind, excluded), a, b) <==> Before(envs, a, b)
  {
    if envs != [] {
      var e, rest := envs[0], envs[1..];
      assert envs == [e] + rest;
      SelectOrder(rest, kind, excluded, a, b);
      SelectFirst(envs, kind, excluded);
      SelectedDefines(rest, kind, excluded, b);
      SelectedDefines(rest, kind, excluded, e.name);
      BeforeFirst(e, rest, a, b);
      assert [] + Select(rest, kind, excluded) == Select(rest, kind, excluded);
      if KindOf(e.name) == kind && e.name !in excluded {
        BeforeFirst(e, Select(rest, kind, excluded), a, b);
      }
    }
  }

  lemma SelectedDefines(envs: seq<EnvVar>, kind: Kind, excluded: set<string>, n: string)
    ensures Defines(Select(envs, kind, excluded), n) <==> Defines(envs, n) && KindOf(n) == kind && n !in excluded
  {
    SelectMembers(envs, kind, excluded);
    var selected := Select(envs, kind, excluded);
    if Defines(selected, n) {
      var i :| 0 <= i < |selected| && selected[i].name == n;
      assert selected[i] in envs;
    }
    if Defines(envs, n) && KindOf(n) == kind && n !in excluded {
      var i :| 0 <= i < |envs| && envs[i].name == n;
      assert envs[i] in selected;
    }
  }

  /** Two user variables that a merge of system variables finds keep their order. */
  lemma MergedKeepsOrder(existing: seq<EnvVar>, injected: seq<EnvVar>, a: string, b: string)
    requires forall e :: e in injected ==> IsSystem(e.name)
    requires !IsSystem(a) && !IsSystem(b)
    ensures Before(Merged(existing, injected), a, b) <==> Before(existing, a, b)
  {
    var kept, added := KeepLast(existing), KeepLast(injected);
    KeepLastMeaning(existing);
    KeepLastMembers(injected);
    KeepLastOrder(existing, a, b);
    var base, derived := Select(kept, Base, Names(added)), Select(kept, Derived, Names(added));
    var user := Select(kept, User, Names(added));
    SelectOrder(kept, User, Names(added), a, b);
    SelectMembers(kept, Base, Names(added));
    SelectMembers(kept, Derived, Names(added));
    assert Merged(existing, injected) == (base + added + derived) + user + [];
    BeforeWithin(base + added + derived, user, [], a, b);
  }

  /** So do they over any run of injections of system variables, whatever references one of them makes to another. */
  lemma {:induction false} UserVariablesKeepOrder(envs: seq<EnvVar>, batches: seq<seq<EnvVar>>, a: string, b: string)
    requires forall k, e :: 0 <= k < |batches| && e in batches[k] ==> IsSystem(e.name)
    requires !IsSystem(a) && !IsSystem(b)
    ensures Before(Injections(envs, batches), a, b) <==> Before(envs, a, b)
    decreases |batches|
  {
    if batches != [] {
      var init, last := batches[..|batches| - 1], batches[|batches| - 1];
      UserVariablesKeepOrder(envs, init, a, b);
      MergedKeepsOrder(Injections(envs, init), last, a, b);
    }
  }
}
