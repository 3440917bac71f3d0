/** The state one reconcile of a RoleBasedGroupSet brings its cluster to, and why that state is final. */
module GroupSetConvergence {
  import opened Wrappers
  import opened Decimal
  import opened GroupSetModel

  type Groups = map<string, Group>

  /** Children with an index the set does not want, or without a readable index, are deleted. */
  predicate Doomed(s: GroupSet, g: Group) {
    Manageable(s, g) && (IndexOf(g).None? || s.replicas <= IndexOf(g).value)
  }

  /** An orphan with a readable index is adopted. */
  function Adopted(s: GroupSet, g: Group): Group {
    if Manageable(s, g) && IndexOf(g).Some? && g.controller.None? then g.(controller := Some(s.uid)) else g
  }

  function Refreshed(s: GroupSet, g: Group): Group {
    if NeedsUpdate(s, g) then Sync(s, g) else g
  }

  /** What becomes of a group that is not deleted. */
  function Kept(s: GroupSet, g: Group): Group {
    if Manageable(s, g) then Refreshed(s, Adopted(s, g)) else g
  }

  predicate Wanted(s: GroupSet, n: string) {
    exists i: nat :: i < s.replicas && n == ChildName(s, i)
  }

  function WantedNames(s: GroupSet): set<string> {
    set i: nat | i < s.replicas :: ChildName(s, i)
  }

  function WantedIndex(s: GroupSet, n: string): (i: nat)
    requires Wanted(s, n)
    ensures i < s.replicas && n == ChildName(s, i)
  {
    FindIndex(s, n, s.replicas)
  }

  function FindIndex(s: GroupSet, n: string, below: nat): (i: nat)
    requires exists i: nat :: i < below && n == ChildName(s, i)
    ensures i < below && n == ChildName(s, i)
  {
    if n == ChildName(s, below - 1) then below - 1 else FindIndex(s, n, below - 1)
  }

  /** The cluster after one reconcile. */
  function Target(s: GroupSet, G: Groups): Groups {
    map n | n in G.Keys + WantedNames(s) && (Wanted(s, n) || !Doomed(s, G[n])) ::
      if n in G && !Doomed(s, G[n]) then Kept(s, G[n]) else NewChild(s, WantedIndex(s, n))
  }

  /** What the convergence theorem asks of the cluster: the children with a readable index are named after it,
      and a name the set needs is not taken by a group the set may not manage. */
  ghost predicate Coherent(s: GroupSet, G: Groups) {
    && (forall n :: n in G && Manageable(s, G[n]) && IndexOf(G[n]).Some? ==>
          0 <= IndexOf(G[n]).value && n == ChildName(s, IndexOf(G[n]).value))
    && (forall i: nat :: i < s.replicas && ChildName(s, i) in G ==> Manageable(s, G[ChildName(s, i)]))
  }

  /** The values the template itself gives to the two system labels, if any, are those the child carries. */
  predicate TemplateAgrees(s: GroupSet, index: string) {
    && (NAME_KEY in s.labels ==> s.labels[NAME_KEY] == s.name)
    && (INDEX_KEY in s.labels ==> s.labels[INDEX_KEY] == index)
  }

  /** The index label child i comes to carry: a child that stays keeps its own. */
  function IndexLabel(s: GroupSet, G: Groups, i: nat): string {
    var n := ChildName(s, i);
    if n in G && !Doomed(s, G[n]) then Get(G[n].labels, INDEX_KEY) else Itoa(i)
  }

  ghost predicate TemplateFits(s: GroupSet, G: Groups) {
    forall i: nat :: i < s.replicas ==> TemplateAgrees(s, IndexLabel(s, G, i))
  }

  /** A child as the set wants it at index i. */
  predicate ChildSettled(s: GroupSet, g: Group, i: nat) {
    Manageable(s, g) && g.controller == Some(s.uid) && IndexOf(g) == Some(i) && !NeedsUpdate(s, g)
  }

  /** The set's children are exactly those of index 0 to replicas - 1, each matching the template. */
  ghost predicate Settled(s: GroupSet, G: Groups) {
    && (forall i: nat :: i < s.replicas ==> ChildName(s, i) in G && ChildSettled(s, G[ChildName(s, i)], i))
    && (forall n :: n in G && Manageable(s, G[n]) ==> Wanted(s, n))
  }

  // ----- Reconciling settles the cluster

  lemma IndexSurvives(s: GroupSet, g: Group)
    requires Manageable(s, g) && IndexOf(g).Some?
    ensures Manageable(s, Kept(s, g)) && IndexOf(Kept(s, g)) == IndexOf(g) && Kept(s, g).controller == Some(s.uid)
  {
    assert |NAME_KEY| != |INDEX_KEY|;
  }

  lemma KeptSettledExactly(s: GroupSet, g: Group, i: nat)
    requires Manageable(s, g) && IndexOf(g) == Some(i)
    ensures ChildSettled(s, Kept(s, g), i) <==> TemplateAgrees(s, Get(g.labels, INDEX_KEY))
  {
    IndexSurvives(s, g);
    SyncSettlesExactly(s, Adopted(s, g));
    if !NeedsUpdate(s, Adopted(s, g)) {
      assert forall k :: k in s.labels ==> Get(g.labels, k) == s.labels[k];
    }
  }

  lemma NewChildSettledExactly(s: GroupSet, i: nat)
    ensures Manageable(s, NewChild(s, i)) && IndexOf(NewChild(s, i)) == Some(i)
    ensures Get(NewChild(s, i).labels, INDEX_KEY) == Itoa(i)
    ensures ChildSettled(s, NewChild(s, i), i) <==> TemplateAgrees(s, Itoa(i))
  {
    assert |NAME_KEY| != |INDEX_KEY|;
    AtoiItoa(i);
    var bare := Group(map[INDEX_KEY := Itoa(i)], map[], Some(s.uid), []);
    assert Sync(s, bare) == NewChild(s, i);
    SyncSettlesExactly(s, bare);
  }

  /** Child i after one reconcile. */
  lemma WantedChild(s: GroupSet, G: Groups, i: nat)
    requires Coherent(s, G) && i < s.replicas
    ensures ChildName(s, i) in Target(s, G)
    ensures var g := Target(s, G)[ChildName(s, i)];
            && Manageable(s, g) && IndexOf(g) == Some(i)
            && Get(g.labels, INDEX_KEY) == IndexLabel(s, G, i)
            && (ChildSettled(s, g, i) <==> TemplateAgrees(s, IndexLabel(s, G, i)))
  {
    var n := ChildName(s, i);
    assert Wanted(s, n) && n in WantedNames(s);
    if n in G && !Doomed(s, G[n]) {
      ChildNameInjective(s, i, IndexOf(G[n]).value);
      IndexSurvives(s, G[n]);
      KeptSettledExactly(s, G[n], i);
    } else {
      ChildNameInjective(s, i, WantedIndex(s, n));
      NewChildSettledExactly(s, i);
    }
  }

  lemma OnlyWantedChildren(s: GroupSet, G: Groups, n: string)
    requires Coherent(s, G) && n in Target(s, G) && Manageable(s, Target(s, G)[n])
    ensures Wanted(s, n)
  {
    if n in G && Manageable(s, G[n]) && !Doomed(s, G[n]) {
      assert n == ChildName(s, IndexOf(G[n]).value);
    }
  }

  /** One reconcile of a coherent cluster leaves exactly the wanted children, and each matches the template exactly
      when the template does not set a system label to a value of its own. */
  lemma TargetSettledExactly(s: GroupSet, G: Groups)
    requires Coherent(s, G)
    ensures Settled(s, Target(s, G)) <==> TemplateFits(s, G)
  {
    var T := Target(s, G);
    forall i: nat | i < s.replicas
      ensures ChildName(s, i) in T
      ensures ChildSettled(s, T[ChildName(s, i)], i) <==> TemplateAgrees(s, IndexLabel(s, G, i))
    {
      WantedChild(s, G, i);
    }
    forall n | n in T && Manageable(s, T[n])
      ensures Wanted(s, n)
    {
      OnlyWantedChildren(s, G, n);
    }
  }

  /** A reconcile keeps the cluster coherent and the index labels as they are. */
  lemma TargetCoherent(s: GroupSet, G: Groups)
    requires Coherent(s, G)
    ensures Coherent(s, Target(s, G))
    ensures TemplateFits(s, Target(s, G)) <==> TemplateFits(s, G)
  {
    var T := Target(s, G);
    forall i: nat | i < s.replicas
      ensures ChildName(s, i) in T && Manageable(s, T[ChildName(s, i)])
      ensures IndexOf(T[ChildName(s, i)]) == Some(i) && IndexLabel(s, T, i) == IndexLabel(s, G, i)
    {
      WantedChild(s, G, i);
    }
    forall n | n in T && Manageable(s, T[n])
      ensures 0 <= IndexOf(T[n]).value && n == ChildName(s, IndexOf(T[n]).value)
    {
      OnlyWantedChildren(s, G, n);
      assert n == ChildName(s, WantedIndex(s, n));
    }
  }

  /** A settled cluster is a fixpoint: nothing is adopted, deleted, created or updated. */
  lemma SettledIsFixpoint(s: GroupSet, G: Groups)
    requires Settled(s, G)
    ensures Coherent(s, G)
    ensures Target(s, G) == G
    ensures forall n :: n in G ==> !Doomed(s, G[n]) && Kept(s, G[n]) == G[n] && Adopted(s, G[n]) == G[n]
    ensures forall n :: n in G && Manageable(s, G[n]) ==> !NeedsUpdate(s, G[n])
    ensures forall n :: Wanted(s, n) ==> n in G
  {
    forall n | n in G && Manageable(s, G[n])
      ensures !Doomed(s, G[n]) && Kept(s, G[n]) == G[n] && Adopted(s, G[n]) == G[n] && !NeedsUpdate(s, G[n])
      ensures IndexOf(G[n]).Some? && n == ChildName(s, IndexOf(G[n]).value)
    {
      assert Wanted(s, n);
      var i := WantedIndex(s, n);
      assert ChildSettled(s, G[ChildName(s, i)], i);
    }
  }

  /** The cluster after a number of reconciles. */
  function Rounds(s: GroupSet, G: Groups, rounds: nat): Groups
    decreases rounds
  {
    if rounds == 0 then G else Rounds(s, Target(s, G), rounds - 1)
  }

  lemma {:induction false} FixpointStays(s: GroupSet, G: Groups, rounds: nat)
    requires Target(s, G) == G
    ensures Rounds(s, G, rounds) == G
    decreases rounds
  {
    if 0 < rounds { FixpointStays(s, G, rounds - 1); }
  }

  lemma {:induction false} RoundsFromFixpoint(s: GroupSet, G: Groups, T: Groups, rounds: nat)
    requires Target(s, G) == T && Target(s, T) == T && 0 < rounds
    ensures Rounds(s, G, rounds) == T
  {
    FixpointStays(s, T, rounds - 1);
  }

  /** One reconcile settles a coherent cluster whose template fits, and any number of further ones changes nothing.
      Otherwise no number of reconciles ever settles it: some child needs an update each time. */
  lemma {:induction false} SettlesAtOnceOrNever(s: GroupSet, G: Groups, rounds: nat)
    requires Coherent(s, G) && 0 < rounds
    ensures Settled(s, Rounds(s, G, rounds)) <==> TemplateFits(s, G)
    ensures TemplateFits(s, G) ==> Rounds(s, G, rounds) == Target(s, G)
    decreases rounds
  {
    var T := Target(s, G);
    TargetSettledExactly(s, G);
    if TemplateFits(s, G) {
      SettledIsFixpoint(s, T);
      RoundsFromFixpoint(s, G, T, rounds);
    } else if 1 < rounds {
      TargetCoherent(s, G);
      SettlesAtOnceOrNever(s, T, rounds - 1);
    } else {
      assert Rounds(s, T, 0) == T;
    }
  }

  // ----- Groups of others

  /** Not labelled with the set's name, or controlled by someone else. */
  predicate Foreign(s: GroupSet, g: Group) {
    || NAME_KEY !in g.labels || g.labels[NAME_KEY] != s.name
    || (g.controller.Some? && g.controller.value != s.uid)
  }

  /** What is foreign at the start of a reconcile is the same at its end. */
  predicate Untouched(s: GroupSet, before: Groups, after: Groups) {
    forall n :: n in before && Foreign(s, before[n]) ==> n in after && after[n] == before[n]
  }

  lemma TargetUntouched(s: GroupSet, G: Groups)
    ensures Untouched(s, G, Target(s, G))
  {
  }

  lemma UntouchedChain(s: GroupSet, a: Groups, b: Groups, c: Groups)
    requires Untouched(s, a, b) && Untouched(s, b, c)
    ensures Untouched(s, a, c)
  {
  }

  lemma RoundsNext(s: GroupSet, G: Groups, T: Groups, rounds: nat)
    requires T == Target(s, G) && 0 < rounds
    ensures Rounds(s, G, rounds) == Rounds(s, T, rounds - 1)
  {
  }

  /** Foreign groups come out as they went in, however many reconciles are run. */
  lemma {:induction false} ForeignUntouched(s: GroupSet, G: Groups, rounds: nat, after: Groups)
    requires after == Rounds(s, G, rounds)
    ensures Untouched(s, G, after)
    decreases rounds
  {
    if rounds == 0 { return; }
    var T := Target(s, G);
    TargetUntouched(s, G);
    RoundsNext(s, G, T, rounds);
    ForeignUntouched(s, T, rounds - 1, after);
    UntouchedChain(s, G, T, after);
  }
}
