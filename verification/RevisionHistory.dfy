/** The stored revisions of a group over its reconciles: a new revision when the spec changed, and only the newest
    ones kept. */
module RevisionHistory {
  import opened Wrappers
  import opened StringOrder
  import opened Revisions

  const HISTORY_LIMIT := 5

  /** The order of the cleanup: by number, then by creation time, then by name. */
  predicate Older(a: Revision, b: Revision) {
    || a.number < b.number
    || (a.number == b.number && (a.created < b.created || (a.created == b.created && Less(a.name, b.name))))
  }

  lemma NotOlderTransitive(a: Revision, b: Revision, c: Revision)
    requires !Older(b, a) && !Older(c, b)
    ensures !Older(c, a)
  {
    Trichotomy(a.name, b.name);
    Trichotomy(b.name, c.name);
    Trichotomy(a.name, c.name);
    if Less(c.name, a.name) && Less(a.name, b.name) { Transitive(c.name, a.name, b.name); }
  }

  lemma OlderAsymmetric(a: Revision, b: Revision)
    requires Older(a, b)
    ensures !Older(b, a)
  {
    Trichotomy(a.name, b.name);
  }

  predicate SortedByAge(s: seq<Revision>) {
    forall i, j :: 0 <= i < j < |s| ==> !Older(s[j], s[i])
  }

  method InsertByAge(s: seq<Revision>, r: Revision) returns (t: seq<Revision>)
    requires SortedByAge(s)
    ensures SortedByAge(t) && multiset(t) == multiset(s) + multiset{r}
  {
    var i := |s|;
    while 0 < i && Older(r, s[i - 1])
      invariant 0 <= i <= |s|
      invariant forall j :: i <= j < |s| ==> Older(r, s[j])
    {
      i := i - 1;
    }
    t := s[..i] + [r] + s[i..];
    assert multiset(t) == multiset(s) + multiset{r} by { assert s == s[..i] + s[i..]; }
    forall j | 0 <= j < i
      ensures !Older(r, s[j])
    {
      if j < i - 1 { NotOlderTransitive(s[j], s[i - 1], r); }
    }
    forall j | i <= j < |s|
      ensures !Older(s[j], r)
    {
      OlderAsymmetric(r, s[j]);
    }
    InsertedSorted(s, i, r);
  }

  lemma InsertedSorted(s: seq<Revision>, i: nat, r: Revision)
    requires i <= |s| && SortedByAge(s)
    requires forall j :: 0 <= j < i ==> !Older(r, s[j])
    requires forall j :: i <= j < |s| ==> !Older(s[j], r)
    ensures SortedByAge(s[..i] + [r] + s[i..])
  {
    var t := s[..i] + [r] + s[i..];
    forall a, b | 0 <= a < b < |t|
      ensures !Older(t[b], t[a])
    {
      assert t[a] == if a < i then s[a] else if a == i then r else s[a - 1];
      assert t[b] == if b < i then s[b] else if b == i then r else s[b - 1];
    }
  }

  method SortByAge(revisions: seq<Revision>) returns (sorted: seq<Revision>)
    ensures SortedByAge(sorted) && multiset(sorted) == multiset(revisions)
  {
    sorted := [];
    for i := 0 to |revisions|
      invariant SortedByAge(sorted) && multiset(sorted) == multiset(revisions[..i])
    {
      assert revisions[..i + 1] == revisions[..i] + [revisions[i]];
      sorted := InsertByAge(sorted, revisions[i]);
    }
    assert revisions[..|revisions|] == revisions;
  }

  /** No revision has a larger number, and none after this one has an equal one. */
  predicate LastHighest(revisions: seq<Revision>, i: nat) {
    && i < |revisions|
    && (forall j :: 0 <= j < i ==> revisions[j].number <= revisions[i].number)
    && (forall j :: i < j < |revisions| ==> revisions[j].number < revisions[i].number)
  }

  /** The last of the revisions with the largest number; a history of negative numbers has none. */
  method GetHighestRevision(revisions: seq<Revision>) returns (highest: Option<Revision>)
    ensures highest.None? <==> forall r :: r in revisions ==> r.number < 0
    ensures highest.Some? ==> exists i: nat :: LastHighest(revisions, i) && highest.value == revisions[i]
    ensures highest.Some? ==>
              highest.value in revisions && forall r :: r in revisions ==> r.number <= highest.value.number
  {
    var max := 0;
    highest := None;
    ghost var at: nat := 0;
    for i := 0 to |revisions|
      invariant 0 <= max
      invariant highest.None? ==> max == 0 && forall j :: 0 <= j < i ==> revisions[j].number < 0
      invariant highest.Some? ==>
                  LastHighest(revisions[..i], at) && highest.value == revisions[at] && highest.value.number == max
    {
      if max <= revisions[i].number {
        max, highest, at := revisions[i].number, Some(revisions[i]), i;
      }
    }
    assert revisions[..|revisions|] == revisions;
    if highest.Some? {
      forall r | r in revisions
        ensures r.number <= max
      {
      }
    }
  }

  /** Deletes the oldest revisions beyond the limit; what is kept is never older than what is deleted. */
  method CleanExpired(revisions: seq<Revision>) returns (kept: seq<Revision>, deleted: seq<Revision>)
    ensures multiset(kept) + multiset(deleted) == multiset(revisions)
    ensures |kept| == (if |revisions| < HISTORY_LIMIT then |revisions| else HISTORY_LIMIT)
    ensures forall k, d :: k in kept && d in deleted ==> !Older(k, d)
    ensures forall k, d :: k in kept && d in deleted ==>
              || d.number < k.number
              || (d.number == k.number && d.created < k.created)
              || (d.number == k.number && d.created == k.created && !Less(k.name, d.name))
  {
    var exceed := |revisions| - HISTORY_LIMIT;
    if exceed <= 0 { return revisions, []; }
    var sorted := SortByAge(revisions);
    assert |sorted| == |multiset(sorted)| == |revisions|;
    kept, deleted := sorted[exceed..], sorted[..exceed];
    assert sorted == deleted + kept;
  }

  // ----- The history over a run of reconciles

  /** Numbers are positive and no two stored revisions share one. */
  predicate Wellformed(history: seq<Revision>) {
    && (forall r :: r in history ==> 1 <= r.number)
    && (forall i, j :: 0 <= i < j < |history| ==> history[i].number != history[j].number)
  }

  /** The newest stored revision carries the group's present patch. */
  predicate Current(history: seq<Revision>, g: Group) {
    exists r :: r in history && IsNewest(history, r) && r.raw.Encoded? && r.raw.patch == PatchOf(g)
  }

  predicate IsNewest(history: seq<Revision>, r: Revision) {
    r in history && forall s :: s in history ==> s.number <= r.number
  }

  class History {
    const serializer: int
    var stored: seq<Revision>

    constructor (serializer: int)
      ensures this.serializer == serializer && stored == []
    {
      this.serializer, stored := serializer, [];
    }

    /** Stores a new revision unless the newest one already has the group's patch, in these or in other bytes.
        `name`, `created` and `resourceVersion` come from the API server and its clock. */
    method HandleRevisions(g: Group, name: string, created: int, resourceVersion: string)
      requires Wellformed(stored)
      modifies this
      ensures Wellformed(stored) && Current(stored, g)
      ensures old(stored) <= stored
      ensures Current(old(stored), g) ==> stored == old(stored)
      ensures |stored| <= |old(stored)| + 1
    {
      var current := GetHighestRevision(stored);
      var number := if current.Some? then current.value.number + 1 else 1;
      var expected := Revision(name, number, created, resourceVersion, GroupPatch(g, serializer));
      var matches := false;
      if current.Some? {
        matches := current.value.raw == expected.raw || Matches(Call(g, Some(expected), current, {}), serializer);
        MatchesMeansSamePatch(Call(g, Some(expected), current, {}), serializer);
        assert matches <==> current.value.raw.Encoded? && current.value.raw.patch == PatchOf(g);
        assert IsNewest(stored, current.value);
        NewestUnique(stored, current.value);
      }
      if !matches {
        ghost var before := stored;
        stored := stored + [expected];
        AppendNewest(before, expected);
      }
    }

    /** Keeps the newest revisions up to the limit; the newest one survives. */
    method Cleanup()
      requires Wellformed(stored)
      modifies this
      ensures Wellformed(stored) && |stored| == (if |old(stored)| < 5 then |old(stored)| else 5)
      ensures multiset(stored) <= multiset(old(stored))
      ensures forall r :: r in old(stored) && IsNewest(old(stored), r) ==> IsNewest(stored, r)
      ensures forall k, d :: k in stored && d in old(stored) && d !in stored ==> d.number < k.number
    {
      var kept, deleted := CleanExpired(stored);
      KeptHistory(stored, kept, deleted);
      stored := kept;
    }

    /** What one reconcile does with the revisions. */
    method Reconcile(g: Group, name: string, created: int, resourceVersion: string)
      requires Wellformed(stored)
      modifies this
      ensures Wellformed(stored) && |stored| <= 5 && Current(stored, g)
    {
      HandleRevisions(g, name, created, resourceVersion);
      var newest :| newest in stored && IsNewest(stored, newest) && newest.raw.Encoded?
                    && newest.raw.patch == PatchOf(g);
      Cleanup();
    }
  }

  lemma NewestUnique(history: seq<Revision>, r: Revision)
    requires Wellformed(history) && IsNewest(history, r)
    ensures forall s :: s in history && IsNewest(history, s) ==> s == r
  {
  }

  lemma AppendNewest(history: seq<Revision>, r: Revision)
    requires Wellformed(history) && 1 <= r.number && forall s :: s in history ==> s.number < r.number
    ensures Wellformed(history + [r]) && IsNewest(history + [r], r)
  {
    forall s | s in history + [r]
      ensures s in history || s == r
    {
    }
  }

  lemma KeptHistory(history: seq<Revision>, kept: seq<Revision>, deleted: seq<Revision>)
    requires Wellformed(history) && multiset(kept) + multiset(deleted) == multiset(history)
    requires (kept != [] || history == []) && forall k, d :: k in kept && d in deleted ==> !Older(k, d)
    ensures Wellformed(kept)
    ensures multiset(kept) <= multiset(history)
    ensures forall r :: r in history && IsNewest(history, r) ==> IsNewest(kept, r)
    ensures forall k, d :: k in kept && d in history && d !in kept ==> d.number < k.number
  {
    forall r | r in kept || r in deleted
      ensures r in history
    {
      assert r in multiset(kept) + multiset(deleted);
    }
    forall r | r in history
      ensures r in kept || r in deleted
    {
      assert r in multiset(history);
    }
    MultiplicityOne(history);
    forall i, j | 0 <= i < j < |kept|
      ensures kept[i].number != kept[j].number
    {
      assert multiset(kept)[kept[i]] <= multiset(history)[kept[i]];
      if kept[i] == kept[j] {
        TwiceIn(kept, i, j);
      } else {
        DifferentNumbers(history, kept[i], kept[j]);
      }
    }
    forall k, d | k in kept && d in history && d !in kept
      ensures d.number < k.number
    {
      assert d in deleted && !Older(k, d);
      DifferentNumbers(history, k, d);
    }
  }

  lemma DifferentNumbers(history: seq<Revision>, a: Revision, b: Revision)
    requires Wellformed(history) && a in history && b in history && a != b
    ensures a.number != b.number
  {
    var i :| 0 <= i < |history| && history[i] == a;
    var j :| 0 <= j < |history| && history[j] == b;
  }

  lemma TwiceIn(s: seq<Revision>, i: nat, j: nat)
    requires i < j < |s| && s[i] == s[j]
    ensures multiset(s)[s[i]] >= 2
  {
    assert s == s[..j] + s[j..];
    assert s[i] in s[..j] && s[i] in s[j..];
  }

  lemma {:induction false} MultiplicityOne(history: seq<Revision>)
    requires Wellformed(history)
    ensures forall r :: multiset(history)[r] <= 1
    decreases |history|
  {
    if history != [] {
      var init, last := history[..|history| - 1], history[|history| - 1];
      MultiplicityOne(init);
      assert history == init + [last];
      forall i | 0 <= i < |init|
        ensures init[i] != last
      {
        assert history[i].number != history[|history| - 1].number;
      }
      assert last !in init;
    }
  }
}
