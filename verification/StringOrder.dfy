/** The order of Go's `sort.Strings`: lexicographic by character. */
module StringOrder {

  predicate Less(a: string, b: string) {
    if b == "" then false
    else if a == "" then true
    else a[0] < b[0] || (a[0] == b[0] && Less(a[1..], b[1..]))
  }

  /** A proper prefix is less, and otherwise the first character that differs decides. */
  lemma {:induction false} LessExactly(a: string, b: string, i: nat)
    requires i <= |a| && i <= |b| && a[..i] == b[..i]
    requires i < |a| && i < |b| ==> a[i] != b[i]
    requires i < |a| || i < |b|
    ensures Less(a, b) <==> i == |a| || (i < |b| && a[i] < b[i])
    decreases i
  {
    if 0 < i {
      assert a[0] == a[..i][0] && b[0] == b[..i][0];
      assert a[1..][..i - 1] == a[..i][1..] && b[1..][..i - 1] == b[..i][1..];
      LessExactly(a[1..], b[1..], i - 1);
    }
  }

  lemma {:induction false} Trichotomy(a: string, b: string)
    ensures a == b || Less(a, b) || Less(b, a)
    ensures !(Less(a, b) && Less(b, a))
    ensures a == b ==> !Less(a, b)
  {
    if a != "" && b != "" {
      Trichotomy(a[1..], b[1..]);
      assert a == [a[0]] + a[1..] && b == [b[0]] + b[1..];
    }
  }

  lemma {:induction false} Transitive(a: string, b: string, c: string)
    requires Less(a, b) && Less(b, c)
    ensures Less(a, c)
  {
    if a != "" && a[0] == b[0] == c[0] { Transitive(a[1..], b[1..], c[1..]); }
  }

  predicate Sorted(s: seq<string>) {
    forall i, j :: 0 <= i < j < |s| ==> Less(s[i], s[j])
  }

  /** Sorts distinct strings, one insertion at a time. */
  method SortStrings(keys: seq<string>) returns (sorted: seq<string>)
    requires forall i, j :: 0 <= i < j < |keys| ==> keys[i] != keys[j]
    ensures Sorted(sorted)
    ensures |sorted| == |keys|
    ensures forall k :: k in sorted <==> k in keys
  {
    sorted := [];
    for n := 0 to |keys|
      invariant Sorted(sorted) && |sorted| == n
      invariant forall k :: k in sorted <==> k in keys[..n]
    {
      assert keys[n] !in keys[..n];
      sorted := Insert(sorted, keys[n]);
      assert keys[..n + 1] == keys[..n] + [keys[n]];
    }
    assert keys[..|keys|] == keys;
  }

  method Insert(s: seq<string>, key: string) returns (r: seq<string>)
    requires Sorted(s) && key !in s
    ensures Sorted(r) && |r| == |s| + 1
    ensures forall k :: k in r <==> k in s || k == key
  {
    var i := 0;
    while i < |s| && Less(s[i], key)
      invariant 0 <= i <= |s|
      invariant forall j :: 0 <= j < i ==> Less(s[j], key)
    {
      i := i + 1;
    }
    r := s[..i] + [key] + s[i..];
    forall j | i <= j < |s|
      ensures Less(key, s[j])
    {
      Trichotomy(key, s[i]);
      assert key != s[i];
      if i < j { Transitive(key, s[i], s[j]); }
    }
    assert forall k :: k in s <==> k in s[..i] || k in s[i..];
  }
}
