/** The order in which JavaScript sorts strings: by UTF-16 code units. */
module Order {
  import opened Text

  predicate Less(a: Str, b: Str) {
    if b == [] then false
    else if a == [] then true
    else a[0] < b[0] || (a[0] == b[0] && Less(a[1..], b[1..]))
  }

  /** At the first place where they differ, the first string is smaller or over. */
  ghost predicate Precedes(a: Str, b: Str) {
    exists i :: 0 <= i <= |a| && i < |b| && a[..i] == b[..i] && (i == |a| || a[i] < b[i])
  }

  lemma {:induction false} LessExactly(a: Str, b: Str)
    ensures Less(a, b) <==> Precedes(a, b)
    decreases |a|
  {
    if a != [] && b != [] && a[0] == b[0] {
      LessExactly(a[1..], b[1..]);
      assert a == [a[0]] + a[1..] && b == [b[0]] + b[1..];
      if Precedes(a[1..], b[1..]) {
        var i :| 0 <= i <= |a[1..]| && i < |b[1..]| && a[1..][..i] == b[1..][..i] && (i == |a[1..]| || a[1..][i] < b[1..][i]);
        assert a[..i + 1] == [a[0]] + a[1..][..i] && b[..i + 1] == [b[0]] + b[1..][..i];
        assert a[..i + 1] == b[..i + 1] && (i + 1 == |a| || a[i + 1] < b[i + 1]);
      }
      if Precedes(a, b) {
        var i :| 0 <= i <= |a| && i < |b| && a[..i] == b[..i] && (i == |a| || a[i] < b[i]);
        assert i > 0;
        assert a[1..][..i - 1] == a[..i][1..] && b[1..][..i - 1] == b[..i][1..];
      }
    } else if b != [] {
      assert a[..0] == b[..0];
      if a != [] {
        forall i | 0 < i <= |a| && i < |b|
          ensures a[..i] != b[..i]
        {
          assert a[..i][0] == a[0] && b[..i][0] == b[0];
        }
      }
    }
  }

  predicate Distinct(keys: seq<Str>) { forall i, j :: 0 <= i < j < |keys| ==> keys[i] != keys[j] }

  predicate Ascending(keys: seq<Str>) { forall i, j :: 0 <= i < j < |keys| ==> Less(keys[i], keys[j]) }

  function Keys(keys: seq<Str>): set<Str> { set k | k in keys }

  lemma LessIrreflexive(a: Str)
    ensures !Less(a, a)
  {
  }

  lemma {:induction false} LessTransitive(a: Str, b: Str, c: Str)
    requires Less(a, b) && Less(b, c)
    ensures Less(a, c)
    decreases |a|
  {
    if a != [] && a[0] == b[0] == c[0] { LessTransitive(a[1..], b[1..], c[1..]); }
  }

  lemma {:induction false} LessTotal(a: Str, b: Str)
    requires a != b
    ensures Less(a, b) || Less(b, a)
    decreases |a|
  {
    if a != [] && b != [] && a[0] == b[0] {
      assert a == [a[0]] + a[1..] && b == [b[0]] + b[1..];
      LessTotal(a[1..], b[1..]);
    }
  }

  function Insert(k: Str, keys: seq<Str>): seq<Str> {
    if keys == [] || Less(k, keys[0]) then [k] + keys else [keys[0]] + Insert(k, keys[1..])
  }

  /** `keys.sort()`. */
  function Sort(keys: seq<Str>): seq<Str> {
    if keys == [] then [] else Insert(keys[0], Sort(keys[1..]))
  }

  lemma {:induction false} InsertMembers(k: Str, keys: seq<Str>)
    ensures forall x :: x in Insert(k, keys) <==> x == k || x in keys
    decreases |keys|
  {
    if keys != [] && !Less(k, keys[0]) {
      InsertMembers(k, keys[1..]);
      assert keys == [keys[0]] + keys[1..];
    }
  }

  lemma {:induction false} SortMembers(keys: seq<Str>)
    ensures forall x :: x in Sort(keys) <==> x in keys
    decreases |keys|
  {
    if keys != [] {
      SortMembers(keys[1..]);
      InsertMembers(keys[0], Sort(keys[1..]));
      assert keys == [keys[0]] + keys[1..];
    }
  }

  lemma {:induction false} InsertKeeps(k: Str, keys: seq<Str>)
    requires Ascending(keys) && k !in keys
    ensures Ascending(Insert(k, keys)) && Keys(Insert(k, keys)) == {k} + Keys(keys) && |Insert(k, keys)| == 1 + |keys|
    decreases |keys|
  {
    var r := Insert(k, keys);
    if keys == [] || Less(k, keys[0]) {
      forall j | 1 <= j < |r|
        ensures Less(k, r[j])
      {
        if j > 1 { LessTransitive(k, keys[0], r[j]); }
      }
    } else {
      InsertKeeps(k, keys[1..]);
      LessTotal(k, keys[0]);
      var rest := Insert(k, keys[1..]);
      forall j | 0 <= j < |rest|
        ensures Less(keys[0], rest[j])
      {
        assert rest[j] in Keys(rest);
        if rest[j] != k {
          assert rest[j] in keys[1..];
        }
      }
      assert keys == [keys[0]] + keys[1..];
    }
  }

  /** Distinct keys come out strictly ascending, none lost and none added. */
  lemma {:induction false} SortSorts(keys: seq<Str>)
    requires Distinct(keys)
    ensures Ascending(Sort(keys)) && Keys(Sort(keys)) == Keys(keys) && |Sort(keys)| == |keys|
    decreases |keys|
  {
    if keys != [] {
      SortSorts(keys[1..]);
      assert keys[0] !in keys[1..];
      assert keys[0] !in Keys(Sort(keys[1..]));
      InsertKeeps(keys[0], Sort(keys[1..]));
      assert keys == [keys[0]] + keys[1..];
    }
  }

  /** Said of the code units themselves: each key differs from a later one first where it is smaller or over. */
  lemma SortAscends(keys: seq<Str>, i: nat, j: nat)
    requires Distinct(keys) && i < j < |Sort(keys)|
    ensures Precedes(Sort(keys)[i], Sort(keys)[j])
    ensures forall k :: k in Sort(keys) <==> k in keys
  {
    SortSorts(keys);
    SortMembers(keys);
    LessExactly(Sort(keys)[i], Sort(keys)[j]);
  }

  lemma AscendingDistinct(keys: seq<Str>)
    requires Ascending(keys)
    ensures Distinct(keys)
  {
    forall i, j | 0 <= i < j < |keys|
      ensures keys[i] != keys[j]
    {
      LessIrreflexive(keys[i]);
    }
  }

  /** A set of keys has one ascending enumeration. */
  lemma {:induction false} AscendingUnique(a: seq<Str>, b: seq<Str>)
    requires Ascending(a) && Ascending(b) && Keys(a) == Keys(b)
    ensures a == b
    decreases |a|
  {
    assert a != [] ==> a[0] in Keys(a);
    assert b != [] ==> b[0] in Keys(b);
    if a != [] && b != [] {
      FirstUnique(a, b);
      AscendingDistinct(a);
      AscendingDistinct(b);
      forall k
        ensures k in a[1..] <==> k in b[1..]
      {
        assert k in a[1..] ==> k in Keys(a) && k != a[0];
        assert k in b[1..] ==> k in Keys(b) && k != b[0];
        assert a == [a[0]] + a[1..] && b == [b[0]] + b[1..];
      }
      AscendingUnique(a[1..], b[1..]);
      assert a == [a[0]] + a[1..] && b == [b[0]] + b[1..];
    }
  }

  lemma FirstUnique(a: seq<Str>, b: seq<Str>)
    requires Ascending(a) && Ascending(b) && Keys(a) == Keys(b) && a != [] && b != []
    ensures a[0] == b[0]
  {
    assert a[0] in Keys(b) && b[0] in Keys(a);
    var i :| 0 <= i < |b| && b[i] == a[0];
    var j :| 0 <= j < |a| && a[j] == b[0];
    if i > 0 && j > 0 {
      LessTransitive(a[0], b[0], a[0]);
      LessIrreflexive(a[0]);
    }
  }

  /** Sorting forgets the order the keys came in. */
  lemma SortForgets(a: seq<Str>, b: seq<Str>)
    requires Distinct(a) && Distinct(b) && Keys(a) == Keys(b)
    ensures Sort(a) == Sort(b)
  {
    SortSorts(a);
    SortSorts(b);
    AscendingUnique(Sort(a), Sort(b));
  }

  // ---- Sequences that hold the same elements ----

  lemma Twice<T>(f: seq<T>, i: nat, j: nat)
    requires i < j < |f| && f[i] == f[j]
    ensures multiset(f)[f[i]] >= 2
  {
    assert f == f[..j] + f[j..];
    assert f[i] in f[..j] && f[j] in f[j..];
    assert multiset(f) == multiset(f[..j]) + multiset(f[j..]);
  }

  lemma {:induction false} TwoPlaces<T>(f: seq<T>, v: T) returns (i: nat, j: nat)
    requires multiset(f)[v] >= 2
    ensures i < j < |f| && f[i] == v && f[j] == v
    decreases |f|
  {
    assert f == [f[0]] + f[1..];
    assert multiset(f) == multiset{f[0]} + multiset(f[1..]);
    if f[0] == v {
      i := 0;
      assert v in multiset(f[1..]);
      assert v in f[1..];
      j :| 1 <= j < |f| && f[j] == v;
    } else {
      i, j := TwoPlaces(f[1..], v);
      i, j := i + 1, j + 1;
    }
  }

  function Column<T>(f: seq<T>, key: T -> Str): (keys: seq<Str>)
    ensures |keys| == |f|
  {
    seq(|f|, i requires 0 <= i < |f| => key(f[i]))
  }

  /** Putting rows in another order keeps their keys, and keeps them distinct. */
  lemma Permuted<T>(f: seq<T>, g: seq<T>, key: T -> Str)
    requires multiset(f) == multiset(g) && Distinct(Column(f, key))
    ensures Distinct(Column(g, key)) && Keys(Column(f, key)) == Keys(Column(g, key))
  {
    forall k, l | 0 <= k < l < |f|
      ensures f[k] != f[l]
    {
      assert Column(f, key)[k] != Column(f, key)[l];
    }
    forall i, j | 0 <= i < j < |g|
      ensures Column(g, key)[i] != Column(g, key)[j]
    {
      assert g[i] in multiset(f) && g[j] in multiset(f);
      if g[i] == g[j] {
        Twice(g, i, j);
        var k, l := TwoPlaces(f, g[i]);
      } else {
        var k :| 0 <= k < |f| && f[k] == g[i];
        var l :| 0 <= l < |f| && f[l] == g[j];
        assert Column(f, key)[k] != Column(f, key)[l];
      }
    }
    MoreKeys(f, g, key);
    MoreKeys(g, f, key);
  }

  lemma MoreKeys<T>(f: seq<T>, g: seq<T>, key: T -> Str)
    requires multiset(f) == multiset(g)
    ensures Keys(Column(f, key)) <= Keys(Column(g, key))
  {
    forall k | k in Column(f, key)
      ensures k in Column(g, key)
    {
      var i :| 0 <= i < |f| && Column(f, key)[i] == k;
      assert f[i] in multiset(g);
      var j :| 0 <= j < |g| && g[j] == f[i];
      assert Column(g, key)[j] == k;
    }
  }

  /** Without repetitions, the same members make the same multiset. */
  lemma SameMembers<T>(f: seq<T>, g: seq<T>)
    requires forall i, j :: 0 <= i < j < |f| ==> f[i] != f[j]
    requires forall i, j :: 0 <= i < j < |g| ==> g[i] != g[j]
    requires forall x :: x in f <==> x in g
    ensures multiset(f) == multiset(g)
  {
    forall x
      ensures multiset(f)[x] == multiset(g)[x]
    {
      if multiset(f)[x] >= 2 { var i, j := TwoPlaces(f, x); }
      if multiset(g)[x] >= 2 { var i, j := TwoPlaces(g, x); }
      assert x in multiset(f) <==> x in f;
      assert x in multiset(g) <==> x in g;
    }
  }
}
