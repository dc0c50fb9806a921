/**
 The order of `String` keys, and sorting: the lists the cache writes out are sorted so that
 they do not depend on the order in which a hash map yields its keys.
 */
module Order {

  predicate Less(a: string, b: string) {
    b != [] && (a == [] || a[0] < b[0] || (a[0] == b[0] && Less(a[1..], b[1..])))
  }

  lemma {:induction false} LessIsIrreflexive(a: string)
    ensures !Less(a, a)
  {
    if a != [] { LessIsIrreflexive(a[1..]); }
  }

  lemma {:induction false} LessIsTransitive(a: string, b: string, c: string)
    requires Less(a, b) && Less(b, c)
    ensures Less(a, c)
  {
    if a != [] && a[0] == b[0] == c[0] { LessIsTransitive(a[1..], b[1..], c[1..]); }
  }

  lemma {:induction false} LessIsTotal(a: string, b: string)
    ensures a == b || Less(a, b) || Less(b, a)
  {
    if a != [] && b != [] && a[0] == b[0] {
      LessIsTotal(a[1..], b[1..]);
      assert a == [a[0]] + a[1..] && b == [b[0]] + b[1..];
    }
  }

  ghost predicate StrictlySorted(s: seq<string>) {
    forall i, j | 0 <= i < j < |s| :: Less(s[i], s[j])
  }

  ghost predicate Sorted(s: seq<string>) {
    forall i, j | 0 <= i < j < |s| :: s[i] == s[j] || Less(s[i], s[j])
  }

  ghost function ToSet<T>(s: seq<T>): set<T> {
    set x | x in s
  }

  lemma ConsSorted(x: string, t: seq<string>)
    requires Sorted(t) && forall y | y in t :: x == y || Less(x, y)
    ensures Sorted([x] + t)
  {
    assert forall i | 0 <= i < |t| :: t[i] in t;
  }

  lemma ConsStrictlySorted(x: string, t: seq<string>)
    requires StrictlySorted(t) && forall y | y in t :: Less(x, y)
    ensures StrictlySorted([x] + t)
  {
    assert forall i | 0 <= i < |t| :: t[i] in t;
  }

  /** Puts a key in front of the first key that is not smaller. */
  function Insert(x: string, s: seq<string>): (r: seq<string>)
    ensures forall y :: y in r <==> y == x || y in s
  {
    if s == [] then [x]
    else if Less(s[0], x) then
      assert s == [s[0]] + s[1..];
      [s[0]] + Insert(x, s[1..])
    else [x] + s
  }

  lemma {:induction false} InsertSorted(x: string, s: seq<string>)
    requires Sorted(s)
    ensures Sorted(Insert(x, s))
    ensures x !in s && StrictlySorted(s) ==> StrictlySorted(Insert(x, s))
  {
    if s == [] {
    } else if Less(s[0], x) {
      assert forall y | y in s[1..] :: y in s && (s[0] == y || Less(s[0], y));
      InsertSorted(x, s[1..]);
      ConsSorted(s[0], Insert(x, s[1..]));
      if x !in s && StrictlySorted(s) {
        ConsStrictlySorted(s[0], Insert(x, s[1..]));
      }
    } else {
      LessIsTotal(x, s[0]);
      forall y | y in s ensures x == y || Less(x, y) {
        if s[0] != y && x != s[0] { LessIsTransitive(x, s[0], y); }
      }
      ConsSorted(x, s);
      if x !in s && StrictlySorted(s) {
        ConsStrictlySorted(x, s);
      }
    }
  }

  /** `sort` on a vector of keys. */
  function Sort(s: seq<string>): (r: seq<string>)
    ensures forall y :: y in r <==> y in s
  {
    if s == [] then []
    else
      assert s == [s[0]] + s[1..];
      Insert(s[0], Sort(s[1..]))
  }

  ghost predicate Distinct<T>(s: seq<T>) {
    forall i, j | 0 <= i < j < |s| :: s[i] != s[j]
  }

  lemma {:induction false} SortSorts(s: seq<string>)
    ensures Sorted(Sort(s))
    ensures Distinct(s) ==> StrictlySorted(Sort(s))
  {
    if s != [] {
      SortSorts(s[1..]);
      InsertSorted(s[0], Sort(s[1..]));
      if Distinct(s) {
        assert forall i | 0 <= i < |s[1..]| :: s[1..][i] == s[i + 1];
        assert s[0] !in s[1..];
      }
    }
  }

  /** `dedup` on a vector: drops a key equal to the one kept before it. */
  function Dedup(s: seq<string>): (r: seq<string>)
    ensures s != [] ==> r != [] && r[0] == s[0]
    ensures forall x :: x in r <==> x in s
  {
    if |s| <= 1 then s
    else if s[0] == s[1] then Dedup(s[1..])
    else [s[0]] + Dedup(s[1..])
  }

  lemma {:induction false} DedupSorted(s: seq<string>)
    requires Sorted(s)
    ensures StrictlySorted(Dedup(s))
  {
    if |s| > 1 {
      DedupSorted(s[1..]);
      if s[0] != s[1] {
        var t := Dedup(s[1..]);
        forall x | x in t ensures Less(s[0], x) {
          if x != s[1] { LessIsTransitive(s[0], s[1], x); }
        }
      }
    }
  }

  /** The keys of a set in ascending order. */
  ghost function SortedSet(s: set<string>): (r: seq<string>)
    ensures StrictlySorted(r) && ToSet(r) == s
  {
    if s == {} then []
    else
      var x :| x in s;
      var t := SortedSet(s - {x});
      assert forall y :: y in t <==> y in s - {x} by { assert forall y :: y in ToSet(t) <==> y in t; }
      InsertSorted(x, t);
      Insert(x, t)
  }

  lemma {:induction false} StrictlySortedIsUnique(a: seq<string>, b: seq<string>)
    requires StrictlySorted(a) && StrictlySorted(b) && ToSet(a) == ToSet(b)
    ensures a == b
  {
    assert |a| > 0 ==> a[0] in ToSet(b);
    assert |b| > 0 ==> b[0] in ToSet(a);
    if a != [] {
      if a[0] != b[0] {
        LessIsTransitive(a[0], b[0], a[0]);
        LessIsIrreflexive(a[0]);
      }
      LessIsIrreflexive(a[0]);
      TailSet(a);
      TailSet(b);
      StrictlySortedIsUnique(a[1..], b[1..]);
      assert a == [a[0]] + a[1..] && b == [b[0]] + b[1..];
    }
  }

  lemma TailSet(a: seq<string>)
    requires a != [] && StrictlySorted(a)
    ensures ToSet(a[1..]) == ToSet(a) - {a[0]}
  {
    LessIsIrreflexive(a[0]);
    assert a == [a[0]] + a[1..];
  }

  /** Sorting any listing of a set without repetition gives its one sorted listing. */
  lemma SortOfListing(s: seq<string>)
    requires Distinct(s)
    ensures Sort(s) == SortedSet(ToSet(s))
  {
    SortSorts(s);
    StrictlySortedIsUnique(Sort(s), SortedSet(ToSet(s)));
  }

  /** Sorting and then dropping repetitions lists the set once, in order. */
  lemma SortDedup(s: seq<string>)
    ensures Dedup(Sort(s)) == SortedSet(ToSet(s))
  {
    SortSorts(s);
    DedupSorted(Sort(s));
    StrictlySortedIsUnique(Dedup(Sort(s)), SortedSet(ToSet(s)));
  }

  /** Some listing of a set, in the order the hash set happens to yield it. */
  method Listing(s: set<string>) returns (r: seq<string>)
    ensures ToSet(r) == s && Distinct(r)
  {
    r := [];
    var rest := s;
    while rest != {}
      invariant rest <= s && Distinct(r) && forall h :: h in r <==> h in s - rest
      decreases rest
    {
      var h :| h in rest;
      assert forall i | 0 <= i < |r| :: r[i] in r;
      r, rest := r + [h], rest - {h};
    }
  }

  method SortListing(listing: seq<string>) returns (r: seq<string>)
    requires Distinct(listing)
    ensures r == SortedSet(ToSet(listing))
  {
    SortOfListing(listing);
    r := Sort(listing);
  }
}
