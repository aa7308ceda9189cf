/** Lexicographic order on texts, and sorting by it. */
module TextOrder {
  import opened Basics
  import opened Values

  predicate Le(a: string, b: string) {
    !CompareText(a, b).Greater?
  }

  lemma {:induction false} LeTotal(a: string, b: string)
    ensures Le(a, b) || Le(b, a)
    ensures Le(a, b) && Le(b, a) ==> a == b
  {
    if a != [] && b != [] {
      LeTotal(a[1..], b[1..]);
      if a[0] == b[0] && a[1..] == b[1..] {
        assert a == [a[0]] + a[1..] && b == [b[0]] + b[1..];
      }
    }
  }

  lemma {:induction false} LeTransitive(a: string, b: string, c: string)
    requires Le(a, b) && Le(b, c)
    ensures Le(a, c)
  {
    if a != [] && b != [] && c != [] && a[0] == b[0] == c[0] {
      LeTransitive(a[1..], b[1..], c[1..]);
    }
  }

  function Insert(x: string, s: seq<string>): (r: seq<string>)
    ensures multiset(r) == multiset(s) + multiset{x}
  {
    if s == [] || Le(x, s[0]) then [x] + s
    else
      assert s == [s[0]] + s[1..];
      [s[0]] + Insert(x, s[1..])
  }

  function Sort(s: seq<string>): (r: seq<string>)
    ensures multiset(r) == multiset(s)
  {
    if s == [] then []
    else
      assert s == [s[0]] + s[1..];
      Insert(s[0], Sort(s[1..]))
  }

  ghost predicate Sorted(s: seq<string>) {
    s != [] ==> (forall x | x in s[1..] :: Le(s[0], x)) && Sorted(s[1..])
  }

  lemma {:induction false} InsertSorted(x: string, s: seq<string>)
    requires Sorted(s)
    ensures Sorted(Insert(x, s))
  {
    if s == [] {
    } else if Le(x, s[0]) {
      assert ([x] + s)[1..] == s;
      forall y | y in s
        ensures Le(x, y)
      {
        if y != s[0] {
          assert y in s[1..];
          LeTransitive(x, s[0], y);
        }
      }
    } else {
      var r := Insert(x, s[1..]);
      InsertSorted(x, s[1..]);
      assert ([s[0]] + r)[1..] == r;
      LeTotal(x, s[0]);
      forall y | y in r
        ensures Le(s[0], y)
      {
        assert y in multiset(r);
        assert y == x || y in multiset(s[1..]);
      }
    }
  }

  lemma {:induction false} SortSorted(s: seq<string>)
    ensures Sorted(Sort(s))
  {
    if s != [] {
      SortSorted(s[1..]);
      InsertSorted(s[0], Sort(s[1..]));
    }
  }

  lemma HeadIsLeast(s: seq<string>, x: string)
    requires Sorted(s) && x in multiset(s)
    ensures s != [] && Le(s[0], x)
  {
    LeTotal(s[0], s[0]);
    assert x in s;
    if x != s[0] {
      assert x in s[1..];
    }
  }

  lemma MultisetTail(s: seq<string>)
    requires s != []
    ensures multiset(s[1..]) == multiset(s) - multiset{s[0]}
  {
    assert s == [s[0]] + s[1..];
  }

  /** The sorted arrangement of a multiset of texts is unique. */
  lemma {:induction false} SortedUnique(s: seq<string>, t: seq<string>)
    requires Sorted(s) && Sorted(t) && multiset(s) == multiset(t)
    ensures s == t
  {
    if s == [] {
      assert |t| == |multiset(t)| == |multiset(s)|;
    } else {
      assert s[0] in multiset(s);
      HeadIsLeast(t, s[0]);
      assert t[0] in multiset(t);
      HeadIsLeast(s, t[0]);
      LeTotal(s[0], t[0]);
      MultisetTail(s);
      MultisetTail(t);
      SortedUnique(s[1..], t[1..]);
      assert s == [s[0]] + s[1..] && t == [t[0]] + t[1..];
    }
  }

  /** Sorting forgets the order it was given, and nothing else. */
  lemma SortIgnoresOrder(s: seq<string>, t: seq<string>)
    ensures Sort(s) == Sort(t) <==> multiset(s) == multiset(t)
  {
    if multiset(s) == multiset(t) {
      SortSorted(s);
      SortSorted(t);
      SortedUnique(Sort(s), Sort(t));
    }
  }

  lemma {:induction false} SortedAt(s: seq<string>, i: nat, j: nat)
    requires Sorted(s) && i <= j < |s|
    ensures Le(s[i], s[j])
  {
    if i == j {
      LeTotal(s[i], s[j]);
    } else if i == 0 {
      assert s[j] == s[1..][j - 1];
    } else {
      SortedAt(s[1..], i - 1, j - 1);
    }
  }

  /** Distinct texts sort into strictly increasing ones. */
  lemma SortIncreasing(s: seq<string>)
    requires Distinct(s)
    ensures forall i, j | 0 <= i < j < |Sort(s)| :: Le(Sort(s)[i], Sort(s)[j]) && Sort(s)[i] != Sort(s)[j]
  {
    DistinctIff(s);
    DistinctIff(Sort(s));
    SortSorted(s);
    forall i, j | 0 <= i < j < |Sort(s)|
      ensures Le(Sort(s)[i], Sort(s)[j])
    {
      SortedAt(Sort(s), i, j);
    }
  }

  lemma {:induction false} IncreasingIsSorted(s: seq<string>)
    requires forall i, j | 0 <= i < j < |s| :: Le(s[i], s[j])
    ensures Sorted(s)
  {
    if s != [] {
      IncreasingIsSorted(s[1..]);
    }
  }

  /** A strictly increasing list is determined by its members. */
  lemma IncreasingUnique(s: seq<string>, t: seq<string>)
    requires forall i, j | 0 <= i < j < |s| :: Le(s[i], s[j]) && s[i] != s[j]
    requires forall i, j | 0 <= i < j < |t| :: Le(t[i], t[j]) && t[i] != t[j]
    requires forall x :: x in s <==> x in t
    ensures s == t
  {
    DistinctIff(s);
    DistinctIff(t);
    forall x
      ensures multiset(s)[x] == multiset(t)[x]
    {
      assert x in s <==> x in multiset(s);
      assert x in t <==> x in multiset(t);
    }
    assert multiset(s) == multiset(t);
    IncreasingIsSorted(s);
    IncreasingIsSorted(t);
    SortedUnique(s, t);
  }

  // ---- Texts of a rearranged list -----------------------------------------------------------------

  function Texts<T>(text: T -> string, ps: seq<T>): (texts: seq<string>)
    ensures |texts| == |ps| && forall i | 0 <= i < |ps| :: texts[i] == text(ps[i])
  {
    seq(|ps|, i requires 0 <= i < |ps| => text(ps[i]))
  }

  lemma MultisetAround<T>(a: seq<T>, x: T, b: seq<T>)
    ensures multiset(a + [x] + b) == multiset(a + b) + multiset{x}
  {
  }

  lemma TextsAround<T>(text: T -> string, a: seq<T>, x: T, b: seq<T>)
    ensures multiset(Texts(text, a + [x] + b)) == multiset(Texts(text, a + b)) + multiset{text(x)}
  {
    assert Texts(text, a + b) == Texts(text, a) + Texts(text, b);
    assert Texts(text, a + [x] + b) == Texts(text, a) + [text(x)] + Texts(text, b);
  }

  function RemoveAt<T>(s: seq<T>, j: nat): (r: seq<T>)
    requires j < |s|
    ensures |r| == |s| - 1
  {
    s[..j] + s[j + 1..]
  }

  lemma TextsRemove<T>(text: T -> string, s: seq<T>, j: nat)
    requires j < |s|
    ensures multiset(s) == multiset(RemoveAt(s, j)) + multiset{s[j]}
    ensures multiset(Texts(text, s)) == multiset(Texts(text, RemoveAt(s, j))) + multiset{text(s[j])}
  {
    assert s == s[..j] + [s[j]] + s[j + 1..];
    MultisetAround(s[..j], s[j], s[j + 1..]);
    TextsAround(text, s[..j], s[j], s[j + 1..]);
  }

  lemma {:induction false} TextsOfPermutation<T>(text: T -> string, s: seq<T>, t: seq<T>)
    requires multiset(s) == multiset(t)
    ensures multiset(Texts(text, s)) == multiset(Texts(text, t))
    decreases |s|
  {
    assert |s| == |multiset(s)| == |multiset(t)| == |t|;
    if |s| > 0 {
      assert s[0] in multiset(t);
      var j :| 0 <= j < |t| && t[j] == s[0];
      TextsRemove(text, s, 0);
      TextsRemove(text, t, j);
      assert multiset(RemoveAt(s, 0)) == multiset(s) - multiset{s[0]} == multiset(RemoveAt(t, j));
      TextsOfPermutation(text, RemoveAt(s, 0), RemoveAt(t, j));
    }
  }
}
