/** The byte order of names and values, and a stable sort by a given order. */
module Order {
  import opened Bytes

  /** Lexicographic order of byte strings. */
  predicate Less(a: Blob, b: Blob) {
    b != [] && (a == [] || a[0] < b[0] || (a[0] == b[0] && Less(a[1..], b[1..])))
  }

  predicate Leq(a: Blob, b: Blob) { a == b || Less(a, b) }

  lemma {:induction false} LessTotal(a: Blob, b: Blob)
    ensures Less(a, b) || a == b || Less(b, a)
    ensures !(Less(a, b) && Less(b, a))
    ensures !Less(a, a)
  {
    if a != [] {
      LessTotal(a[1..], a[1..]);
    }
    if a != [] && b != [] && a[0] == b[0] {
      LessTotal(a[1..], b[1..]);
      if a[1..] == b[1..] {
        assert a == [a[0]] + a[1..] && b == [b[0]] + b[1..];
      }
    }
  }

  lemma {:induction false} LessTransitive(a: Blob, b: Blob, c: Blob)
    requires Less(a, b) && Less(b, c)
    ensures Less(a, c)
  {
    if a != [] && a[0] == b[0] && b[0] == c[0] {
      LessTransitive(a[1..], b[1..], c[1..]);
    }
  }

  // --- A stable sort ----------------------------------------------------------

  ghost predicate TotalOrder<T(!new)>(le: (T, T) -> bool) {
    && (forall a, b :: le(a, b) || le(b, a))
    && (forall a, b, c :: le(a, b) && le(b, c) ==> le(a, c))
  }

  ghost predicate Sorted<T>(le: (T, T) -> bool, s: seq<T>) {
    forall i, j :: 0 <= i < j < |s| ==> le(s[i], s[j])
  }

  /** `x` after every element that is not above it. */
  function Insert<T>(le: (T, T) -> bool, x: T, s: seq<T>): (r: seq<T>)
    ensures |r| == |s| + 1
  {
    if s != [] && le(s[0], x) then [s[0]] + Insert(le, x, s[1..]) else [x] + s
  }

  function Sort<T>(le: (T, T) -> bool, s: seq<T>): (r: seq<T>)
    ensures |r| == |s|
  {
    if s == [] then [] else Insert(le, s[|s| - 1], Sort(le, s[..|s| - 1]))
  }

  lemma {:induction false} InsertPermutes<T>(le: (T, T) -> bool, x: T, s: seq<T>)
    ensures multiset(Insert(le, x, s)) == multiset(s) + multiset{x}
  {
    if s != [] && le(s[0], x) {
      InsertPermutes(le, x, s[1..]);
      assert s == [s[0]] + s[1..];
    }
  }

  lemma {:induction false} SortPermutes<T>(le: (T, T) -> bool, s: seq<T>)
    ensures multiset(Sort(le, s)) == multiset(s)
  {
    if s != [] {
      var init := s[..|s| - 1];
      SortPermutes(le, init);
      InsertPermutes(le, s[|s| - 1], Sort(le, init));
      assert s == init + [s[|s| - 1]];
    }
  }

  lemma {:induction false} InsertSorts<T(!new)>(le: (T, T) -> bool, x: T, s: seq<T>)
    requires TotalOrder(le) && Sorted(le, s)
    ensures Sorted(le, Insert(le, x, s))
  {
    if s != [] && le(s[0], x) {
      var t := Insert(le, x, s[1..]);
      InsertSorts(le, x, s[1..]);
      InsertPermutes(le, x, s[1..]);
      forall j | 0 <= j < |t|
        ensures le(s[0], t[j])
      {
        assert t[j] in multiset(t);
        assert t[j] == x || t[j] in s[1..];
      }
    } else {
      forall j | 0 <= j < |s|
        ensures le(x, s[j])
      {
        assert le(x, s[0]);
        assert j == 0 || le(s[0], s[j]);
      }
    }
  }

  lemma {:induction false} SortSorts<T(!new)>(le: (T, T) -> bool, s: seq<T>)
    requires TotalOrder(le)
    ensures Sorted(le, Sort(le, s))
  {
    if s != [] {
      SortSorts(le, s[..|s| - 1]);
      InsertSorts(le, s[|s| - 1], Sort(le, s[..|s| - 1]));
    }
  }

  lemma {:induction false} SameElements<T>(a: seq<T>, b: seq<T>)
    requires multiset(a) == multiset(b)
    ensures forall x :: x in a <==> x in b
  {
    forall x
      ensures x in a <==> x in b
    {
      assert x in a <==> x in multiset(a);
      assert x in b <==> x in multiset(b);
    }
  }

  // --- Sort by a byte-string key ----------------------------------------------

  function KeyLe<T>(key: T -> Blob): (T, T) -> bool {
    (a: T, b: T) => Leq(key(a), key(b))
  }

  lemma {:induction false} KeyLeTotal<T(!new)>(key: T -> Blob)
    ensures TotalOrder(KeyLe(key))
  {
    var le := KeyLe(key);
    forall a: T, b: T
      ensures le(a, b) || le(b, a)
    {
      LessTotal(key(a), key(b));
    }
    forall a: T, b: T, c: T | le(a, b) && le(b, c)
      ensures le(a, c)
    {
      if Less(key(a), key(b)) && Less(key(b), key(c)) {
        LessTransitive(key(a), key(b), key(c));
      }
    }
  }

  ghost predicate DistinctKeys<T>(key: T -> Blob, s: seq<T>) {
    forall i, j :: 0 <= i < j < |s| ==> key(s[i]) != key(s[j])
  }

  ghost predicate StrictKeys<T>(key: T -> Blob, s: seq<T>) {
    forall i, j :: 0 <= i < j < |s| ==> Less(key(s[i]), key(s[j]))
  }

  lemma {:induction false} InsertDistinct<T>(le: (T, T) -> bool, key: T -> Blob, x: T, s: seq<T>)
    requires DistinctKeys(key, s) && forall i :: 0 <= i < |s| ==> key(s[i]) != key(x)
    ensures DistinctKeys(key, Insert(le, x, s))
  {
    if s != [] && le(s[0], x) {
      var t := Insert(le, x, s[1..]);
      InsertDistinct(le, key, x, s[1..]);
      InsertPermutes(le, x, s[1..]);
      forall j | 0 <= j < |t|
        ensures key(s[0]) != key(t[j])
      {
        assert t[j] in multiset(t);
        assert t[j] == x || t[j] in s[1..];
      }
    }
  }

  lemma {:induction false} SortDistinct<T>(le: (T, T) -> bool, key: T -> Blob, s: seq<T>)
    requires DistinctKeys(key, s)
    ensures DistinctKeys(key, Sort(le, s))
  {
    if s != [] {
      var init, x := s[..|s| - 1], s[|s| - 1];
      SortDistinct(le, key, init);
      SortPermutes(le, init);
      var t := Sort(le, init);
      forall i | 0 <= i < |t|
        ensures key(t[i]) != key(x)
      {
        assert t[i] in multiset(t);
        assert t[i] in init;
      }
      InsertDistinct(le, key, x, t);
    }
  }

  /** A sort by distinct keys is strictly ascending and holds the same elements. */
  lemma {:induction false} SortByKey<T(!new)>(key: T -> Blob, s: seq<T>)
    requires DistinctKeys(key, s)
    ensures StrictKeys(key, Sort(KeyLe(key), s))
    ensures multiset(Sort(KeyLe(key), s)) == multiset(s)
  {
    var le := KeyLe(key);
    KeyLeTotal(key);
    SortSorts(le, s);
    SortDistinct(le, key, s);
    SortPermutes(le, s);
    var t := Sort(le, s);
    forall i, j | 0 <= i < j < |t|
      ensures Less(key(t[i]), key(t[j]))
    {
      assert le(t[i], t[j]);
    }
  }

  // --- Sums -------------------------------------------------------------------

  ghost function SumOf<T>(f: T -> nat, s: seq<T>): nat {
    if s == [] then 0 else f(s[0]) + SumOf(f, s[1..])
  }

  lemma {:induction false} SumConcat<T>(f: T -> nat, a: seq<T>, b: seq<T>)
    ensures SumOf(f, a + b) == SumOf(f, a) + SumOf(f, b)
  {
    if a == [] {
      assert a + b == b;
    } else {
      SumConcat(f, a[1..], b);
      assert (a + b)[1..] == a[1..] + b;
    }
  }

  lemma {:induction false} SumInsert<T>(f: T -> nat, le: (T, T) -> bool, x: T, s: seq<T>)
    ensures SumOf(f, Insert(le, x, s)) == f(x) + SumOf(f, s)
  {
    if s != [] && le(s[0], x) {
      SumInsert(f, le, x, s[1..]);
      assert ([s[0]] + Insert(le, x, s[1..]))[1..] == Insert(le, x, s[1..]);
    } else {
      assert ([x] + s)[1..] == s;
    }
  }

  lemma {:induction false} SumSort<T>(f: T -> nat, le: (T, T) -> bool, s: seq<T>)
    ensures SumOf(f, Sort(le, s)) == SumOf(f, s)
  {
    if s != [] {
      var init, x := s[..|s| - 1], s[|s| - 1];
      SumSort(f, le, init);
      SumInsert(f, le, x, Sort(le, init));
      SumConcat(f, init, [x]);
      assert s == init + [x];
      assert SumOf(f, [x]) == f(x) + SumOf(f, [x][1..]);
    }
  }

  function Fold<S, T>(f: (S, T) -> S, s: S, xs: seq<T>): S {
    if xs == [] then s else f(Fold(f, s, xs[..|xs| - 1]), xs[|xs| - 1])
  }

  lemma {:induction false} FoldConcat<S, T>(f: (S, T) -> S, s: S, a: seq<T>, b: seq<T>)
    ensures Fold(f, s, a + b) == Fold(f, Fold(f, s, a), b)
  {
    if b == [] {
      assert a + b == a;
    } else {
      FoldConcat(f, s, a, b[..|b| - 1]);
      assert (a + b)[..|a + b| - 1] == a + b[..|b| - 1];
    }
  }
}
