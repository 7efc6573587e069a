/**
 * Python's `sorted(xs, key=f, reverse=rev)` on the keys the listing endpoints
 * use: a stable sort. Keys are (int, str) pairs compared lexicographically, as
 * Python compares tuples; a date key leaves the string part empty.
 *
 * `reverse=True` flips every comparison but keeps the sort stable: records
 * with equal keys stay in their fetched order. `SortBy` is an insertion sort
 * that inserts each record after every record it need not precede, and
 * `StableOrderUnique` shows that any stable sort (Timsort included) produces
 * the same sequence.
 */
module Ordering {
  import opened Text

  datatype SortKey = SortKey(major: int, minor: string)

  /** Tuple comparison `(a.major, a.minor) <= (b.major, b.minor)`. */
  predicate KeyLe(a: SortKey, b: SortKey)
    ensures a.major != b.major ==> (KeyLe(a, b) <==> a.major < b.major)
    ensures a.major == b.major ==> (KeyLe(a, b) <==> StrLe(a.minor, b.minor))
  {
    a.major < b.major || (a.major == b.major && StrLe(a.minor, b.minor))
  }

  lemma KeyLeRefl(a: SortKey)
    ensures KeyLe(a, a)
  {
    StrLeRefl(a.minor);
  }

  lemma KeyLeTotal(a: SortKey, b: SortKey)
    ensures KeyLe(a, b) || KeyLe(b, a)
  {
    StrLeTotal(a.minor, b.minor);
  }

  lemma KeyLeTrans(a: SortKey, b: SortKey, c: SortKey)
    requires KeyLe(a, b) && KeyLe(b, c)
    ensures KeyLe(a, c)
  {
    if a.major == b.major == c.major { StrLeTrans(a.minor, b.minor, c.minor); }
  }

  lemma KeyLeAntisym(a: SortKey, b: SortKey)
    requires KeyLe(a, b) && KeyLe(b, a)
    ensures a == b
  {
    StrLeAntisym(a.minor, b.minor);
  }

  /** Whether key `a` may come before key `b` in the output order. */
  predicate InOrder(a: SortKey, b: SortKey, reverse: bool)
  {
    if reverse then KeyLe(b, a) else KeyLe(a, b)
  }

  lemma InOrderTotal(a: SortKey, b: SortKey, reverse: bool)
    ensures InOrder(a, b, reverse) || InOrder(b, a, reverse)
  {
    KeyLeTotal(a, b);
  }

  lemma InOrderTrans(a: SortKey, b: SortKey, c: SortKey, reverse: bool)
    requires InOrder(a, b, reverse) && InOrder(b, c, reverse)
    ensures InOrder(a, c, reverse)
  {
    if reverse { KeyLeTrans(c, b, a); } else { KeyLeTrans(a, b, c); }
  }

  lemma InOrderAntisym(a: SortKey, b: SortKey, reverse: bool)
    requires InOrder(a, b, reverse) && InOrder(b, a, reverse)
    ensures a == b
  {
    KeyLeAntisym(a, b);
  }

  /** Every earlier element's key may come before every later element's key. */
  ghost predicate Ordered<T>(s: seq<T>, key: T -> SortKey, reverse: bool)
  {
    forall i, j :: 0 <= i < j < |s| ==> InOrder(key(s[i]), key(s[j]), reverse)
  }

  /** The subsequence of `s` whose key is `k`, in the order of `s`. */
  function Class<T>(s: seq<T>, key: T -> SortKey, k: SortKey): seq<T>
  {
    if s == [] then []
    else (if key(s[0]) == k then [s[0]] else []) + Class(s[1..], key, k)
  }

  /** A sort is stable when every key's subsequence is what it was. */
  ghost predicate SameClasses<T>(r: seq<T>, s: seq<T>, key: T -> SortKey)
  {
    forall k :: Class(r, key, k) == Class(s, key, k)
  }

  lemma {:induction false} ClassAppend<T>(a: seq<T>, b: seq<T>, key: T -> SortKey, k: SortKey)
    ensures Class(a + b, key, k) == Class(a, key, k) + Class(b, key, k)
  {
    if a == [] {
      assert a + b == b;
    } else {
      assert (a + b)[0] == a[0];
      assert (a + b)[1..] == a[1..] + b;
      ClassAppend(a[1..], b, key, k);
    }
  }

  lemma {:induction false} ClassNone<T>(s: seq<T>, key: T -> SortKey, k: SortKey)
    requires forall i :: 0 <= i < |s| ==> key(s[i]) != k
    ensures Class(s, key, k) == []
  {
    if s != [] { ClassNone(s[1..], key, k); }
  }

  lemma {:induction false} ClassMember<T>(s: seq<T>, key: T -> SortKey, k: SortKey, i: nat)
    requires i < |Class(s, key, k)|
    ensures Class(s, key, k)[i] in s && key(Class(s, key, k)[i]) == k
  {
    if s != [] {
      if key(s[0]) == k {
        if i > 0 { ClassMember(s[1..], key, k, i - 1); }
      } else {
        ClassMember(s[1..], key, k, i);
      }
    }
  }

  lemma ClassOfHead<T>(s: seq<T>, key: T -> SortKey)
    ensures s != [] ==> Class(s, key, key(s[0])) != []
  {
  }

  /** Puts `x` after every element of the ordered `s` that it need not precede. */
  function Insert<T>(x: T, s: seq<T>, key: T -> SortKey, reverse: bool): (r: seq<T>)
    requires Ordered(s, key, reverse)
    ensures |r| == |s| + 1
    ensures forall i :: 0 <= i < |r| ==> r[i] == x || r[i] in s
    ensures multiset(r) == multiset(s) + multiset{x}
    ensures Ordered(r, key, reverse)
    ensures forall k :: Class(r, key, k) == Class(s, key, k) + Class([x], key, k)
  {
    if s == [] then [x]
    else if InOrder(key(s[0]), key(x), reverse) then
      var t := Insert(x, s[1..], key, reverse);
      InsertAfterHead(x, s, t, key, reverse);
      ElementsAfterHead(x, s, t);
      [s[0]] + t
    else
      InsertAtFront(x, s, key, reverse);
      [x] + s
  }

  lemma OrderedCons<T>(y: T, t: seq<T>, key: T -> SortKey, reverse: bool)
    requires Ordered(t, key, reverse)
    requires forall j :: 0 <= j < |t| ==> InOrder(key(y), key(t[j]), reverse)
    ensures Ordered([y] + t, key, reverse)
  {
  }

  lemma ClassCons<T>(y: T, t: seq<T>, key: T -> SortKey, k: SortKey)
    ensures Class([y] + t, key, k) == (if key(y) == k then [y] else []) + Class(t, key, k)
  {
  }

  lemma InsertAfterHead<T>(x: T, s: seq<T>, t: seq<T>, key: T -> SortKey, reverse: bool)
    requires s != [] && Ordered(s, key, reverse) && InOrder(key(s[0]), key(x), reverse)
    requires |t| == |s| && Ordered(t, key, reverse)
    requires forall i :: 0 <= i < |t| ==> t[i] == x || t[i] in s[1..]
    requires forall k :: Class(t, key, k) == Class(s[1..], key, k) + Class([x], key, k)
    ensures Ordered([s[0]] + t, key, reverse)
    ensures forall k :: Class([s[0]] + t, key, k) == Class(s, key, k) + Class([x], key, k)
  {
    forall j | 0 <= j < |t|
      ensures InOrder(key(s[0]), key(t[j]), reverse)
    {
      if t[j] != x {
        var m :| 0 <= m < |s[1..]| && s[1..][m] == t[j];
        assert s[m + 1] == t[j];
      }
    }
    OrderedCons(s[0], t, key, reverse);
    forall k
      ensures Class([s[0]] + t, key, k) == Class(s, key, k) + Class([x], key, k)
    {
      ClassAfterHead(x, s, t, key, k);
    }
  }

  lemma ClassAfterHead<T>(x: T, s: seq<T>, t: seq<T>, key: T -> SortKey, k: SortKey)
    requires s != [] && Class(t, key, k) == Class(s[1..], key, k) + Class([x], key, k)
    ensures Class([s[0]] + t, key, k) == Class(s, key, k) + Class([x], key, k)
  {
  }

  lemma ElementsAfterHead<T>(x: T, s: seq<T>, t: seq<T>)
    requires s != []
    requires forall i :: 0 <= i < |t| ==> t[i] == x || t[i] in s[1..]
    requires multiset(t) == multiset(s[1..]) + multiset{x}
    ensures forall i :: 0 <= i < |t| + 1 ==> ([s[0]] + t)[i] == x || ([s[0]] + t)[i] in s
    ensures multiset([s[0]] + t) == multiset(s) + multiset{x}
  {
    assert s == [s[0]] + s[1..];
    forall i | 0 <= i < |t| + 1
      ensures ([s[0]] + t)[i] == x || ([s[0]] + t)[i] in s
    {
      if i > 0 {
        assert ([s[0]] + t)[i] == t[i - 1];
      }
    }
  }

  lemma InsertAtFront<T>(x: T, s: seq<T>, key: T -> SortKey, reverse: bool)
    requires s != [] && Ordered(s, key, reverse) && !InOrder(key(s[0]), key(x), reverse)
    ensures Ordered([x] + s, key, reverse)
    ensures forall k :: Class([x] + s, key, k) == Class(s, key, k) + Class([x], key, k)
  {
    InOrderTotal(key(s[0]), key(x), reverse);
    forall j | 0 <= j < |s|
      ensures InOrder(key(x), key(s[j]), reverse) && key(s[j]) != key(x)
    {
      if j > 0 { InOrderTrans(key(x), key(s[0]), key(s[j]), reverse); }
    }
    OrderedCons(x, s, key, reverse);
    forall k
      ensures Class([x] + s, key, k) == Class(s, key, k) + Class([x], key, k)
    {
      ClassCons(x, s, key, k);
      ClassCons(x, [], key, k);
      if key(x) == k { ClassNone(s, key, k); }
    }
  }

  /**
   * `sorted(s, key=key, reverse=reverse)`: a permutation of `s`, ordered by
   * key, in which records with equal keys keep their order in `s`.
   */
  function SortBy<T>(s: seq<T>, key: T -> SortKey, reverse: bool): (r: seq<T>)
    ensures |r| == |s|
    ensures multiset(r) == multiset(s)
    ensures Ordered(r, key, reverse)
    ensures SameClasses(r, s, key)
  {
    if s == [] then []
    else
      var init, last := s[..|s| - 1], s[|s| - 1];
      assert s == init + [last];
      var r := Insert(last, SortBy(init, key, reverse), key, reverse);
      assert forall k :: Class(s, key, k) == Class(init, key, k) + Class([last], key, k) by {
        forall k { ClassAppend(init, [last], key, k); }
      }
      r
  }

  /** A stable ordering of a sequence is unique. */
  lemma {:induction false} StableOrderUnique<T>(r1: seq<T>, r2: seq<T>, key: T -> SortKey, reverse: bool)
    requires Ordered(r1, key, reverse) && Ordered(r2, key, reverse)
    requires SameClasses(r1, r2, key)
    ensures r1 == r2
  {
    if r1 == [] || r2 == [] {
      // One empty: the other's first key class would be empty too.
      ClassOfHead(r1, key);
      ClassOfHead(r2, key);
      if r1 != [] || r2 != [] { assert false; }
    } else {
      var a, b := r1[0], r2[0];
      // a occurs in r2, so b's key may precede a's; and symmetrically.
      ClassMember(r2, key, key(a), 0);
      assert Class(r1, key, key(a))[0] == a;
      var j :| 0 <= j < |r2| && r2[j] == a;
      assert InOrder(key(b), key(a), reverse) by {
        if j > 0 { } else { InOrderTotal(key(b), key(a), reverse); }
      }
      ClassMember(r1, key, key(b), 0);
      assert Class(r2, key, key(b))[0] == b;
      var i :| 0 <= i < |r1| && r1[i] == b;
      assert InOrder(key(a), key(b), reverse) by {
        if i > 0 { } else { InOrderTotal(key(a), key(b), reverse); }
      }
      InOrderAntisym(key(a), key(b), reverse);
      assert a == b;
      forall k
        ensures Class(r1[1..], key, k) == Class(r2[1..], key, k)
      {
        assert Class(r1, key, k) == Class(r2, key, k);
        assert Class(r1, key, k) == (if key(a) == k then [a] else []) + Class(r1[1..], key, k);
        assert Class(r2, key, k) == (if key(b) == k then [b] else []) + Class(r2[1..], key, k);
        if key(a) == k {
          assert Class(r1[1..], key, k) == Class(r1, key, k)[1..];
          assert Class(r2[1..], key, k) == Class(r2, key, k)[1..];
        } else {
          assert Class(r1, key, k) == Class(r1[1..], key, k);
          assert Class(r2, key, k) == Class(r2[1..], key, k);
        }
      }
      StableOrderUnique(r1[1..], r2[1..], key, reverse);
      assert r1 == [a] + r1[1..] && r2 == [b] + r2[1..];
    }
  }

  /** Any stable ordering of `s` is the one `SortBy` computes. */
  lemma SortByIsTheStableSort<T>(s: seq<T>, r: seq<T>, key: T -> SortKey, reverse: bool)
    requires Ordered(r, key, reverse) && SameClasses(r, s, key)
    ensures r == SortBy(s, key, reverse)
  {
    StableOrderUnique(r, SortBy(s, key, reverse), key, reverse);
  }
}
