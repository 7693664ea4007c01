/** Value types and orderings shared by the component models. */
module Common {

  datatype Option<+T> = None | Some(value: T)

  datatype Result<+T> = Ok(value: T) | Err(message: string)

  newtype Byte = x: int | 0 <= x < 256

  function Max(a: int, b: int): int {
    if a < b then b else a
  }

  function Min(a: int, b: int): int {
    if a < b then a else b
  }

  function Elements<T>(s: seq<T>): set<T> {
    set x | x in s
  }

  predicate Distinct<T(==)>(s: seq<T>) {
    forall i, j :: 0 <= i < j < |s| ==> s[i] != s[j]
  }

  lemma ElementsSnoc<T>(s: seq<T>, x: T)
    ensures Elements(s + [x]) == Elements(s) + {x}
    ensures Distinct(s) && x !in Elements(s) ==> Distinct(s + [x])
  {
    assert forall i :: 0 <= i < |s| ==> s[i] in Elements(s);
    assert forall y :: y in s + [x] <==> y in s || y == x;
  }

  /** Any set can be listed, each element once. */
  lemma {:induction false} ListSet<T>(xs: set<T>) returns (list: seq<T>)
    ensures Distinct(list) && Elements(list) == xs
  {
    list := [];
    if xs != {} {
      var x :| x in xs;
      var rest := ListSet(xs - {x});
      ElementsSnoc(rest, x);
      list := rest + [x];
    }
  }

  lemma {:induction false} DistinctSize<T>(s: seq<T>)
    requires Distinct(s)
    ensures |Elements(s)| == |s|
  {
    if s != [] {
      var front := s[..|s| - 1];
      DistinctSize(front);
      assert s == front + [s[|s| - 1]];
      ElementsSnoc(front, s[|s| - 1]);
      assert s[|s| - 1] !in Elements(front);
    }
  }

  lemma {:induction false} SubsetSize<T>(a: set<T>, b: set<T>)
    requires a <= b
    ensures |a| <= |b|
  {
    if a != {} {
      var x :| x in a;
      SubsetSize(a - {x}, b - {x});
    }
  }

  /** Sequence s without the element at position k. */
  function RemoveAt<T>(s: seq<T>, k: nat): seq<T>
    requires k < |s|
  {
    s[..k] + s[k + 1..]
  }

  lemma RemoveAtMultiset<T>(s: seq<T>, k: nat)
    requires k < |s|
    ensures multiset(s) == multiset(RemoveAt(s, k)) + multiset{s[k]}
  {
    assert s == s[..k] + [s[k]] + s[k + 1..];
  }

  lemma {:induction false} DistinctCounts<T>(s: seq<T>, x: T)
    requires Distinct(s)
    ensures multiset(s)[x] <= 1
  {
    if s != [] {
      var front := s[..|s| - 1];
      assert s == front + [s[|s| - 1]];
      DistinctCounts(front, x);
      assert forall i :: 0 <= i < |front| ==> front[i] != s[|s| - 1];
      assert s[|s| - 1] !in multiset(front);
    }
  }

  lemma RepeatCounts<T>(t: seq<T>, i: nat, j: nat)
    requires i < j < |t|
    ensures t[i] == t[j] ==> multiset(t)[t[i]] >= 2
  {
    assert t == t[..j] + [t[j]] + t[j + 1..];
    assert t[i] in t[..j];
  }

  /** A rearrangement of distinct elements is distinct. */
  lemma DistinctByMultiset<T>(s: seq<T>, t: seq<T>)
    requires Distinct(s) && multiset(s) == multiset(t)
    ensures Distinct(t)
  {
    forall i, j | 0 <= i < j < |t| ensures t[i] != t[j] {
      DistinctCounts(s, t[i]);
      RepeatCounts(t, i, j);
    }
  }

  /** The elements that meet p, in order. */
  function Where<T>(p: T -> bool, s: seq<T>): seq<T> {
    if s == [] then [] else Where(p, s[..|s| - 1]) + if p(s[|s| - 1]) then [s[|s| - 1]] else []
  }

  lemma {:induction false} WhereLaw<T(!new)>(p: T -> bool, s: seq<T>)
    ensures forall x :: x in Where(p, s) <==> x in s && p(x)
    ensures Distinct(s) ==> Distinct(Where(p, s))
  {
    if s != [] {
      WhereLaw(p, s[..|s| - 1]);
      assert s == s[..|s| - 1] + [s[|s| - 1]];
    }
  }

  // ----- division -----

  lemma Multiplied(a: int, b: int, d: int)
    requires a <= b && 0 <= d
    ensures a * d <= b * d
  {
  }

  lemma DivBounds(x: int, d: int, q: int)
    requires 0 < d && q * d <= x < q * d + d
    ensures x / d == q
  {
    var p, r := x / d, x % d;
    assert x == p * d + r && (q - p) * d == q * d - p * d;
    if p + 1 <= q {
      Multiplied(1, q - p, d);
    }
    if q + 1 <= p {
      Multiplied(1, p - q, d);
    }
  }

  // ----- the byte order of Go's `<` on strings -----

  predicate StringLess(a: string, b: string) {
    if b == "" then false
    else if a == "" then true
    else if a[0] != b[0] then a[0] < b[0]
    else StringLess(a[1..], b[1..])
  }

  /** At the first difference the smaller character decides; a proper prefix comes first. */
  lemma {:induction false} StringLessIff(a: string, b: string)
    ensures StringLess(a, b) <==> exists k: nat :: FirstDifference(a, b, k) && (k == |a| || (k < |b| && a[k] < b[k]))
  {
    if StringLess(a, b) {
      if a == "" || a[0] != b[0] {
        assert FirstDifference(a, b, 0);
      } else {
        StringLessIff(a[1..], b[1..]);
        var k: nat :| FirstDifference(a[1..], b[1..], k) && (k == |a[1..]| || (k < |b[1..]| && a[1..][k] < b[1..][k]));
        FirstDifferenceLater(a, b, k);
      }
    }
    if k: nat :| FirstDifference(a, b, k) && (k == |a| || (k < |b| && a[k] < b[k])) {
      if k > 0 {
        assert a[0] == b[0];
        assert FirstDifference(a[1..], b[1..], k - 1) by {
          assert forall i :: 0 <= i < k - 1 ==> a[1..][i] == a[i + 1] && b[1..][i] == b[i + 1];
        }
        StringLessIff(a[1..], b[1..]);
      }
    }
  }

  lemma FirstDifferenceLater(a: string, b: string, k: nat)
    requires a != "" && b != "" && a[0] == b[0] && FirstDifference(a[1..], b[1..], k)
    ensures FirstDifference(a, b, k + 1)
  {
    forall i | 0 <= i < k + 1 ensures a[i] == b[i] {
      if i > 0 {
        assert a[1..][i - 1] == b[1..][i - 1];
      }
    }
  }

  /** The strings agree before k, and at k one of them ends or they differ. */
  predicate FirstDifference(a: string, b: string, k: nat) {
    && k <= |a| && k <= |b| && (forall i :: 0 <= i < k ==> a[i] == b[i])
    && (k < |a| || k < |b|) && (k < |a| && k < |b| ==> a[k] != b[k])
  }

  lemma {:induction false} StringLessTransitive(a: string, b: string, c: string)
    requires StringLess(a, b) && StringLess(b, c)
    ensures StringLess(a, c)
  {
    if a != "" && a[0] == b[0] && b[0] == c[0] {
      StringLessTransitive(a[1..], b[1..], c[1..]);
    }
  }

  lemma {:induction false} StringLessIrreflexive(a: string)
    ensures !StringLess(a, a)
  {
    if a != "" {
      StringLessIrreflexive(a[1..]);
    }
  }

  lemma {:induction false} StringLessTotal(a: string, b: string)
    requires a != b
    ensures StringLess(a, b) || StringLess(b, a)
  {
    if a != "" && b != "" && a[0] == b[0] {
      assert a == [a[0]] + a[1..] && b == [b[0]] + b[1..];
      StringLessTotal(a[1..], b[1..]);
    }
  }

  // ----- joining with NUL -----

  const NUL_CHAR := '\0'

  /** strings.Join(parts, "\x00") */
  function JoinNul(parts: seq<string>): string {
    if parts == [] then "" else if |parts| == 1 then parts[0] else parts[0] + [NUL_CHAR] + JoinNul(parts[1..])
  }

  lemma {:induction false} PrefixBeforeNul(a: string, b: string, x: string, y: string)
    requires NUL_CHAR !in a && NUL_CHAR !in b && a + [NUL_CHAR] + x == b + [NUL_CHAR] + y
    ensures a == b && x == y
  {
    var s := a + [NUL_CHAR] + x;
    assert s[|a|] == NUL_CHAR && s[|b|] == NUL_CHAR;
    assert a == s[..|a|] == b;
    assert x == s[|a| + 1..] == y;
  }

  /** Joined NUL-free parts determine the parts. */
  lemma {:induction false} JoinNulInjective(a: seq<string>, b: seq<string>)
    requires |a| == |b| && JoinNul(a) == JoinNul(b)
    requires forall i :: 0 <= i < |a| ==> NUL_CHAR !in a[i] && NUL_CHAR !in b[i]
    ensures a == b
  {
    if |a| == 1 {
      assert a == [a[0]] && b == [b[0]];
    } else if |a| > 1 {
      PrefixBeforeNul(a[0], b[0], JoinNul(a[1..]), JoinNul(b[1..]));
      JoinNulInjective(a[1..], b[1..]);
      assert a == [a[0]] + a[1..] && b == [b[0]] + b[1..];
    }
  }

  // ----- sorting under a strict order -----

  /** less is a strict order that decides between any two different elements of xs. */
  ghost predicate Orders<T(!new)>(less: (T, T) -> bool, xs: set<T>) {
    && (forall x :: !less(x, x))
    && (forall x, y, z :: less(x, y) && less(y, z) ==> less(x, z))
    && (forall x, y :: x in xs && y in xs && x != y ==> less(x, y) || less(y, x))
  }

  predicate SortedBy<T>(less: (T, T) -> bool, s: seq<T>) {
    forall i, j :: 0 <= i < j < |s| ==> less(s[i], s[j])
  }

  lemma StringLessOrders(xs: set<string>)
    ensures Orders(StringLess, xs)
  {
    forall x ensures !StringLess(x, x) {
      StringLessIrreflexive(x);
    }
    forall x, y, z | StringLess(x, y) && StringLess(y, z) ensures StringLess(x, z) {
      StringLessTransitive(x, y, z);
    }
    forall x, y | x in xs && y in xs && x != y ensures StringLess(x, y) || StringLess(y, x) {
      StringLessTotal(x, y);
    }
  }

  function Insert<T>(less: (T, T) -> bool, x: T, s: seq<T>): seq<T> {
    if s == [] then [x]
    else if !less(s[0], x) then [x] + s
    else [s[0]] + Insert(less, x, s[1..])
  }

  /** The sorted form of s, equals kept in their order; unique when less orders the elements (SortedIsUnique). */
  function Sort<T>(less: (T, T) -> bool, s: seq<T>): seq<T> {
    if s == [] then [] else Insert(less, s[0], Sort(less, s[1..]))
  }

  lemma {:induction false} InsertMultiset<T>(less: (T, T) -> bool, x: T, s: seq<T>)
    ensures multiset(Insert(less, x, s)) == multiset(s) + multiset{x}
  {
    if s != [] && less(s[0], x) {
      InsertMultiset(less, x, s[1..]);
      assert s == [s[0]] + s[1..];
    }
  }

  lemma {:induction false} InsertSorted<T(!new)>(less: (T, T) -> bool, x: T, s: seq<T>)
    requires Orders(less, Elements(s) + {x}) && SortedBy(less, s) && x !in s
    ensures SortedBy(less, Insert(less, x, s))
  {
    if s != [] && less(s[0], x) {
      assert Elements(s[1..]) <= Elements(s);
      InsertSorted(less, x, s[1..]);
      var r := Insert(less, x, s[1..]);
      InsertMultiset(less, x, s[1..]);
      forall k | 0 <= k < |r| ensures less(s[0], r[k]) {
        assert r[k] in multiset(r);
        assert r[k] in multiset(s[1..]) || r[k] == x;
        if r[k] != x {
          var m :| 0 <= m < |s[1..]| && s[1..][m] == r[k];
          assert s[m + 1] == r[k];
        }
      }
    } else if s != [] {
      assert s[0] in Elements(s);
      assert less(x, s[0]);
      forall k | 0 <= k < |s| ensures less(x, s[k]) {
        if k > 0 {
          assert less(s[0], s[k]);
        }
      }
    }
  }

  lemma {:induction false} SortMultiset<T>(less: (T, T) -> bool, s: seq<T>)
    ensures multiset(Sort(less, s)) == multiset(s)
  {
    if s != [] {
      SortMultiset(less, s[1..]);
      InsertMultiset(less, s[0], Sort(less, s[1..]));
      assert s == [s[0]] + s[1..];
    }
  }

  lemma SameMultiset<T>(s: seq<T>, t: seq<T>)
    requires multiset(s) == multiset(t)
    ensures |s| == |t| && Elements(s) == Elements(t)
  {
    assert |multiset(s)| == |multiset(t)|;
    assert forall x :: x in s <==> x in multiset(s);
    assert forall x :: x in t <==> x in multiset(t);
  }

  lemma SortElements<T>(less: (T, T) -> bool, s: seq<T>)
    ensures |Sort(less, s)| == |s|
    ensures Elements(Sort(less, s)) == Elements(s)
  {
    SortMultiset(less, s);
    SameMultiset(Sort(less, s), s);
  }

  lemma {:induction false} SortSorted<T(!new)>(less: (T, T) -> bool, s: seq<T>)
    requires Orders(less, Elements(s)) && Distinct(s)
    ensures SortedBy(less, Sort(less, s))
  {
    if s != [] {
      var t := s[1..];
      assert forall i :: 0 <= i < |t| ==> t[i] == s[i + 1];
      assert Elements(t) <= Elements(s);
      SortSorted(less, t);
      SortElements(less, t);
      assert Elements(Sort(less, t)) + {s[0]} <= Elements(s);
      assert s[0] !in Elements(t);
      InsertSorted(less, s[0], Sort(less, t));
    }
  }

  /** Any two sorted sequences of the same elements are equal. */
  lemma {:induction false} SortedIsUnique<T(!new)>(less: (T, T) -> bool, s: seq<T>, t: seq<T>)
    requires Orders(less, Elements(s))
    requires SortedBy(less, s) && SortedBy(less, t)
    requires Elements(s) == Elements(t)
    ensures s == t
  {
    if s == [] {
      assert forall k :: 0 <= k < |t| ==> t[k] in Elements(t);
    } else {
      assert s[0] in Elements(t);
      var j :| 0 <= j < |t| && t[j] == s[0];
      assert t[0] in Elements(s);
      var i :| 0 <= i < |s| && s[i] == t[0];
      assert j == 0 && s[0] == t[0];
      forall x ensures x in Elements(s[1..]) <==> x in Elements(t[1..]) {
        if x in Elements(s[1..]) {
          var a :| 0 <= a < |s[1..]| && s[1..][a] == x;
          assert less(s[0], s[a + 1]);
          assert x in Elements(s);
          var b :| 0 <= b < |t| && t[b] == x;
          assert b > 0 && t[1..][b - 1] == x;
        }
        if x in Elements(t[1..]) {
          var a :| 0 <= a < |t[1..]| && t[1..][a] == x;
          assert less(t[0], t[a + 1]);
          assert x in Elements(t);
          var b :| 0 <= b < |s| && s[b] == x;
          assert b > 0 && s[1..][b - 1] == x;
        }
      }
      assert Elements(s[1..]) <= Elements(s);
      SortedIsUnique(less, s[1..], t[1..]);
      assert s == [s[0]] + s[1..] && t == [t[0]] + t[1..];
    }
  }
}
