/** Byte-wise string facts the Go code relies on: strings.Cut, the order sort.Strings uses,
    and the fact that a sorted listing of a set is unique. */
module Strings {

  // Character classes, letter by letter.

  predicate IsDigit(c: char) { c in "0123456789" }

  predicate IsLower(c: char) { c in "abcdefghijklm" || c in "nopqrstuvwxyz" }

  predicate IsUpper(c: char) { c in "ABCDEFGHIJKLM" || c in "NOPQRSTUVWXYZ" }

  lemma DigitRange(c: char)
    ensures '0' <= c <= '9' <==> IsDigit(c)
  {
    if '0' <= c <= '9' { assert "0123456789"[c as int - '0' as int] == c; }
  }

  lemma FirstLowers(c: char)
    ensures 'a' <= c <= 'm' <==> c in "abcdefghijklm"
  {
    if 'a' <= c <= 'm' { assert "abcdefghijklm"[c as int - 'a' as int] == c; }
  }

  lemma LastLowers(c: char)
    ensures 'n' <= c <= 'z' <==> c in "nopqrstuvwxyz"
  {
    if 'n' <= c <= 'z' { assert "nopqrstuvwxyz"[c as int - 'n' as int] == c; }
  }

  lemma FirstUppers(c: char)
    ensures 'A' <= c <= 'M' <==> c in "ABCDEFGHIJKLM"
  {
    if 'A' <= c <= 'M' { assert "ABCDEFGHIJKLM"[c as int - 'A' as int] == c; }
  }

  lemma LastUppers(c: char)
    ensures 'N' <= c <= 'Z' <==> c in "NOPQRSTUVWXYZ"
  {
    if 'N' <= c <= 'Z' { assert "NOPQRSTUVWXYZ"[c as int - 'N' as int] == c; }
  }

  lemma LowerRange(c: char)
    ensures 'a' <= c <= 'z' <==> IsLower(c)
  {
    FirstLowers(c);
    LastLowers(c);
  }

  lemma UpperRange(c: char)
    ensures 'A' <= c <= 'Z' <==> IsUpper(c)
  {
    FirstUppers(c);
    LastUppers(c);
  }

  /** Index of the first c in s, or |s| when there is none. */
  function IndexOf(s: string, c: char): (i: nat)
    ensures i <= |s|
    ensures i < |s| ==> s[i] == c
  {
    if s == "" || s[0] == c then 0 else 1 + IndexOf(s[1..], c)
  }

  lemma {:induction false} IndexOfIsFirst(s: string, c: char)
    ensures forall k :: 0 <= k < IndexOf(s, c) ==> s[k] != c
  {
    if s == "" || s[0] == c {
    } else {
      IndexOfIsFirst(s[1..], c);
      forall k | 0 <= k < IndexOf(s, c) ensures s[k] != c {
        assert k > 0 ==> s[k] == s[1..][k - 1];
      }
    }
  }

  lemma {:induction false} IndexOfAbsent(s: string, c: char)
    requires c !in s
    ensures IndexOf(s, c) == |s|
  {
    if s == "" {
    } else {
      IndexOfAbsent(s[1..], c);
    }
  }

  predicate HasPrefix(s: string, prefix: string) {
    |prefix| <= |s| && s[..|prefix|] == prefix
  }

  predicate HasSuffix(s: string, suffix: string) {
    |suffix| <= |s| && s[|s| - |suffix|..] == suffix
  }

  lemma PrefixChars(s: string, prefix: string)
    requires HasPrefix(s, prefix)
    ensures forall k :: 0 <= k < |prefix| ==> s[k] == prefix[k]
  {
    assert forall k :: 0 <= k < |prefix| ==> s[..|prefix|][k] == s[k];
  }

  lemma SuffixLastChar(s: string, suffix: string)
    requires HasSuffix(s, suffix) && suffix != ""
    ensures s != "" && s[|s| - 1] == suffix[|suffix| - 1]
  {
    assert s[|s| - |suffix|..][|suffix| - 1] == s[|s| - 1];
  }

  lemma SuffixOfSuffix(s: string, long: string, short: string)
    requires HasSuffix(s, long) && HasSuffix(long, short)
    ensures HasSuffix(s, short)
  {
    assert s[|s| - |short|..] == s[|s| - |long|..][|long| - |short|..];
  }

  lemma {:induction false} IndexOfIs(s: string, c: char, k: nat)
    requires k < |s| && s[k] == c
    requires forall i :: 0 <= i < k ==> s[i] != c
    ensures IndexOf(s, c) == k
  {
    if k == 0 {
    } else {
      IndexOfIs(s[1..], c, k - 1);
    }
  }

  lemma CutIs(a: string, x: string, c: char)
    requires c !in a
    ensures var s := a + [c] + x; IndexOf(s, c) == |a| && s[..|a|] == a && s[|a| + 1..] == x
  {
    var s := a + [c] + x;
    forall i | 0 <= i < |a| ensures s[i] != c {
      assert s[i] == a[i] && a[i] in a;
    }
    IndexOfIs(s, c, |a|);
  }

  lemma NotBeforeIndex(s: string, c: char)
    ensures c !in s[..IndexOf(s, c)] && (c !in s ==> IndexOf(s, c) == |s| && s[..IndexOf(s, c)] == s)
  {
    IndexOfIsFirst(s, c);
    if c !in s { IndexOfAbsent(s, c); }
  }

  /** What precedes the first separator, and what follows it, can be read off. */
  lemma CutInjective(a: string, x: string, b: string, y: string, c: char)
    requires c !in a && c !in b && a + [c] + x == b + [c] + y
    ensures a == b && x == y
  {
    CutIs(a, x, c);
    CutIs(b, y, c);
  }

  /** The order of Go's string comparison. */
  predicate Leq(a: string, b: string)
    decreases |a|
  {
    a == "" || (b != "" && (a[0] < b[0] || (a[0] == b[0] && Leq(a[1..], b[1..]))))
  }

  ghost predicate DiffersAt(a: string, b: string, k: nat) {
    k <= |a| && k < |b| && a[..k] == b[..k] && (k == |a| || a[k] < b[k])
  }

  /** a comes strictly before b in byte order: at the first difference it has the smaller byte, or it ends there. */
  ghost predicate ByteBefore(a: string, b: string) {
    exists k: nat :: DiffersAt(a, b, k)
  }

  lemma SameStart(a: string, b: string, k: nat)
    requires 0 < k <= |a| && k <= |b| && a[..k] == b[..k]
    ensures a[0] == b[0]
  {
    assert a[..k][0] == a[0] && b[..k][0] == b[0];
  }

  /** The order is the byte order, and no other total order. */
  lemma {:induction false} LeqIsByteOrder(a: string, b: string)
    ensures Leq(a, b) <==> a == b || ByteBefore(a, b)
  {
    if a == "" {
      if b != "" { assert DiffersAt(a, b, 0); }
    } else if b == "" || a[0] != b[0] {
      if b != "" && a[0] < b[0] { assert DiffersAt(a, b, 0); }
      if k: nat :| DiffersAt(a, b, k) && k > 0 { SameStart(a, b, k); }
    } else {
      LeqIsByteOrder(a[1..], b[1..]);
      assert a == [a[0]] + a[1..] && b == [b[0]] + b[1..];
      if k: nat :| DiffersAt(a[1..], b[1..], k) {
        assert a[..k + 1] == [a[0]] + a[1..][..k] && b[..k + 1] == [b[0]] + b[1..][..k];
        assert DiffersAt(a, b, k + 1);
      }
      if k: nat :| DiffersAt(a, b, k) {
        assert k > 0;
        assert a[1..][..k - 1] == a[..k][1..] && b[1..][..k - 1] == b[..k][1..];
        assert DiffersAt(a[1..], b[1..], k - 1);
      }
    }
  }

  lemma LeqReflexive(a: string)
    ensures Leq(a, a)
  {
  }

  lemma {:induction false} LeqTotal(a: string, b: string)
    ensures Leq(a, b) || Leq(b, a)
  {
    if a == "" || b == "" || a[0] != b[0] {
    } else {
      LeqTotal(a[1..], b[1..]);
    }
  }

  lemma {:induction false} LeqAntisymmetric(a: string, b: string)
    requires Leq(a, b) && Leq(b, a)
    ensures a == b
  {
    if a == "" || b == "" {
    } else {
      LeqAntisymmetric(a[1..], b[1..]);
      assert a == [a[0]] + a[1..] && b == [b[0]] + b[1..];
    }
  }

  lemma {:induction false} LeqTransitive(a: string, b: string, c: string)
    requires Leq(a, b) && Leq(b, c)
    ensures Leq(a, c)
  {
    if a != "" && a[0] == b[0] == c[0] {
      LeqTransitive(a[1..], b[1..], c[1..]);
    }
  }

  ghost predicate Sorted(q: seq<string>) {
    forall i, j :: 0 <= i < j < |q| ==> Leq(q[i], q[j])
  }

  function InsertName(x: string, q: seq<string>): seq<string> {
    if q == [] || Leq(x, q[0]) then [x] + q else [q[0]] + InsertName(x, q[1..])
  }

  /** sort.Strings. */
  function SortNames(q: seq<string>): seq<string> {
    if q == [] then [] else InsertName(q[0], SortNames(q[1..]))
  }

  lemma HeadLeq(q: seq<string>, y: string)
    requires Sorted(q) && y in q
    ensures Leq(q[0], y)
  {
    LeqReflexive(q[0]);
  }

  lemma {:induction false} InsertNameKeeps(x: string, q: seq<string>)
    requires Sorted(q)
    ensures Sorted(InsertName(x, q)) && multiset(InsertName(x, q)) == multiset(q) + multiset{x}
    ensures forall y :: y in InsertName(x, q) <==> y == x || y in q
  {
    if q == [] {
    } else {
      assert q == [q[0]] + q[1..];
      LeqTotal(x, q[0]);
      if Leq(x, q[0]) {
        forall y | y in q ensures Leq(x, y) { HeadLeq(q, y); LeqTransitive(x, q[0], y); }
      } else {
        InsertNameKeeps(x, q[1..]);
        forall y | y in InsertName(x, q[1..]) ensures Leq(q[0], y) { if y != x { HeadLeq(q, y); } }
      }
    }
  }

  lemma {:induction false} SortNamesIsSorted(q: seq<string>)
    ensures Sorted(SortNames(q)) && multiset(SortNames(q)) == multiset(q)
  {
    if q == [] {
    } else {
      assert q == [q[0]] + q[1..];
      SortNamesIsSorted(q[1..]);
      InsertNameKeeps(q[0], SortNames(q[1..]));
    }
  }

  lemma SortNamesKeepsMembers(q: seq<string>)
    ensures forall y :: y in SortNames(q) <==> y in q
  {
    SortNamesIsSorted(q);
    forall y ensures y in SortNames(q) <==> y in q {
      assert y in SortNames(q) <==> y in multiset(SortNames(q));
      assert y in q <==> y in multiset(q);
    }
  }

  ghost predicate IsLeast(s: set<string>, x: string) {
    x in s && forall y <- s :: Leq(x, y)
  }

  lemma {:induction false} LeastExists(s: set<string>)
    requires s != {}
    ensures exists x :: IsLeast(s, x)
  {
    var x :| x in s;
    LeqReflexive(x);
    if s == {x} {
      assert IsLeast(s, x);
    } else {
      var rest := s - {x};
      assert rest < s;
      LeastExists(rest);
      var y :| IsLeast(rest, y);
      LeqTotal(x, y);
      if Leq(x, y) {
        forall z | z in s ensures Leq(x, z) {
          if z != x { LeqTransitive(x, y, z); }
        }
        assert IsLeast(s, x);
      } else {
        assert IsLeast(s, y);
      }
    }
  }

  /** The least element, as sort.Strings would list it first. */
  function Least(s: set<string>): (x: string)
    requires s != {}
    ensures IsLeast(s, x)
  {
    LeastExists(s);
    assert forall x, y :: IsLeast(s, x) && IsLeast(s, y) ==> x == y by {
      forall x, y | IsLeast(s, x) && IsLeast(s, y) ensures x == y {
        LeqAntisymmetric(x, y);
      }
    }
    assert forall x :: IsLeast(s, x) <==> (x in s && forall y <- s :: Leq(x, y));
    var x :| x in s && forall y <- s :: Leq(x, y);
    x
  }

  ghost predicate SortedDistinct(q: seq<string>) {
    forall i, j :: 0 <= i < j < |q| ==> q[i] != q[j] && Leq(q[i], q[j])
  }

  lemma SmallerInFront(x: string, q: seq<string>)
    requires SortedDistinct(q) && forall y <- q :: y != x && Leq(x, y)
    ensures SortedDistinct([x] + q) && forall y :: y in [x] + q <==> y == x || y in q
  {
    forall i | 0 <= i < |q| ensures q[i] != x && Leq(x, q[i]) { assert q[i] in q; }
  }

  /** The sorted listing of s: what sort.Strings makes of any enumeration of a Go map's keys. */
  function SortedListing(s: set<string>): (q: seq<string>)
    ensures forall x :: x in q <==> x in s
    ensures SortedDistinct(q)
    ensures |q| == |s|
  {
    if s == {} then []
    else
      var x, rest := Least(s), SortedListing(s - {Least(s)});
      SmallerInFront(x, rest);
      [x] + rest
  }

  lemma HeadIsLeast(q: seq<string>, s: set<string>)
    requires SortedDistinct(q) && q != [] && q[0] in s && forall x <- s :: x in q
    ensures Least(s) == q[0]
  {
    var least := Least(s);
    LeqReflexive(q[0]);
    var i :| 0 <= i < |q| && q[i] == least;
    LeqAntisymmetric(q[0], least);
  }

  lemma TailMembers(q: seq<string>, s: set<string>)
    requires SortedDistinct(q) && q != [] && forall x :: x in q <==> x in s
    ensures SortedDistinct(q[1..]) && forall x :: x in q[1..] <==> x in s - {q[0]}
  {
    var rest := q[1..];
    assert q == [q[0]] + rest;
    assert forall i :: 0 <= i < |rest| ==> rest[i] == q[i + 1];
  }

  /** Whatever order the keys were enumerated in, sorting them yields one listing. */
  lemma {:induction false} SortedListingUnique(q: seq<string>, s: set<string>)
    requires SortedDistinct(q) && forall x :: x in q <==> x in s
    ensures q == SortedListing(s)
  {
    if q == [] {
    } else {
      assert q[0] in q;
      HeadIsLeast(q, s);
      TailMembers(q, s);
      SortedListingUnique(q[1..], s - {q[0]});
      assert q == [q[0]] + q[1..];
    }
  }
}
