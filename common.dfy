/** Generic helpers shared by every component: an optional value and the
    JavaScript array operations the board relies on (indexOf, splice, filter
    without an element, de-duplication in first-occurrence order). */
module Common {

  /** `T | undefined` / `T | null` in the source. */
  datatype Option<T> = None | Some(value: T)

  function Min(a: int, b: int): int { if a < b then a else b }

  /** Array.prototype.indexOf: the first index holding x, or -1. */
  function IndexOf<T(==)>(s: seq<T>, x: T): (r: int)
    ensures -1 <= r < |s|
    ensures r == -1 <==> x !in s
    ensures 0 <= r ==> s[r] == x && x !in s[..r]
  {
    if s == [] then -1
    else if s[0] == x then 0
    else
      var k := IndexOf(s[1..], x);
      if k == -1 then -1
      else
        assert s[..k + 1] == [s[0]] + s[1..][..k];
        k + 1
  }

  /** The first occurrence of x in a prefix is its first occurrence in the whole. */
  lemma {:induction false} IndexOfPrefix<T>(s: seq<T>, m: nat, x: T)
    requires m <= |s| && x in s[..m]
    ensures IndexOf(s, x) == IndexOf(s[..m], x)
  {
    var p := s[..m];
    assert p[0] == s[0];
    if s[0] == x {
      assert IndexOf(s, x) == 0 && IndexOf(p, x) == 0;
    } else {
      var q := s[1..];
      assert p[1..] == q[..m - 1];
      assert x in q[..m - 1] by {
        assert p == [p[0]] + p[1..];
      }
      assert x in q by {
        assert q == q[..m - 1] + q[m - 1..];
      }
      IndexOfPrefix(q, m - 1, x);
      assert IndexOf(s, x) == IndexOf(q, x) + 1;
      assert IndexOf(p, x) == IndexOf(p[1..], x) + 1;
    }
  }

  /** No element occurs twice. */
  predicate NoDup<T(==)>(s: seq<T>) {
    forall i, j :: 0 <= i < j < |s| ==> s[i] != s[j]
  }

  /** a is obtained from b by deleting elements: b's order is kept. */
  predicate IsSubsequence<T(==)>(a: seq<T>, b: seq<T>)
    decreases |b|
  {
    if b == [] then a == []
    else (a != [] && a[0] == b[0] && IsSubsequence(a[1..], b[1..])) || IsSubsequence(a, b[1..])
  }

  /** Every element of a subsequence is an element of the sequence. */
  lemma {:induction false} SubsequenceMembers<T>(a: seq<T>, b: seq<T>)
    requires IsSubsequence(a, b)
    ensures |a| <= |b|
    ensures forall x :: x in a ==> x in b
  {
    if b != [] {
      if a != [] && a[0] == b[0] && IsSubsequence(a[1..], b[1..]) {
        SubsequenceMembers(a[1..], b[1..]);
        assert a == [a[0]] + a[1..];
      } else {
        SubsequenceMembers(a, b[1..]);
      }
    }
  }

  lemma {:induction false} EmptySubsequence<T>(b: seq<T>)
    ensures IsSubsequence([], b)
  {
    if b != [] {
      EmptySubsequence(b[1..]);
    }
  }

  /** A subsequence of a subsequence is a subsequence. */
  lemma {:induction false} SubsequenceTransitive<T>(a: seq<T>, b: seq<T>, c: seq<T>)
    requires IsSubsequence(a, b) && IsSubsequence(b, c)
    ensures IsSubsequence(a, c)
    decreases |c|
  {
    if b == [] {
      EmptySubsequence(c);
    } else if c != [] {
      if b[0] == c[0] && IsSubsequence(b[1..], c[1..]) {
        if a != [] && a[0] == b[0] && IsSubsequence(a[1..], b[1..]) {
          SubsequenceTransitive(a[1..], b[1..], c[1..]);
        } else {
          SubsequenceTransitive(a, b[1..], c[1..]);
        }
      } else {
        SubsequenceTransitive(a, b, c[1..]);
      }
    }
  }

  /** A prefix is a subsequence. */
  lemma {:induction false} PrefixSubsequence<T>(a: seq<T>, m: nat)
    requires m <= |a|
    ensures IsSubsequence(a[..m], a)
  {
    if m == 0 {
      EmptySubsequence(a);
    } else {
      assert a[..m][1..] == a[1..][..m - 1];
      PrefixSubsequence(a[1..], m - 1);
    }
  }

  /** `s.splice(k, 1)`, k a valid index. */
  function RemoveAt<T>(s: seq<T>, k: nat): (r: seq<T>)
    requires k < |s|
    ensures |r| == |s| - 1
    ensures forall j :: 0 <= j < k ==> r[j] == s[j]
    ensures forall j :: k <= j < |r| ==> r[j] == s[j + 1]
    ensures multiset(r) + multiset{s[k]} == multiset(s)
    ensures forall y :: y in r ==> y in s
  {
    assert s == s[..k] + [s[k]] + s[k + 1..];
    s[..k] + s[k + 1..]
  }

  /** `s.splice(k, 0, x)`: a start past the end appends, so x lands at min(k, |s|). */
  function InsertAt<T>(s: seq<T>, k: nat, x: T): (r: seq<T>)
    ensures |r| == |s| + 1
    ensures r[Min(k, |s|)] == x
    ensures RemoveAt(r, Min(k, |s|)) == s
    ensures multiset(r) == multiset(s) + multiset{x}
    ensures x in r && forall y :: y in s ==> y in r
    ensures forall y :: y in r ==> y in s || y == x
  {
    var j := Min(k, |s|);
    assert (s[..j] + [x] + s[j..])[..j] == s[..j];
    assert (s[..j] + [x] + s[j..])[j + 1..] == s[j..];
    assert s == s[..j] + s[j..];
    s[..j] + [x] + s[j..]
  }

  /** `s.filter(y => y !== x)`. */
  function Without<T(==, !new)>(s: seq<T>, x: T): (r: seq<T>)
    ensures x !in r
    ensures IsSubsequence(r, s)
    ensures forall y :: y in s && y != x ==> y in r
    ensures x !in s ==> r == s
    ensures NoDup(s) ==> NoDup(r)
  {
    if s == [] then []
    else
      var t := Without(s[1..], x);
      SubsequenceMembers(t, s[1..]);
      if s[0] == x then t
      else
        assert NoDup(s) ==> NoDup(s[1..]) && s[0] !in s[1..];
        assert ([s[0]] + t)[1..] == t;
        [s[0]] + t
  }

  /** The filter keeps every copy of every other element. */
  lemma {:induction false} WithoutMultiplicity<T(!new)>(s: seq<T>, x: T, y: T)
    ensures multiset(Without(s, x))[y] == if y == x then 0 else multiset(s)[y]
  {
    if s != [] {
      assert s == [s[0]] + s[1..];
      WithoutMultiplicity(s[1..], x, y);
    }
  }

  /** The elements of s without repetitions, each at its first occurrence:
      `Array.from(new Set(s))`. */
  function Dedup<T(==, !new)>(s: seq<T>): (r: seq<T>)
    ensures NoDup(r)
    ensures forall x :: x in r <==> x in s
    ensures forall i, j :: 0 <= i < j < |r| ==> IndexOf(s, r[i]) < IndexOf(s, r[j])
  {
    if s == [] then []
    else
      var n := |s| - 1;
      var d := Dedup(s[..n]);
      assert s == s[..n] + [s[n]];
      forall x | x in d ensures IndexOf(s, x) == IndexOf(s[..n], x) {
        IndexOfPrefix(s, n, x);
      }
      if s[n] in d then d
      else
        assert IndexOf(s, s[n]) == n;
        d + [s[n]]
  }
}
