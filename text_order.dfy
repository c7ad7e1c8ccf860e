/**
 * The order `Array.prototype.sort()` uses when it is given no comparator:
 * strings compared character by character, a proper prefix first. Sorting,
 * reversing, and the facts that make the sorted result independent of the
 * order the elements arrived in.
 */
module TextOrder {

  /** `a` sorts strictly before `b`. */
  predicate Less(a: string, b: string) {
    if a == [] then b != []
    else if b == [] then false
    else if a[0] != b[0] then a[0] < b[0]
    else Less(a[1..], b[1..])
  }

  lemma {:induction false} LessIrreflexive(a: string)
    ensures !Less(a, a)
  {
    if a != [] {
      LessIrreflexive(a[1..]);
    }
  }

  lemma {:induction false} LessAsymmetric(a: string, b: string)
    requires Less(a, b)
    ensures !Less(b, a)
  {
    if a != [] && b != [] && a[0] == b[0] {
      LessAsymmetric(a[1..], b[1..]);
    }
  }

  lemma {:induction false} LessTransitive(a: string, b: string, c: string)
    requires Less(a, b) && Less(b, c)
    ensures Less(a, c)
  {
    if a != [] && a[0] == b[0] && b[0] == c[0] {
      LessTransitive(a[1..], b[1..], c[1..]);
    }
  }

  /** Two different strings are always ordered one way or the other. */
  lemma {:induction false} LessTotal(a: string, b: string)
    requires a != b
    ensures Less(a, b) || Less(b, a)
  {
    if a != [] && b != [] && a[0] == b[0] {
      assert a == [a[0]] + a[1..] && b == [b[0]] + b[1..];
      LessTotal(a[1..], b[1..]);
    }
  }

  /** "Not after" is transitive. */
  lemma NotLessTransitive(a: string, b: string, c: string)
    requires !Less(b, a) && !Less(c, b)
    ensures !Less(c, a)
  {
    if a != b && b != c {
      LessTotal(a, b);
      LessTotal(b, c);
      LessTransitive(a, b, c);
      LessAsymmetric(a, c);
    } else if a == b && b != c {
      LessTotal(b, c);
      LessAsymmetric(b, c);
    } else if a != b {
      LessTotal(a, b);
      LessAsymmetric(a, b);
    } else {
      LessIrreflexive(a);
    }
  }

  /** Every element is not after the next one. */
  ghost predicate Ascending(s: seq<string>) {
    forall i :: 0 <= i < |s| - 1 ==> !Less(s[i + 1], s[i])
  }

  /** Every element is not before the next one. */
  ghost predicate Descending(s: seq<string>) {
    forall i :: 0 <= i < |s| - 1 ==> !Less(s[i], s[i + 1])
  }

  /** Every element is strictly after the next one. */
  ghost predicate StrictlyDescending(s: seq<string>) {
    forall i :: 0 <= i < |s| - 1 ==> Less(s[i + 1], s[i])
  }

  /** No element occurs twice. */
  ghost predicate Distinct(s: seq<string>) {
    forall x :: multiset(s)[x] <= 1
  }

  /** Puts `x` into an ascending sequence in its place. */
  function Insert(x: string, s: seq<string>): (r: seq<string>)
    requires Ascending(s)
    ensures Ascending(r)
    ensures multiset(r) == multiset(s) + multiset{x}
    ensures r[0] == x || (s != [] && r[0] == s[0])
  {
    if s == [] then [x]
    else if !Less(s[0], x) then [x] + s
    else
      AscendingTail(s);
      var rest := Insert(x, s[1..]);
      LessAsymmetric(s[0], x);
      assert s == [s[0]] + s[1..];
      [s[0]] + rest
  }

  /** `sort()` with no comparator, as an insertion sort. Which algorithm is used does not
      matter: `AscendingUnique` shows there is only one ascending permutation. */
  function SortAscending(s: seq<string>): (r: seq<string>)
    ensures Ascending(r)
    ensures multiset(r) == multiset(s)
  {
    if s == [] then []
    else
      assert s == [s[0]] + s[1..];
      Insert(s[0], SortAscending(s[1..]))
  }

  /** `reverse()`. */
  function Reverse<T>(s: seq<T>): (r: seq<T>)
    ensures |r| == |s|
    ensures forall i :: 0 <= i < |s| ==> r[i] == s[|s| - 1 - i]
  {
    if s == [] then [] else Reverse(s[1..]) + [s[0]]
  }

  lemma ReversePermutes<T>(s: seq<T>)
    ensures multiset(Reverse(s)) == multiset(s)
    decreases |s|
  {
    if s != [] {
      ReversePermutes(s[1..]);
      assert s == [s[0]] + s[1..];
    }
  }

  /** Reversing an ascending sequence gives a descending one. */
  lemma ReverseAscending(s: seq<string>)
    requires Ascending(s)
    ensures Descending(Reverse(s))
  {
    var r := Reverse(s);
    forall i | 0 <= i < |r| - 1 ensures !Less(r[i], r[i + 1]) {
      assert r[i] == s[|s| - 1 - i] && r[i + 1] == s[|s| - 2 - i];
    }
  }

  /** The head of an ascending sequence is not after any of its elements. */
  lemma {:induction false} AscendingHeadLeast(s: seq<string>, y: string)
    requires Ascending(s) && y in s
    ensures !Less(y, s[0])
    decreases |s|
  {
    if y == s[0] {
      LessIrreflexive(y);
    } else {
      assert y in s[1..];
      AscendingHeadLeast(s[1..], y);
      NotLessTransitive(s[0], s[1], y);
    }
  }

  /** There is only one ascending arrangement of a multiset of strings. */
  lemma {:induction false} AscendingUnique(a: seq<string>, b: seq<string>)
    requires Ascending(a) && Ascending(b) && multiset(a) == multiset(b)
    ensures a == b
    decreases |a|
  {
    if a != [] {
      SameHead(a, b);
      SameTailContents(a, b);
      AscendingTail(a);
      AscendingTail(b);
      AscendingUnique(a[1..], b[1..]);
    } else {
      assert |multiset(b)| == 0;
    }
  }

  lemma AscendingTail(s: seq<string>)
    requires Ascending(s) && s != []
    ensures Ascending(s[1..])
  {
    forall i | 0 <= i < |s| - 2 ensures !Less(s[1..][i + 1], s[1..][i]) {
      assert s[1..][i] == s[i + 1] && s[1..][i + 1] == s[i + 2];
    }
  }

  /** Two ascending arrangements of one multiset start with the same element. */
  lemma SameHead(a: seq<string>, b: seq<string>)
    requires Ascending(a) && Ascending(b) && multiset(a) == multiset(b) && a != []
    ensures b != [] && a[0] == b[0]
  {
    assert a[0] in multiset(b);
    assert b[0] in multiset(a);
    AscendingHeadLeast(a, b[0]);
    AscendingHeadLeast(b, a[0]);
    if a[0] != b[0] {
      LessTotal(a[0], b[0]);
    }
  }

  lemma SameTailContents(a: seq<string>, b: seq<string>)
    requires multiset(a) == multiset(b) && a != [] && b != [] && a[0] == b[0]
    ensures multiset(a[1..]) == multiset(b[1..])
  {
    assert a == [a[0]] + a[1..] && b == [b[0]] + b[1..];
    assert multiset(a[1..]) == multiset(a) - multiset{a[0]};
    assert multiset(b[1..]) == multiset(b) - multiset{b[0]};
  }

  /** A descending sequence without repetitions is strictly descending. */
  lemma DistinctDescending(s: seq<string>)
    requires Descending(s) && Distinct(s)
    ensures StrictlyDescending(s)
  {
    forall i | 0 <= i < |s| - 1 ensures Less(s[i + 1], s[i]) {
      AdjacentDiffer(s, i);
      LessTotal(s[i], s[i + 1]);
    }
  }

  lemma AdjacentDiffer(s: seq<string>, i: nat)
    requires Distinct(s) && i + 1 < |s|
    ensures s[i] != s[i + 1]
  {
    var pair := [s[i], s[i + 1]];
    assert s == s[..i] + pair + s[i + 2..];
    assert multiset(s)[s[i]] >= multiset(pair)[s[i]];
  }

  /** The head of a strictly descending sequence is after every other element. */
  lemma {:induction false} DescendingHeadGreatest(s: seq<string>, y: string)
    requires StrictlyDescending(s) && y in s
    ensures y == s[0] || Less(y, s[0])
    decreases |s|
  {
    if y != s[0] {
      assert y in s[1..];
      DescendingHeadGreatest(s[1..], y);
      if y != s[1] {
        LessTransitive(y, s[1], s[0]);
      }
    }
  }

  /** A strictly descending sequence is fixed by the elements it holds. */
  lemma {:induction false} StrictlyDescendingUnique(a: seq<string>, b: seq<string>)
    requires StrictlyDescending(a) && StrictlyDescending(b)
    requires forall f :: f in a <==> f in b
    ensures a == b
    decreases |a|
  {
    if a != [] {
      assert a[0] in a;
    }
    if b != [] {
      assert b[0] in b;
    }
    if a != [] && b != [] {
      DescendingHeadGreatest(a, b[0]);
      DescendingHeadGreatest(b, a[0]);
      if a[0] != b[0] {
        LessAsymmetric(a[0], b[0]);
      }
      HeadNotInTail(a);
      HeadNotInTail(b);
      forall f ensures f in a[1..] <==> f in b[1..] {
        assert f in a <==> f == a[0] || f in a[1..];
        assert f in b <==> f == b[0] || f in b[1..];
      }
      StrictlyDescendingUnique(a[1..], b[1..]);
      assert a == [a[0]] + a[1..] && b == [b[0]] + b[1..];
    }
  }

  lemma HeadNotInTail(s: seq<string>)
    requires StrictlyDescending(s) && s != []
    ensures s[0] !in s[1..]
  {
    if |s| > 1 {
      StrictTail(s);
      if s[0] in s[1..] {
        DescendingHeadGreatest(s[1..], s[0]);
        LessIrreflexive(s[0]);
        if s[0] != s[1] {
          LessAsymmetric(s[1], s[0]);
        }
      }
    }
  }

  lemma StrictTail(s: seq<string>)
    requires StrictlyDescending(s) && s != []
    ensures StrictlyDescending(s[1..])
  {
    forall i | 0 <= i < |s| - 2 ensures Less(s[1..][i + 1], s[1..][i]) {
      assert s[1..][i] == s[i + 1] && s[1..][i + 1] == s[i + 2];
    }
  }
}
