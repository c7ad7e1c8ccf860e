/**
 * The names of saved files: how `/save` derives one from the time of the
 * request, which names `/history` lists, and the order it lists them in.
 */
module SavedFiles {
  import opened TextOrder

  const Prefix: string := "saved-"
  const Suffix: string := ".json"

  /** `f.startsWith("saved-") && f.endsWith(".json")`. */
  predicate IsSavedName(f: string) {
    && |f| >= |Prefix| && f[..|Prefix|] == Prefix
    && |f| >= |Suffix| && f[|f| - |Suffix|..] == Suffix
  }

  /** The characters `replace(/[:.]/g, "-")` replaces. */
  predicate IsSeparator(c: char) {
    c == ':' || c == '.'
  }

  /** `replace(/[:.]/g, "-")`: every `:` and `.` becomes `-`, nothing else changes. */
  function Dashed(s: string): (r: string)
    ensures |r| == |s|
    ensures forall i :: 0 <= i < |s| ==>
      && !IsSeparator(r[i])
      && (IsSeparator(s[i]) ==> r[i] == '-')
      && (!IsSeparator(s[i]) ==> r[i] == s[i])
  {
    if s == [] then []
    else [if IsSeparator(s[0]) then '-' else s[0]] + Dashed(s[1..])
  }

  /** The file name `/save` writes to: `saved-${timestamp}.json`, where `timestamp` is
      the ISO time of the request with `:` and `.` replaced by `-`. */
  function SavedName(iso: string): (name: string)
    ensures IsSavedName(name)
    ensures ':' !in name
    ensures |name| == |Prefix| + |iso| + |Suffix|
  {
    var stamp := Dashed(iso);
    NameParts(stamp);
    Prefix + stamp + Suffix
  }

  lemma NameParts(stamp: string)
    requires forall i :: 0 <= i < |stamp| ==> !IsSeparator(stamp[i])
    ensures var name := Prefix + stamp + Suffix;
      IsSavedName(name) && ':' !in name
  {
    var name := Prefix + stamp + Suffix;
    assert name[..|Prefix|] == Prefix;
    assert name[|name| - |Suffix|..] == Suffix;
    assert ':' !in stamp;
    assert ':' !in Prefix && ':' !in Suffix;
  }

  // ---------------------------------------------------------------------------
  // Timestamps and the order of saved names
  // ---------------------------------------------------------------------------

  /** The layout of `Date.prototype.toISOString()` for the years 0 to 9999; `0` stands
      for any ASCII digit. */
  const IsoLayout: string := "0000-00-00T00:00:00.000Z"

  /** `s` is what `toISOString()` returns, e.g. `2024-05-01T09:30:15.250Z`. */
  ghost predicate IsIsoTimestamp(s: string) {
    |s| == |IsoLayout| &&
    forall i :: 0 <= i < |s| ==>
      if IsoLayout[i] == '0' then '0' <= s[i] <= '9' else s[i] == IsoLayout[i]
  }

  /** `a` and `b` have the same length and the same `:` and `.` in the same places. */
  ghost predicate SameShape(a: string, b: string) {
    |a| == |b| &&
    forall i :: 0 <= i < |a| ==> (IsSeparator(a[i]) || IsSeparator(b[i]) ==> a[i] == b[i])
  }

  lemma IsoSameShape(a: string, b: string)
    requires IsIsoTimestamp(a) && IsIsoTimestamp(b)
    ensures SameShape(a, b)
  {
    forall i | 0 <= i < |a| && (IsSeparator(a[i]) || IsSeparator(b[i])) ensures a[i] == b[i] {
      assert IsoLayout[i] != '0';
    }
  }

  /** Replacing the separators of two same-shaped strings keeps their order. */
  lemma {:induction false} DashedKeepsOrder(a: string, b: string)
    requires SameShape(a, b)
    ensures Less(Dashed(a), Dashed(b)) <==> Less(a, b)
  {
    if a != [] {
      var da, db := Dashed(a), Dashed(b);
      assert da[0] == (if IsSeparator(a[0]) then '-' else a[0]);
      assert db[0] == (if IsSeparator(b[0]) then '-' else b[0]);
      assert da[1..] == Dashed(a[1..]) && db[1..] == Dashed(b[1..]);
      assert SameShape(a[1..], b[1..]) by {
        assert forall i :: 0 <= i < |a| - 1 ==> a[1..][i] == a[i + 1] && b[1..][i] == b[i + 1];
      }
      DashedKeepsOrder(a[1..], b[1..]);
    }
  }

  /** A common prefix does not change the order. */
  lemma {:induction false} PrefixKeepsOrder(p: string, x: string, y: string)
    ensures Less(p + x, p + y) <==> Less(x, y)
  {
    if p != [] {
      assert (p + x)[0] == (p + y)[0];
      assert (p + x)[1..] == p[1..] + x && (p + y)[1..] == p[1..] + y;
      PrefixKeepsOrder(p[1..], x, y);
    } else {
      assert p + x == x && p + y == y;
    }
  }

  /** A common suffix does not change the order of two strings of the same length. */
  lemma {:induction false} SuffixKeepsOrder(x: string, y: string, q: string)
    requires |x| == |y|
    ensures Less(x + q, y + q) <==> Less(x, y)
  {
    if x == [] {
      assert x + q == q && y + q == q;
      LessIrreflexive(q);
    } else {
      assert (x + q)[0] == x[0] && (y + q)[0] == y[0];
      assert (x + q)[1..] == x[1..] + q && (y + q)[1..] == y[1..] + q;
      SuffixKeepsOrder(x[1..], y[1..], q);
    }
  }

  /** The file of a later save sorts after the file of an earlier one: ISO timestamps of
      one shape sort in time order, and the name keeps their order. */
  lemma SavedNameKeepsOrder(a: string, b: string)
    requires IsIsoTimestamp(a) && IsIsoTimestamp(b)
    ensures Less(SavedName(a), SavedName(b)) <==> Less(a, b)
  {
    IsoSameShape(a, b);
    DashedKeepsOrder(a, b);
    SuffixKeepsOrder(Prefix + Dashed(a), Prefix + Dashed(b), Suffix);
    PrefixKeepsOrder(Prefix, Dashed(a), Dashed(b));
  }

  /** Different timestamps give different files; only saves at the same millisecond
      share one. */
  lemma SavedNameInjective(a: string, b: string)
    requires IsIsoTimestamp(a) && IsIsoTimestamp(b) && a != b
    ensures SavedName(a) != SavedName(b)
  {
    LessTotal(a, b);
    SavedNameKeepsOrder(a, b);
    SavedNameKeepsOrder(b, a);
    LessIrreflexive(SavedName(a));
  }

  // ---------------------------------------------------------------------------
  // The `/history` listing
  // ---------------------------------------------------------------------------

  /** `.filter((f) => f.startsWith("saved-") && f.endsWith(".json"))`. */
  function SavedOnly(listing: seq<string>): (r: seq<string>)
    ensures forall f :: multiset(r)[f] == if IsSavedName(f) then multiset(listing)[f] else 0
  {
    if listing == [] then []
    else
      assert listing == [listing[0]] + listing[1..];
      (if IsSavedName(listing[0]) then [listing[0]] else []) + SavedOnly(listing[1..])
  }

  /** `.filter(...).sort().reverse()` applied to a directory listing. */
  function NewestFirst(listing: seq<string>): (r: seq<string>)
    ensures Descending(r)
    ensures forall f :: multiset(r)[f] == if IsSavedName(f) then multiset(listing)[f] else 0
  {
    var sorted := SortAscending(SavedOnly(listing));
    ReverseAscending(sorted);
    ReversePermutes(sorted);
    Reverse(sorted)
  }

  /** The listing of a directory holds each name once, so the history does too, in
      strictly descending order, and holds exactly the saved names of the listing. */
  lemma NewestFirstOfDirectory(listing: seq<string>)
    requires Distinct(listing)
    ensures StrictlyDescending(NewestFirst(listing))
    ensures forall f :: f in NewestFirst(listing) <==> f in listing && IsSavedName(f)
  {
    var r := NewestFirst(listing);
    assert Distinct(r) by {
      forall f ensures multiset(r)[f] <= 1 {
        assert multiset(listing)[f] <= 1;
      }
    }
    DistinctDescending(r);
    forall f ensures f in r <==> f in listing && IsSavedName(f) {
      assert f in r <==> multiset(r)[f] > 0;
      assert f in listing <==> multiset(listing)[f] > 0;
    }
  }

  /** The order in which the directory lists its files does not matter. */
  lemma NewestFirstOrderFree(l1: seq<string>, l2: seq<string>)
    requires multiset(l1) == multiset(l2)
    ensures NewestFirst(l1) == NewestFirst(l2)
  {
    var f1, f2 := SavedOnly(l1), SavedOnly(l2);
    assert multiset(f1) == multiset(f2) by {
      forall f ensures multiset(f1)[f] == multiset(f2)[f] {
        assert multiset(l1)[f] == multiset(l2)[f];
      }
    }
    AscendingUnique(SortAscending(f1), SortAscending(f2));
  }
}
