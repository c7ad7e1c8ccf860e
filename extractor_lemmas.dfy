/**
 * Properties of the quantity extractor: the leftmost, shortest-capture rule
 * determines the `matchAll` result uniquely; a transcript yields no record
 * exactly when no digit directly before `個` follows a character `.` accepts;
 * a transcript made of `<phrase><digits>個` groups yields one record per group,
 * in order; and the worked examples.
 */
module ExtractorLemmas {
  import opened Extractor

  // ---------------------------------------------------------------------------
  // Uniqueness: the declarative rule leaves no choice
  // ---------------------------------------------------------------------------

  /** At a given position the digit group before `個` has only one possible length. */
  lemma QuantityUnique(t: string, p: nat, d1: nat, d2: nat)
    requires QuantityAt(t, p, d1) && QuantityAt(t, p, d2)
    ensures d1 == d2
  {
  }

  /** Two matches that both satisfy the leftmost, shortest-capture rule are the same. */
  lemma FirstMatchUnique(t: string, lastIndex: nat, m1: Match, m2: Match)
    requires IsFirstMatchFrom(t, lastIndex, m1) && IsFirstMatchFrom(t, lastIndex, m2)
    ensures m1 == m2
  {
    QuantityUnique(t, m1.DigitsAt(), m1.digits, m2.digits);
  }

  /** Dropping the first match of a `matchAll` result leaves the result from its end. */
  lemma MatchAllTail(t: string, lastIndex: nat, ms: seq<Match>)
    requires IsMatchAllFrom(t, lastIndex, ms) && ms != []
    ensures IsMatchAllFrom(t, ms[0].End(), ms[1..])
  {
    if |ms| > 1 {
      assert IsFirstMatchFrom(t, ms[0].End(), ms[1]);
    }
  }

  /** The leftmost, shortest-capture rule determines the whole `matchAll` result. */
  lemma {:induction false} MatchAllUnique(t: string, lastIndex: nat, a: seq<Match>, b: seq<Match>)
    requires IsMatchAllFrom(t, lastIndex, a) && IsMatchAllFrom(t, lastIndex, b)
    ensures a == b
    decreases |a|
  {
    if a != [] && b != [] {
      assert IsFirstMatchFrom(t, lastIndex, a[0]) && IsFirstMatchFrom(t, lastIndex, b[0]);
      FirstMatchUnique(t, lastIndex, a[0], b[0]);
      MatchAllTail(t, lastIndex, a);
      MatchAllTail(t, lastIndex, b);
      MatchAllUnique(t, a[0].End(), a[1..], b[1..]);
      assert a == [a[0]] + a[1..] && b == [b[0]] + b[1..];
    }
  }

  // ---------------------------------------------------------------------------
  // Matching after a prefix: positions shift, nothing else changes
  // ---------------------------------------------------------------------------

  /** The matches come in text order and never overlap: each one ends before any later
      one begins. */
  lemma MatchesInOrder(t: string, lastIndex: nat)
    ensures var ms := MatchAll(t, lastIndex);
      forall i, j :: 0 <= i < j < |ms| ==> ms[i].End() <= ms[j].start
  {
    OrderedMatches(t, lastIndex, MatchAll(t, lastIndex));
  }

  lemma {:induction false} OrderedMatches(t: string, lastIndex: nat, ms: seq<Match>)
    requires IsMatchAllFrom(t, lastIndex, ms)
    ensures forall i, j :: 0 <= i < j < |ms| ==> ms[i].End() <= ms[j].start
    decreases |ms|
  {
    if ms != [] {
      var rest := ms[1..];
      MatchAllTail(t, lastIndex, ms);
      OrderedMatches(t, ms[0].End(), rest);
      forall i, j | 0 <= i < j < |ms| ensures ms[i].End() <= ms[j].start {
        assert ms[j] == rest[j - 1];
        if i > 0 {
          assert ms[i] == rest[i - 1];
        } else if j > 1 {
          assert rest[0].End() <= rest[j - 1].start;
        }
      }
    }
  }

  /** `m` moved `n` positions to the right. */
  function ShiftMatch(m: Match, n: nat): Match {
    Match(m.start + n, m.capLen, m.digits)
  }

  ghost function Shift(ms: seq<Match>, n: nat): seq<Match> {
    seq(|ms|, i requires 0 <= i < |ms| => ShiftMatch(ms[i], n))
  }

  /** Behind a prefix `g`, the pattern matches exactly where it matches in `r`. */
  lemma MatchesAfterPrefix(g: string, r: string, s: nat, k: nat, d: nat)
    ensures MatchesWith(g + r, |g| + s, k, d) <==> MatchesWith(r, s, k, d)
  {
    var t := g + r;
    if s + k + d < |r| {
      assert forall i :: s <= i < s + k + d + 1 ==> t[|g| + i] == r[i];
      assert NoLineTerminator(t, |g| + s, |g| + s + k) <==> NoLineTerminator(r, s, s + k) by {
        if NoLineTerminator(r, s, s + k) {
          forall i | |g| + s <= i < |g| + s + k ensures !IsLineTerminator(t[i]) {
            assert t[i] == r[i - |g|];
          }
        }
      }
      assert AllDigits(t, |g| + s + k, |g| + s + k + d) <==> AllDigits(r, s + k, s + k + d) by {
        if AllDigits(r, s + k, s + k + d) {
          forall i | |g| + s + k <= i < |g| + s + k + d ensures IsDigit(t[i]) {
            assert t[i] == r[i - |g|];
          }
        }
      }
    }
  }

  lemma NoMatchAfterPrefix(g: string, r: string, lo: nat, hi: nat)
    requires NoMatchBetween(r, lo, hi)
    ensures NoMatchBetween(g + r, |g| + lo, |g| + hi)
  {
    var t := g + r;
    if !NoMatchBetween(t, |g| + lo, |g| + hi) {
      var s, k, d :| |g| + lo <= s < |g| + hi && MatchesWith(t, s, k, d);
      MatchesAfterPrefix(g, r, s - |g|, k, d);
    }
  }

  lemma FirstMatchAfterPrefix(g: string, r: string, lastIndex: nat, m: Match)
    requires IsFirstMatchFrom(r, lastIndex, m)
    ensures IsFirstMatchFrom(g + r, |g| + lastIndex, ShiftMatch(m, |g|))
  {
    MatchesAfterPrefix(g, r, m.start, m.capLen, m.digits);
    var t, start := g + r, |g| + m.start;
    forall k, d | 1 <= k < m.capLen ensures !MatchesWith(t, start, k, d) {
      MatchesAfterPrefix(g, r, m.start, k, d);
    }
    NoMatchAfterPrefix(g, r, lastIndex, m.start);
  }

  /** `matchAll` started behind a prefix finds the matches of the rest, shifted. */
  lemma MatchAllAfterPrefix(g: string, r: string, lastIndex: nat, ms: seq<Match>)
    requires IsMatchAllFrom(r, lastIndex, ms)
    ensures IsMatchAllFrom(g + r, |g| + lastIndex, Shift(ms, |g|))
  {
    var sh := Shift(ms, |g|);
    if ms != [] {
      FirstMatchAfterPrefix(g, r, lastIndex, ms[0]);
      NoMatchAfterPrefix(g, r, ms[|ms| - 1].End(), |r|);
    } else {
      NoMatchAfterPrefix(g, r, lastIndex, |r|);
    }
    forall i | 0 <= i < |sh| - 1 ensures IsFirstMatchFrom(g + r, sh[i].End(), sh[i + 1]) {
      FirstMatchAfterPrefix(g, r, ms[i].End(), ms[i + 1]);
    }
  }

  // ---------------------------------------------------------------------------
  // Transcripts made of `<phrase><digits>個` groups
  // ---------------------------------------------------------------------------

  /** Every character of `p` from index `k` on is an ASCII digit. */
  ghost predicate DigitsFrom(p: string, k: nat)
    requires k <= |p|
  {
    forall i :: k <= i < |p| ==> IsDigit(p[i])
  }

  /** `phrase + digits + "個"` is a group the lazy capture reads as one record: the phrase
      is non-empty, holds no line terminator and no `個`, the digit group has one to four
      ASCII digits, and no shorter capture could be followed by at most four digits and `個`
      (the digits the phrase ends with, together with the group's, are more than four). */
  ghost predicate IsGroup(phrase: string, digits: string) {
    && 1 <= |phrase|
    && (forall i :: 0 <= i < |phrase| ==> !IsLineTerminator(phrase[i]) && phrase[i] != Unit)
    && 1 <= |digits| <= 4
    && (forall i :: 0 <= i < |digits| ==> IsDigit(digits[i]))
    && forall k :: 1 <= k < |phrase| && DigitsFrom(phrase, k) ==> |phrase| - k + |digits| > 4
  }

  /** Where the phrase, the digits and `個` of a leading group sit in the transcript. */
  lemma GroupLayout(phrase: string, digits: string, rest: string)
    requires IsGroup(phrase, digits)
    ensures var t, p, n := phrase + digits + [Unit] + rest, |phrase|, |digits|;
      && t[..p] == phrase && t[p..p + n] == digits
      && MatchesWith(t, 0, p, n)
  {
    var t := phrase + digits + [Unit] + rest;
    var p, n := |phrase|, |digits|;
    assert forall i :: 0 <= i < p ==> t[i] == phrase[i];
    assert forall i :: 0 <= i < n ==> t[p + i] == digits[i];
    assert t[p + n] == Unit;
    assert AllDigits(t, p, p + n) by {
      forall i | p <= i < p + n ensures IsDigit(t[i]) {
        assert t[i] == digits[i - p];
      }
    }
  }

  /** A transcript that starts with a group: the first match is exactly that group. */
  lemma GroupIsFirstMatch(phrase: string, digits: string, rest: string)
    requires IsGroup(phrase, digits)
    ensures IsFirstMatchFrom(phrase + digits + [Unit] + rest, 0, Match(0, |phrase|, |digits|))
  {
    var t := phrase + digits + [Unit] + rest;
    var p := |phrase|;
    GroupLayout(phrase, digits, rest);
    forall k, d | 1 <= k < p ensures !MatchesWith(t, 0, k, d) {
      assert forall i :: k <= i < p ==> t[i] == t[..p][i];
      assert DigitsFrom(phrase, k) <==> AllDigits(t, k, p);
    }
  }

  /** The matches of a transcript that starts with a group. */
  lemma GroupThenRestMatches(phrase: string, digits: string, rest: string)
    requires IsGroup(phrase, digits)
    ensures var g := phrase + digits + [Unit];
      MatchAll(g + rest, 0) == [Match(0, |phrase|, |digits|)] + Shift(MatchAll(rest, 0), |g|)
  {
    var g := phrase + digits + [Unit];
    var t := g + rest;
    var m := Match(0, |phrase|, |digits|);
    GroupIsFirstMatch(phrase, digits, rest);
    assert MatchesWith(t, 0, m.capLen, m.digits);
    var e := Exec(t, 0);
    FirstMatchUnique(t, 0, e.value, m);
    assert m.End() == |g|;
    assert MatchAll(t, 0) == [m] + MatchAll(t, |g|);
    var later := MatchAll(rest, 0);
    MatchAllAfterPrefix(g, rest, 0, later);
    MatchAllUnique(t, |g|, MatchAll(t, |g|), Shift(later, |g|));
    assert MatchAll(t, |g|) == Shift(later, |g|);
    assert |g| == |phrase| + |digits| + 1;
    assert MatchAll(t, 0) == [m] + Shift(later, |g|);
  }

  /** A match behind a prefix yields the record it yields without the prefix. */
  lemma RecordAfterPrefix(g: string, r: string, m: Match)
    requires MatchesWith(r, m.start, m.capLen, m.digits)
    ensures MatchesWith(g + r, |g| + m.start, m.capLen, m.digits)
    ensures ToRecord(g + r, ShiftMatch(m, |g|)) == ToRecord(r, m)
  {
    var t, sm := g + r, ShiftMatch(m, |g|);
    MatchesAfterPrefix(g, r, m.start, m.capLen, m.digits);
    var capture, digits := r[m.start..m.DigitsAt()], r[m.DigitsAt()..m.UnitAt()];
    assert t[sm.start..sm.DigitsAt()] == capture by {
      assert sm.start == |g| + m.start && sm.DigitsAt() == |g| + m.DigitsAt();
      SliceAfterPrefix(g, r, m.start, m.DigitsAt());
    }
    assert t[sm.DigitsAt()..sm.UnitAt()] == digits by {
      assert sm.DigitsAt() == |g| + m.DigitsAt() && sm.UnitAt() == |g| + m.UnitAt();
      SliceAfterPrefix(g, r, m.DigitsAt(), m.UnitAt());
    }
    assert ToRecord(t, sm) == RecordOf(capture, digits);
  }

  lemma SliceAfterPrefix<T>(g: seq<T>, r: seq<T>, lo: nat, hi: nat)
    requires lo <= hi <= |r|
    ensures (g + r)[|g| + lo..|g| + hi] == r[lo..hi]
  {
  }

  /** A group followed by anything: its record comes first, then the records of the rest,
      exactly as if the rest stood alone. */
  lemma GroupThenRest(phrase: string, digits: string, rest: string)
    requires IsGroup(phrase, digits)
    ensures var g := phrase + digits + [Unit];
      Extract(g + rest) == [RecordOf(phrase, digits)] + Extract(rest)
  {
    var g := phrase + digits + [Unit];
    var t := g + rest;
    GroupThenRestMatches(phrase, digits, rest);
    RecordsAfterFirst(g, rest, Match(0, |phrase|, |digits|));
    GroupRecordAtStart(phrase, digits, rest);
    ExtractHead(t, Match(0, |phrase|, |digits|));
    HeadTail(Extract(t));
  }

  /** The first record is the record of the first match. */
  lemma ExtractHead(t: string, m: Match)
    requires MatchAll(t, 0) != [] && MatchAll(t, 0)[0] == m
    ensures MatchesWith(t, m.start, m.capLen, m.digits)
    ensures Extract(t) != [] && Extract(t)[0] == ToRecord(t, m)
  {
  }

  lemma HeadTail<T>(xs: seq<T>)
    requires xs != []
    ensures xs == [xs[0]] + xs[1..]
  {
  }

  /** The record of a match on a leading group is the group's record. */
  lemma GroupRecordAtStart(phrase: string, digits: string, rest: string)
    requires IsGroup(phrase, digits)
    ensures var t := phrase + digits + [Unit] + rest;
      MatchesWith(t, 0, |phrase|, |digits|)
      && ToRecord(t, Match(0, |phrase|, |digits|)) == RecordOf(phrase, digits)
  {
    GroupLayout(phrase, digits, rest);
  }

  /** When the matches behind a prefix are those of the rest, shifted, the records after
      the first are those of the rest. */
  lemma RecordsAfterFirst(g: string, rest: string, m: Match)
    requires MatchAll(g + rest, 0) == [m] + Shift(MatchAll(rest, 0), |g|)
    ensures |Extract(g + rest)| == |Extract(rest)| + 1
    ensures Extract(g + rest)[1..] == Extract(rest)
  {
    var xs, ys := Extract(g + rest), Extract(rest);
    forall i | 0 <= i < |ys| ensures xs[i + 1] == ys[i] {
      ShiftedRecord(g, rest, m, i);
    }
  }

  lemma ShiftedRecord(g: string, rest: string, m: Match, i: nat)
    requires MatchAll(g + rest, 0) == [m] + Shift(MatchAll(rest, 0), |g|)
    requires i < |MatchAll(rest, 0)|
    ensures Extract(g + rest)[i + 1] == Extract(rest)[i]
  {
    var later := MatchAll(rest, 0);
    assert MatchAll(g + rest, 0)[i + 1] == ShiftMatch(later[i], |g|);
    RecordAfterPrefix(g, rest, later[i]);
  }

  /** One `<phrase><digits>個` group of a transcript. */
  datatype Group = Group(phrase: string, digits: string)

  ghost predicate AllGroups(gs: seq<Group>) {
    forall i :: 0 <= i < |gs| ==> IsGroup(gs[i].phrase, gs[i].digits)
  }

  /** The transcript the groups spell out, one after the other. */
  ghost function Render(gs: seq<Group>): string {
    if gs == [] then [] else gs[0].phrase + gs[0].digits + [Unit] + Render(gs[1..])
  }

  /** The records the groups stand for, in order. */
  ghost function Records(gs: seq<Group>): seq<Record>
    requires AllGroups(gs)
  {
    if gs == [] then [] else [RecordOf(gs[0].phrase, gs[0].digits)] + Records(gs[1..])
  }

  /** A transcript of N groups followed by anything yields the N records in order, then
      the records of what follows. */
  lemma {:induction false} GroupsThenRest(gs: seq<Group>, rest: string)
    requires AllGroups(gs)
    ensures Extract(Render(gs) + rest) == Records(gs) + Extract(rest)
    decreases |gs|
  {
    if gs == [] {
      assert Render(gs) + rest == rest;
    } else {
      var tail := Render(gs[1..]) + rest;
      RenderFirst(gs, rest);
      GroupThenRest(gs[0].phrase, gs[0].digits, tail);
      AllGroupsTail(gs);
      GroupsThenRest(gs[1..], rest);
      ConcatAssoc([RecordOf(gs[0].phrase, gs[0].digits)], Records(gs[1..]), Extract(rest));
    }
  }

  lemma AllGroupsTail(gs: seq<Group>)
    requires AllGroups(gs) && gs != []
    ensures AllGroups(gs[1..])
  {
    forall i | 0 <= i < |gs[1..]| ensures IsGroup(gs[1..][i].phrase, gs[1..][i].digits) {
      assert gs[1..][i] == gs[i + 1];
    }
  }

  lemma RenderFirst(gs: seq<Group>, rest: string)
    requires gs != []
    ensures Render(gs) + rest == (gs[0].phrase + gs[0].digits + [Unit]) + (Render(gs[1..]) + rest)
  {
  }

  lemma ConcatAssoc<T>(a: seq<T>, b: seq<T>, c: seq<T>)
    ensures a + (b + c) == (a + b) + c
  {
  }

  /** The empty transcript yields no record. */
  lemma ExtractEmpty()
    ensures Extract([]) == []
  {
    assert MatchAll([], 0) == [];
  }

  /** A transcript made only of well-formed groups yields exactly one record per group. */
  lemma OneRecordPerGroup(gs: seq<Group>)
    requires AllGroups(gs)
    ensures Extract(Render(gs)) == Records(gs)
  {
    GroupsThenRest(gs, []);
    ExtractEmpty();
    assert Render(gs) + [] == Render(gs);
  }

  // ---------------------------------------------------------------------------
  // When nothing is extracted
  // ---------------------------------------------------------------------------

  /** Somewhere an ASCII digit directly precedes `個` and itself follows a character
      that `.` accepts. */
  ghost predicate HasQuantityMark(t: string) {
    exists j :: 1 <= j && j + 1 < |t| && !IsLineTerminator(t[j - 1]) && IsDigit(t[j]) && t[j + 1] == Unit
  }

  /** The transcript yields no record exactly when it has no such digit. */
  lemma ExtractEmptyIff(t: string)
    ensures Extract(t) == [] <==> !HasQuantityMark(t)
  {
    var ms := MatchAll(t, 0);
    if ms == [] {
      if HasQuantityMark(t) {
        var j :| 1 <= j && j + 1 < |t| && !IsLineTerminator(t[j - 1]) && IsDigit(t[j]) && t[j + 1] == Unit;
        assert MatchesWith(t, j - 1, 1, 1);
      }
    } else {
      var m := ms[0];
      var j := m.UnitAt() - 1;
      assert IsDigit(t[j]) && t[j + 1] == Unit;
      assert !IsLineTerminator(t[j - 1]) by {
        if m.digits == 1 {
          assert j - 1 == m.start + m.capLen - 1;
        } else {
          assert IsDigit(t[j - 1]);
        }
      }
    }
  }

  // ---------------------------------------------------------------------------
  // Stripping and trimming leave clean text alone
  // ---------------------------------------------------------------------------

  /** Removing the glyphs changes nothing in a text that has none of them. */
  lemma {:induction false} StripGlyphsIdentity(s: string)
    requires NoGlyph(s)
    ensures StripGlyphs(s) == s
  {
    if s != [] {
      StripGlyphsIdentity(s[1..]);
    }
  }

  /** Removing the glyphs twice is removing them once. */
  lemma StripGlyphsIdempotent(s: string)
    ensures StripGlyphs(StripGlyphs(s)) == StripGlyphs(s)
  {
    StripGlyphsIdentity(StripGlyphs(s));
  }

  /** Removing the glyphs keeps every other character and only those. */
  lemma {:induction false} StripGlyphsKeeps(s: string)
    ensures forall c :: c in StripGlyphs(s) <==> c in s && !IsStripped(c)
  {
    if s != [] {
      StripGlyphsKeeps(s[1..]);
      assert s == [s[0]] + s[1..];
    }
  }

  /** Removing the glyphs works piece by piece, so the kept characters stay in order. */
  lemma {:induction false} StripGlyphsAppend(a: string, b: string)
    ensures StripGlyphs(a + b) == StripGlyphs(a) + StripGlyphs(b)
  {
    if a == [] {
      assert a + b == b;
    } else {
      assert (a + b)[0] == a[0] && (a + b)[1..] == a[1..] + b;
      StripGlyphsAppend(a[1..], b);
    }
  }

  /** Trimming changes nothing in a text that neither starts nor ends with white space. */
  lemma TrimIdentity(s: string)
    requires IsTrimmed(s)
    ensures Trim(s) == s
  {
  }

  /** Trimming only removes white space, and only at both ends. */
  lemma TrimDropsSpaces(s: string)
    ensures exists lo, hi ::
      (&& 0 <= lo <= hi <= |s| && Trim(s) == s[lo..hi]
       && (forall i :: 0 <= i < lo ==> IsSpace(s[i]))
       && (forall i :: hi <= i < |s| ==> IsSpace(s[i])))
  {
    var lo := LeadingSpaces(s);
    var hi := TrailingFrom(s, lo);
    assert Trim(s) == s[lo..hi];
  }

  /** Trimming twice is trimming once. */
  lemma TrimIdempotent(s: string)
    ensures Trim(Trim(s)) == Trim(s)
  {
    TrimIdentity(Trim(s));
  }
}
