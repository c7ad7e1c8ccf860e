/**
 * The quantity extractor of the `/transcribe` handler: every match of the
 * global pattern `(.+?)(\d{1,4})個` in the transcript becomes one record whose
 * item is the first group with the glyphs 、。・ removed and then trimmed, and
 * whose quantity is the second group read as a base-10 integer.
 *
 * The pattern is run by an explicit backtracking matcher that follows the
 * ECMAScript RegExp semantics for this pattern (section 22.2 of ECMA-262):
 * start positions are tried from left to right, the lazy group grows one
 * character at a time, `\d{1,4}` is greedy and backtracks, and after each match
 * the scan resumes just after the unit marker. Each stage is proved against a
 * declarative description of what a leftmost, shortest-capture match is.
 */
module Extractor {
  import opened Wrappers

  /** The unit marker 個 (U+500B) that closes every quantity. */
  const Unit: char := '\U{500B}'

  /** The characters the regular expression `.` refuses (LineTerminator). */
  predicate IsLineTerminator(c: char) {
    c == '\n' || c == '\r' || c == '\U{2028}' || c == '\U{2029}'
  }

  /** `\d` without the unicode flag: ASCII digits only. */
  predicate IsDigit(c: char) {
    '0' <= c <= '9'
  }

  /** The glyphs removed by `replace(/[、。・]/g, "")`. */
  predicate IsStripped(c: char) {
    c == '\U{3001}' || c == '\U{3002}' || c == '\U{30FB}'
  }

  /** What `String.prototype.trim` removes: WhiteSpace and LineTerminator code points. */
  predicate IsSpace(c: char) {
    || c == '\t' || c == '\U{000B}' || c == '\U{000C}' || c == ' ' || c == '\U{00A0}'
    || c == '\U{FEFF}' || c == '\U{1680}' || ('\U{2000}' <= c <= '\U{200A}')
    || c == '\U{202F}' || c == '\U{205F}' || c == '\U{3000}'
    || IsLineTerminator(c)
  }

  /** One match: the capture `.+?` is `t[start..start + capLen]`, the digit group
      follows it with `digits` characters, and the unit marker comes last. */
  datatype Match = Match(start: nat, capLen: nat, digits: nat) {
    function DigitsAt(): nat { start + capLen }
    function UnitAt(): nat { start + capLen + digits }
    /** Where the global scan resumes (`lastIndex` after the match). */
    function End(): nat { start + capLen + digits + 1 }
  }

  /** One extracted `{item, quantity}` record. */
  datatype Record = Record(item: string, quantity: nat)

  // ---------------------------------------------------------------------------
  // Declarative description of the pattern's matches
  // ---------------------------------------------------------------------------

  ghost predicate AllDigits(t: string, lo: nat, hi: nat)
    requires lo <= hi <= |t|
  {
    forall i :: lo <= i < hi ==> IsDigit(t[i])
  }

  ghost predicate NoLineTerminator(t: string, lo: nat, hi: nat)
    requires lo <= hi <= |t|
  {
    forall i :: lo <= i < hi ==> !IsLineTerminator(t[i])
  }

  /** `(\d{1,4})個` matches at `p` with a digit group of `d` characters. */
  ghost predicate QuantityAt(t: string, p: nat, d: nat) {
    1 <= d <= 4 && p + d < |t| && AllDigits(t, p, p + d) && t[p + d] == Unit
  }

  /** The whole pattern matches at `s` with a capture of `k` characters and `d` digits. */
  ghost predicate MatchesWith(t: string, s: nat, k: nat, d: nat) {
    1 <= k && s + k <= |t| && NoLineTerminator(t, s, s + k) && QuantityAt(t, s + k, d)
  }

  /** `m` is a match whose capture is the shortest possible at its start. */
  ghost predicate IsLazyMatch(t: string, m: Match) {
    && MatchesWith(t, m.start, m.capLen, m.digits)
    && forall k, d :: 1 <= k < m.capLen ==> !MatchesWith(t, m.start, k, d)
  }

  /** No start position in `[lo, hi)` begins a match. */
  ghost predicate NoMatchBetween(t: string, lo: nat, hi: nat) {
    forall s, k, d :: lo <= s < hi ==> !MatchesWith(t, s, k, d)
  }

  /** `m` is what a search from `lastIndex` must find: the leftmost start, the shortest capture. */
  ghost predicate IsFirstMatchFrom(t: string, lastIndex: nat, m: Match) {
    lastIndex <= m.start && IsLazyMatch(t, m) && NoMatchBetween(t, lastIndex, m.start)
  }

  /** `ms` is the sequence `matchAll` must produce from `lastIndex`: each match is the
      first one at or after the end of the previous, and nothing matches after the last. */
  ghost predicate IsMatchAllFrom(t: string, lastIndex: nat, ms: seq<Match>) {
    && (ms != [] ==> IsFirstMatchFrom(t, lastIndex, ms[0]))
    && (forall i :: 0 <= i < |ms| - 1 ==> IsFirstMatchFrom(t, ms[i].End(), ms[i + 1]))
    && NoMatchBetween(t, if ms == [] then lastIndex else ms[|ms| - 1].End(), |t|)
  }

  // ---------------------------------------------------------------------------
  // The backtracking matcher
  // ---------------------------------------------------------------------------

  /** The greedy `\d{1,4}` first takes as many ASCII digits as it can, at most `max`. */
  function DigitRun(t: string, p: nat, max: nat): (n: nat)
    requires p <= |t|
    ensures n <= max && p + n <= |t|
    ensures AllDigits(t, p, p + n)
    ensures n < max && p + n < |t| ==> !IsDigit(t[p + n])
    decreases max
  {
    if max == 0 || p == |t| || !IsDigit(t[p]) then 0 else 1 + DigitRun(t, p + 1, max - 1)
  }

  /** Backtracking of `\d{1,4}` before `個`: try `j` digits, then `j - 1`, ... down to one. */
  function BacktrackDigits(t: string, p: nat, j: nat): (r: Option<nat>)
    requires j <= 4 && p + j <= |t| && AllDigits(t, p, p + j)
    ensures r.Some? ==> r.value <= j && QuantityAt(t, p, r.value)
    ensures r.None? ==> forall d :: 1 <= d <= j ==> !QuantityAt(t, p, d)
    decreases j
  {
    if j == 0 then None
    else if p + j < |t| && t[p + j] == Unit then Some(j)
    else BacktrackDigits(t, p, j - 1)
  }

  /** `(\d{1,4})個` at `p`: only the greedy digit count can ever be followed by `個`,
      because with fewer digits the next character is a digit. */
  function QuantityMatch(t: string, p: nat): (r: Option<nat>)
    requires p <= |t|
    ensures r.Some? ==> QuantityAt(t, p, r.value) && r.value == DigitRun(t, p, 4)
    ensures r.None? ==> forall d :: !QuantityAt(t, p, d)
  {
    var n := DigitRun(t, p, 4);
    var r := BacktrackDigits(t, p, n);
    r
  }

  /** The lazy `(.+?)` at `s` holding `k` characters: try the rest of the pattern and,
      if it fails, take one more character, which `.` refuses only for a line terminator. */
  function LazyCapture(t: string, s: nat, k: nat): (r: Option<Match>)
    requires 1 <= k && s + k <= |t| && NoLineTerminator(t, s, s + k)
    requires forall k', d :: 1 <= k' < k ==> !MatchesWith(t, s, k', d)
    ensures r.Some? ==> r.value.start == s && IsLazyMatch(t, r.value)
    ensures r.None? ==> forall k', d :: !MatchesWith(t, s, k', d)
    decreases |t| - k
  {
    match QuantityMatch(t, s + k)
    case Some(d) => Some(Match(s, k, d))
    case None =>
      if s + k < |t| && !IsLineTerminator(t[s + k]) then LazyCapture(t, s, k + 1) else None
  }

  /** The pattern tried at one start position. */
  function MatchAt(t: string, s: nat): (r: Option<Match>)
    ensures r.Some? ==> r.value.start == s && IsLazyMatch(t, r.value)
    ensures r.None? ==> forall k, d :: !MatchesWith(t, s, k, d)
  {
    if s < |t| && !IsLineTerminator(t[s]) then LazyCapture(t, s, 1) else None
  }

  /** One call of the global regular expression's exec from `lastIndex`: try every start
      position from `lastIndex` up to the length of the transcript. */
  function Exec(t: string, lastIndex: nat): (r: Option<Match>)
    ensures r.Some? ==> IsFirstMatchFrom(t, lastIndex, r.value)
    ensures r.None? ==> NoMatchBetween(t, lastIndex, |t|)
    decreases |t| + 1 - lastIndex
  {
    if lastIndex > |t| then None
    else
      match MatchAt(t, lastIndex)
      case Some(m) => Some(m)
      case None => Exec(t, lastIndex + 1)
  }

  /** `text.matchAll(re)`: matches in order, each search resuming after the previous match. */
  function MatchAll(t: string, lastIndex: nat): (ms: seq<Match>)
    ensures IsMatchAllFrom(t, lastIndex, ms)
    ensures forall i :: 0 <= i < |ms| ==> lastIndex <= ms[i].start && IsLazyMatch(t, ms[i])
    decreases |t| + 1 - lastIndex
  {
    match Exec(t, lastIndex)
    case None => []
    case Some(m) => [m] + MatchAll(t, m.End())
  }

  // ---------------------------------------------------------------------------
  // Turning a match into a record
  // ---------------------------------------------------------------------------

  /** No character of `s` is one of the glyphs the extractor removes. */
  ghost predicate NoGlyph(s: string) {
    forall i :: 0 <= i < |s| ==> !IsStripped(s[i])
  }

  /** `replace(/[、。・]/g, "")`; which characters it keeps is `StripGlyphsKeeps`. */
  function StripGlyphs(s: string): (r: string)
    ensures NoGlyph(r) && |r| <= |s|
  {
    if s == [] then []
    else (if IsStripped(s[0]) then [] else [s[0]]) + StripGlyphs(s[1..])
  }

  /** Number of leading characters `trim` removes. */
  function LeadingSpaces(s: string): (n: nat)
    ensures n <= |s|
    ensures forall i :: 0 <= i < n ==> IsSpace(s[i])
    ensures n < |s| ==> !IsSpace(s[n])
  {
    if s == [] || !IsSpace(s[0]) then 0 else 1 + LeadingSpaces(s[1..])
  }

  /** Where the trailing characters `trim` removes begin, never before `lo`. */
  function TrailingFrom(s: string, lo: nat): (n: nat)
    requires lo <= |s|
    ensures lo <= n <= |s|
    ensures forall i :: n <= i < |s| ==> IsSpace(s[i])
    ensures lo < n ==> !IsSpace(s[n - 1])
  {
    if |s| == lo || !IsSpace(s[|s| - 1]) then |s| else TrailingFrom(s[..|s| - 1], lo)
  }

  ghost predicate IsTrimmed(s: string) {
    s != [] ==> !IsSpace(s[0]) && !IsSpace(s[|s| - 1])
  }

  /** `String.prototype.trim`; that it only drops white space at both ends is `TrimDropsSpaces`. */
  function Trim(s: string): (r: string)
    ensures IsTrimmed(r) && |r| <= |s|
    ensures NoGlyph(s) ==> NoGlyph(r)
  {
    var lo := LeadingSpaces(s);
    s[lo..TrailingFrom(s, lo)]
  }

  function Pow10(n: nat): (p: nat)
    ensures 1 <= p
  {
    if n == 0 then 1 else 10 * Pow10(n - 1)
  }

  /** `parseInt` of a string of ASCII digits: its base-10 value. */
  function DecimalValue(s: string): (n: nat)
    requires forall i :: 0 <= i < |s| ==> IsDigit(s[i])
    ensures n < Pow10(|s|)
  {
    if s == [] then 0
    else 10 * DecimalValue(s[..|s| - 1]) + DigitValue(s[|s| - 1])
  }

  function DigitValue(c: char): (v: nat)
    requires IsDigit(c)
    ensures v <= 9
  {
    (c as int) - ('0' as int)
  }

  /** The record built from one match's two captures:
      `{ item: capture.replace(...).trim(), quantity: parseInt(digits) }`. */
  function RecordOf(capture: string, digits: string): (r: Record)
    requires 1 <= |digits| <= 4 && forall i :: 0 <= i < |digits| ==> IsDigit(digits[i])
    ensures r.quantity <= 9999
    ensures IsTrimmed(r.item) && NoGlyph(r.item)
  {
    Pow10AtMostFour(|digits|);
    Record(Trim(StripGlyphs(capture)), DecimalValue(digits))
  }

  /** The record of a match in `t`. */
  function ToRecord(t: string, m: Match): (r: Record)
    requires MatchesWith(t, m.start, m.capLen, m.digits)
    ensures r.quantity <= 9999
    ensures IsTrimmed(r.item) && NoGlyph(r.item)
  {
    RecordOf(t[m.start..m.DigitsAt()], t[m.DigitsAt()..m.UnitAt()])
  }

  lemma Pow10AtMostFour(n: nat)
    requires n <= 4
    ensures Pow10(n) <= 10000
  {
    assert Pow10(1) == 10 && Pow10(2) == 100 && Pow10(3) == 1000 && Pow10(4) == 10000;
  }

  /** The `parsed` list of the `/transcribe` response. */
  function Extract(t: string): (rs: seq<Record>)
    ensures |rs| == |MatchAll(t, 0)|
    ensures forall i :: 0 <= i < |rs| ==>
      && rs[i].quantity <= 9999
      && IsTrimmed(rs[i].item)
      && NoGlyph(rs[i].item)
  {
    var ms := MatchAll(t, 0);
    seq(|ms|, i requires 0 <= i < |ms| => ToRecord(t, ms[i]))
  }

}
