/**
 * Worked examples of the quantity extractor, including the cases where the
 * regular expression's `.` swallows digits of a number with more than four,
 * and transcripts that yield nothing.
 *
 * Each example takes its transcript as a parameter that spells the literal
 * character by character, so that the verifier reasons about the extractor
 * through the lemmas rather than by evaluating it on the literal.
 */
module ExtractorExamples {
  import opened Extractor
  import opened ExtractorLemmas

  /** `t` is the text `s`, character by character. */
  ghost predicate Spells(t: string, s: string) {
    |t| == |s| && forall i :: 0 <= i < |s| ==> t[i] == s[i]
  }

  lemma SpellsIsEquality(t: string, s: string)
    ensures Spells(t, s) <==> t == s
  {
  }

  /** A phrase that does not end in a digit always forms a group with its digits. */
  lemma GroupEndingInNonDigit(phrase: string, digits: string)
    requires 1 <= |phrase| && !IsDigit(phrase[|phrase| - 1])
    requires forall i :: 0 <= i < |phrase| ==> !IsLineTerminator(phrase[i]) && phrase[i] != Unit
    requires 1 <= |digits| <= 4 && forall i :: 0 <= i < |digits| ==> IsDigit(digits[i])
    ensures IsGroup(phrase, digits)
  {
    forall k | 1 <= k < |phrase| ensures !DigitsFrom(phrase, k) {
      assert !IsDigit(phrase[|phrase| - 1]);
    }
  }

  /** A transcript that is a single group yields that group's record alone. */
  lemma OneGroup(phrase: string, digits: string)
    requires IsGroup(phrase, digits)
    ensures Extract(phrase + digits + [Unit]) == [RecordOf(phrase, digits)]
  {
    var g := phrase + digits + [Unit];
    GroupThenRest(phrase, digits, []);
    ExtractEmpty();
    assert g + [] == g;
  }

  /** A transcript of two groups yields their two records in order. */
  lemma TwoGroups(p1: string, d1: string, p2: string, d2: string)
    requires IsGroup(p1, d1) && IsGroup(p2, d2)
    ensures Extract(p1 + d1 + [Unit] + (p2 + d2 + [Unit]))
         == [RecordOf(p1, d1), RecordOf(p2, d2)]
  {
    var g2 := p2 + d2 + [Unit];
    OneGroup(p2, d2);
    GroupThenRest(p1, d1, g2);
  }

  /** A phrase with no glyph to strip and no space to trim is its own item. */
  lemma ItemUnchanged(phrase: string)
    requires NoGlyph(phrase)
    requires IsTrimmed(phrase)
    ensures Trim(StripGlyphs(phrase)) == phrase
  {
    StripGlyphsIdentity(phrase);
    TrimIdentity(phrase);
  }

  /** A phrase that is one glyph followed by a plain word yields the word. */
  lemma ItemAfterGlyph(phrase: string)
    requires 1 <= |phrase| && IsStripped(phrase[0])
    requires NoGlyph(phrase[1..])
    requires IsTrimmed(phrase[1..])
    ensures Trim(StripGlyphs(phrase)) == phrase[1..]
  {
    var word := phrase[1..];
    assert StripGlyphs(phrase) == StripGlyphs(word);
    ItemUnchanged(word);
  }

  /** "りんご3個、バナナ12個" yields りんご × 3 and バナナ × 12: the glyph 、 before バナナ
      is captured with it and then stripped. */
  lemma ApplesAndBananas(t: string)
    requires Spells(t, "りんご3個、バナナ12個")
    ensures Extract(t) == [Record("りんご", 3), Record("バナナ", 12)]
  {
    var p1, d1, p2, d2 := t[..3], t[3..4], t[5..9], t[9..11];
    assert t == p1 + d1 + [Unit] + (p2 + d2 + [Unit]);
    Apples(p1, d1);
    Bananas(p2, d2);
    TwoGroups(p1, d1, p2, d2);
  }

  lemma Apples(phrase: string, digits: string)
    requires Spells(phrase, "りんご") && Spells(digits, "3")
    ensures IsGroup(phrase, digits)
    ensures RecordOf(phrase, digits) == Record("りんご", 3)
  {
    GroupEndingInNonDigit(phrase, digits);
    ItemUnchanged(phrase);
    Three(digits);
  }

  lemma Bananas(phrase: string, digits: string)
    requires Spells(phrase, "、バナナ") && Spells(digits, "12")
    ensures IsGroup(phrase, digits)
    ensures RecordOf(phrase, digits) == Record("バナナ", 12)
  {
    GroupEndingInNonDigit(phrase, digits);
    ItemAfterGlyph(phrase);
    Twelve(digits);
  }

  lemma Three(digits: string)
    requires Spells(digits, "3")
    ensures forall i :: 0 <= i < |digits| ==> IsDigit(digits[i])
    ensures DecimalValue(digits) == 3
  {
    assert digits[..0] == [];
  }

  lemma Twelve(digits: string)
    requires Spells(digits, "12")
    ensures forall i :: 0 <= i < |digits| ==> IsDigit(digits[i])
    ensures DecimalValue(digits) == 12
  {
    assert digits[..1] == "1" && digits[..1][..0] == [];
  }

  lemma Quantity2345(digits: string)
    requires Spells(digits, "2345")
    ensures forall i :: 0 <= i < |digits| ==> IsDigit(digits[i])
    ensures DecimalValue(digits) == 2345
  {
    var d3, d2, d1 := digits[..3], digits[..2], digits[..1];
    assert d3[..2] == d2 && d2[..1] == d1 && d1[..0] == [];
    assert DecimalValue(d1) == 2;
    assert DecimalValue(d2) == 23;
    assert DecimalValue(d3) == 234;
  }

  /** "12345個": the number has five digits, so the lazy capture takes the first digit
      and the quantity is the last four. */
  lemma FiveDigits(t: string)
    requires Spells(t, "12345個")
    ensures Extract(t) == [Record("1", 2345)]
  {
    var phrase, digits := t[..1], t[1..5];
    assert t == phrase + digits + [Unit];
    assert IsGroup(phrase, digits) && NoGlyph(phrase) && IsTrimmed(phrase);
    PhraseThen2345(phrase, digits);
    OneGroup(phrase, digits);
  }

  /** A clean phrase before the digits 2345 and `個` is its own item, with quantity 2345. */
  lemma PhraseThen2345(phrase: string, digits: string)
    requires IsGroup(phrase, digits) && NoGlyph(phrase) && IsTrimmed(phrase)
    requires Spells(digits, "2345")
    ensures RecordOf(phrase, digits) == Record(phrase, 2345)
  {
    Quantity2345(digits);
    ItemUnchanged(phrase);
  }

  /** "a12345個": the capture stops at the shortest prefix still followed by at most four
      digits and 個, which is "a1". */
  lemma LetterThenFiveDigits(t: string)
    requires Spells(t, "a12345個")
    ensures Extract(t) == [Record("a1", 2345)]
  {
    var phrase, digits := t[..2], t[2..6];
    assert t == phrase + digits + [Unit];
    LetterDigitGroup(phrase, digits);
    PhraseThen2345(phrase, digits);
    OneGroup(phrase, digits);
  }

  /** The digit 1 after the letter stays in the capture: with it, the digits before 個
      would be five. */
  lemma LetterDigitGroup(phrase: string, digits: string)
    requires Spells(phrase, "a1") && Spells(digits, "2345")
    ensures IsGroup(phrase, digits) && NoGlyph(phrase) && IsTrimmed(phrase)
    ensures phrase == "a1"
  {
  }

  /** "、3個": the capture is the glyph alone, so the item is empty after stripping. */
  lemma GlyphOnly(t: string)
    requires Spells(t, "、3個")
    ensures Extract(t) == [Record("", 3)]
  {
    var phrase, digits := t[..1], t[1..2];
    assert t == phrase + digits + [Unit];
    GlyphThenThree(phrase, digits);
    OneGroup(phrase, digits);
  }

  lemma GlyphThenThree(phrase: string, digits: string)
    requires Spells(phrase, "、") && Spells(digits, "3")
    ensures IsGroup(phrase, digits)
    ensures RecordOf(phrase, digits) == Record("", 3)
  {
    GroupEndingInNonDigit(phrase, digits);
    ItemAfterGlyph(phrase);
    Three(digits);
  }

  /** "3個": the capture needs at least one character before the number. */
  lemma NothingBeforeNumber(t: string)
    requires Spells(t, "3個")
    ensures Extract(t) == []
  {
    ExtractEmptyIff(t);
  }

  /** "りんご\n3個": `.` does not cross the line break, so nothing is extracted. */
  lemma LineBreakBeforeNumber(t: string)
    requires Spells(t, "りんご\n3個")
    ensures Extract(t) == []
  {
    ExtractEmptyIff(t);
    forall j | 1 <= j && j + 1 < |t| && IsDigit(t[j]) && t[j + 1] == Unit
      ensures IsLineTerminator(t[j - 1])
    {
      assert j == 4;
    }
  }
}
