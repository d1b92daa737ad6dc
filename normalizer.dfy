/**
 * The text normaliser applied to every training text before counting:
 * case-fold, turn every ASCII digit into a space, then delete every space.
 * Only the space character itself is deleted; tabs, newlines and other
 * whitespace stay in the text.
 */
module TextNormalizer {
  import opened Basics

  const Space: char := ' '

  /** Case folding of one character (ASCII letters only): `A`-`Z` become `a`-`z`. */
  function Fold(c: char): (f: char)
    ensures IsAsciiDigit(f) <==> IsAsciiDigit(c)
    ensures f == Space <==> c == Space
  {
    if 'A' <= c <= 'Z' then (c as int - 'A' as int + 'a' as int) as char else c
  }

  lemma FoldIdempotent(c: char)
    ensures Fold(Fold(c)) == Fold(c)
  {
  }

  /** Step one, `casefold`: no upper-case ASCII letter is left, and every other character stays. */
  function CaseFold(text: string): (folded: string)
    ensures |folded| == |text|
    ensures forall i :: 0 <= i < |text| ==> !('A' <= folded[i] <= 'Z')
    ensures forall i :: 0 <= i < |text| && 'A' <= text[i] <= 'Z' ==> folded[i] as int == text[i] as int + 32
    ensures forall i :: 0 <= i < |text| && !('A' <= text[i] <= 'Z') ==> folded[i] == text[i]
  {
    seq(|text|, i requires 0 <= i < |text| => Fold(text[i]))
  }

  /** Step two, `re.sub(r"[0-9]", " ", text)`: every ASCII digit, and only a digit, becomes a space. */
  function DigitsToSpaces(text: string): (replaced: string)
    ensures |replaced| == |text|
    ensures forall i :: 0 <= i < |text| ==> !IsAsciiDigit(replaced[i])
    ensures forall i :: 0 <= i < |text| ==>
              if IsAsciiDigit(text[i]) then replaced[i] == Space else replaced[i] == text[i]
  {
    seq(|text|, i requires 0 <= i < |text| => if IsAsciiDigit(text[i]) then Space else text[i])
  }

  /**
   * Step three, `text.replace(" ", "")`: the spaces are gone, exactly them,
   * and every other character occurs as often as before.
   */
  function DeleteSpaces(text: string): (deleted: string)
    ensures Space !in deleted
    ensures |deleted| == |text| - Count(text, Space)
    ensures forall c :: c != Space ==> Count(deleted, c) == Count(text, c)
    ensures forall c :: c in deleted ==> c in text
  {
    if text == [] then []
    else
      var rest := DeleteSpaces(text[1..]);
      if text[0] == Space then rest
      else
        assert ([text[0]] + rest)[1..] == rest;
        [text[0]] + rest
  }

  /**
   * The normaliser: the three steps in the order the source applies them.
   * The result holds no digit and no space and is no longer than the input.
   */
  function Preprocess(text: string): (normalized: string)
    ensures |normalized| <= |text|
    ensures forall i :: 0 <= i < |normalized| ==> !IsAsciiDigit(normalized[i]) && normalized[i] != Space
  {
    var replaced := DigitsToSpaces(CaseFold(text));
    var deleted := DeleteSpaces(replaced);
    assert forall i :: 0 <= i < |deleted| ==> deleted[i] in replaced;
    deleted
  }

  /** The characters that survive normalisation. */
  predicate Kept(c: char) {
    !IsAsciiDigit(c) && c != Space
  }

  /**
   * Reference definition in one pass: keep the folded form of every
   * character whose folded form is neither a digit nor a space, in order.
   */
  function KeepFolded(text: string): string {
    if text == [] then []
    else (if Kept(Fold(text[0])) then [Fold(text[0])] else []) + KeepFolded(text[1..])
  }

  /** The three-step normaliser equals the one-pass filter of the folded text. */
  lemma {:induction false} PreprocessIsFilter(text: string)
    ensures Preprocess(text) == KeepFolded(text)
  {
    if text != [] {
      var d := DigitsToSpaces(CaseFold(text));
      assert d[0] == (if Kept(Fold(text[0])) then Fold(text[0]) else Space);
      assert d[1..] == DigitsToSpaces(CaseFold(text[1..]));
      PreprocessIsFilter(text[1..]);
    }
  }

  lemma {:induction false} KeepFoldedClean(text: string)
    ensures |KeepFolded(text)| <= |text|
    ensures forall i :: 0 <= i < |KeepFolded(text)| ==>
              Kept(KeepFolded(text)[i]) && Fold(KeepFolded(text)[i]) == KeepFolded(text)[i]
  {
    if text != [] {
      FoldIdempotent(text[0]);
      KeepFoldedClean(text[1..]);
    }
  }

  /** A text that is already folded and clean passes the filter unchanged. */
  lemma {:induction false} KeepFoldedFixed(text: string)
    requires forall i :: 0 <= i < |text| ==> Kept(text[i]) && Fold(text[i]) == text[i]
    ensures KeepFolded(text) == text
  {
    if text != [] {
      KeepFoldedFixed(text[1..]);
      assert text == [text[0]] + text[1..];
    }
  }

  /** Normalising twice is normalising once. */
  lemma PreprocessIdempotent(text: string)
    ensures Preprocess(Preprocess(text)) == Preprocess(text)
  {
    var once := Preprocess(text);
    PreprocessIsFilter(text);
    PreprocessIsFilter(once);
    KeepFoldedClean(text);
    KeepFoldedFixed(once);
  }

  lemma {:induction false} KeepFoldedCount(text: string, c: char)
    ensures Count(KeepFolded(text), c) == if Kept(c) then Count(CaseFold(text), c) else 0
  {
    if text != [] {
      KeepFoldedCount(text[1..], c);
      var head := if Kept(Fold(text[0])) then [Fold(text[0])] else [];
      CountConcat(head, KeepFolded(text[1..]), c);
      assert CaseFold(text)[1..] == CaseFold(text[1..]);
    }
  }

  /**
   * Occurrences survive exactly: a kept character occurs in the output as
   * often as it occurs in the case-folded input, any other character never.
   */
  lemma PreprocessCount(text: string, c: char)
    ensures Count(Preprocess(text), c) == if Kept(c) then Count(CaseFold(text), c) else 0
  {
    PreprocessIsFilter(text);
    KeepFoldedCount(text, c);
  }

  /** Folding leaves the number of occurrences of a non-letter unchanged. */
  lemma {:induction false} CaseFoldCountNonLetter(text: string, c: char)
    requires !('a' <= c <= 'z') && !('A' <= c <= 'Z')
    ensures Count(CaseFold(text), c) == Count(text, c)
  {
    if text != [] {
      assert CaseFold(text)[1..] == CaseFold(text[1..]);
      CaseFoldCountNonLetter(text[1..], c);
    }
  }

  /** Tabs and newlines are not deleted: each one of the input reaches the output. */
  lemma PreprocessKeepsTabsAndNewlines(text: string)
    ensures Count(Preprocess(text), '\t') == Count(text, '\t')
    ensures Count(Preprocess(text), '\n') == Count(text, '\n')
  {
    PreprocessCount(text, '\t');
    CaseFoldCountNonLetter(text, '\t');
    PreprocessCount(text, '\n');
    CaseFoldCountNonLetter(text, '\n');
  }

  /** A tab or a newline of the input stands somewhere in the normalised text. */
  lemma KeptAt(text: string, c: char) returns (pos: nat)
    requires c in text && (c == '\t' || c == '\n')
    ensures pos < |Preprocess(text)| && Preprocess(text)[pos] == c
  {
    PreprocessKeepsTabsAndNewlines(text);
    CountPositive(text, c);
    CountPositive(Preprocess(text), c);
    pos := IndexOf(Preprocess(text), c);
  }
}
