/**
 * The profile file written after training: one record per dictionary entry,
 * in the dictionary's order, each the n-gram, a tab, the count in decimal and
 * a newline. No header, nothing after the last record.
 */
module ProfileFormat {
  import opened Basics
  import opened NgramCounter

  const Tab: char := '\t'
  const Newline: char := '\n'

  function DigitChar(d: nat): (c: char)
    requires d < 10
    ensures IsAsciiDigit(c)
  {
    ('0' as int + d) as char
  }

  /** The decimal text of a count, as the source's `str(count)` renders a non-negative integer. */
  function DecimalString(n: nat): (r: string)
    ensures r != []
    ensures forall i :: 0 <= i < |r| ==> IsAsciiDigit(r[i])
    ensures r[0] != '0' || r == "0"
    decreases n
  {
    if n < 10 then [DigitChar(n)] else DecimalString(n / 10) + [DigitChar(n % 10)]
  }

  /** The value of a string of decimal digits. */
  function ParseDecimal(s: string): nat
    requires forall i :: 0 <= i < |s| ==> IsAsciiDigit(s[i])
  {
    if s == [] then 0
    else
      assert IsAsciiDigit(s[|s| - 1]);
      10 * ParseDecimal(s[..|s| - 1]) + (s[|s| - 1] as int - '0' as int)
  }

  /** Reading the decimal text of a count gives the count back. */
  lemma {:induction false} DecimalRoundTrip(n: nat)
    ensures ParseDecimal(DecimalString(n)) == n
    decreases n
  {
    if n >= 10 {
      var r := DecimalString(n);
      assert r[..|r| - 1] == DecimalString(n / 10);
      DecimalRoundTrip(n / 10);
    }
  }

  /**
   * One line of the profile file, `ngram + "\t" + str(count) + "\n"`: the
   * n-gram, a tab, at least one character of count, and a closing newline
   * that is the only one the record adds to those of the n-gram.
   */
  function Record(ngram: string, count: nat): (r: string)
    ensures |r| > |ngram| + 2
    ensures r[..|ngram|] == ngram && r[|ngram|] == Tab && r[|r| - 1] == Newline
  {
    ngram + [Tab] + DecimalString(count) + [Newline]
  }

  /**
   * The whole profile file: the records of the entries, in order. It is
   * empty exactly when there are no entries.
   */
  function ProfileText(items: seq<(string, nat)>): (text: string)
    ensures text == [] <==> items == []
  {
    if items == [] then [] else Record(items[0].0, items[0].1) + ProfileText(items[1..])
  }

  /** One record per entry: with no newline inside an n-gram, the text has exactly one line per entry. */
  lemma {:induction false} OneRecordPerEntry(items: seq<(string, nat)>)
    requires forall i :: 0 <= i < |items| ==> Newline !in items[i].0
    ensures Count(ProfileText(items), Newline) == |items|
  {
    if items != [] {
      var (ngram, count) := items[0];
      var digits := DecimalString(count);
      CountConcat(Record(ngram, count), ProfileText(items[1..]), Newline);
      CountConcat(ngram + [Tab] + digits, [Newline], Newline);
      CountConcat(ngram + [Tab], digits, Newline);
      CountConcat(ngram, [Tab], Newline);
      CountPositive(ngram, Newline);
      CountPositive(digits, Newline);
      OneRecordPerEntry(items[1..]);
    }
  }

  lemma {:induction false} ProfileTextAppend(items: seq<(string, nat)>, x: (string, nat))
    ensures ProfileText(items + [x]) == ProfileText(items) + Record(x.0, x.1)
  {
    if items == [] {
      assert items + [x] == [x];
    } else {
      assert (items + [x])[1..] == items[1..] + [x];
      ProfileTextAppend(items[1..], x);
    }
  }

  /**
   * `save_weights` without the file: the text written for the dictionary
   * `weights`, built record by record in insertion order.
   */
  method SaveWeights(weights: Table) returns (contents: string)
    requires weights.Valid()
    ensures contents == ProfileText(weights.Items())
  {
    ghost var items := weights.Items();
    contents := [];
    for i := 0 to |weights.keys|
      invariant contents == ProfileText(items[..i])
    {
      var ngram := weights.keys[i];
      assert items[..i + 1] == items[..i] + [(ngram, weights.counts[ngram])];
      ProfileTextAppend(items[..i], (ngram, weights.counts[ngram]));
      contents := contents + ngram + "\t" + DecimalString(weights.counts[ngram]) + "\n";
    }
    assert items[..|items|] == items;
  }

  /** An n-gram that can stand in a record and be read back. */
  predicate Writable(ngram: string) {
    ngram != [] && Tab !in ngram && Newline !in ngram
  }

  /**
   * Reads profile text back into its entries: each line up to a newline is
   * split at its first tab into a non-empty n-gram and a non-empty run of
   * digits. `None` when the text does not have that shape.
   */
  function ReadProfile(text: string): Option<seq<(string, nat)>>
    decreases |text|
  {
    if text == [] then Some([])
    else if Newline !in text then None
    else
      var eol := IndexOf(text, Newline);
      var line := text[..eol];
      if Tab !in line then None
      else
        var sep := IndexOf(line, Tab);
        var ngram, digits := line[..sep], line[sep + 1..];
        if ngram == [] || digits == [] || !(forall i :: 0 <= i < |digits| ==> IsAsciiDigit(digits[i])) then None
        else
          match ReadProfile(text[eol + 1..])
          case None => None
          case Some(rest) => Some([(ngram, ParseDecimal(digits))] + rest)
  }

  /** Reading a record off the front of a text, then the rest. */
  lemma ReadRecord(ngram: string, count: nat, rest: string)
    requires Writable(ngram)
    ensures ReadProfile(Record(ngram, count) + rest) ==
              match ReadProfile(rest)
              case None => None
              case Some(entries) => Some([(ngram, count)] + entries)
  {
    var digits := DecimalString(count);
    var text := Record(ngram, count) + rest;
    var line := ngram + [Tab] + digits;
    assert text == line + [Newline] + rest;
    assert Newline !in line;
    IndexOfAfter(line, Newline, rest);
    assert text[..|line|] == line;
    assert text[|line| + 1..] == rest;
    IndexOfAfter(ngram, Tab, digits);
    assert line[..|ngram|] == ngram;
    assert line[|ngram| + 1..] == digits;
    assert text[|line|] == Newline && line[|ngram|] == Tab;
    DecimalRoundTrip(count);
  }

  /** Reading a profile text back gives exactly the entries written, in order. */
  lemma {:induction false} ProfileRoundTrip(items: seq<(string, nat)>)
    requires forall i :: 0 <= i < |items| ==> Writable(items[i].0)
    ensures ReadProfile(ProfileText(items)) == Some(items)
  {
    if items != [] {
      var first, others := items[0], items[1..];
      ProfileRoundTrip(others);
      ReadRecord(first.0, first.1, ProfileText(others));
      assert ProfileText(items) == Record(first.0, first.1) + ProfileText(others);
      assert [first] + others == items;
    }
  }

  /** A record whose n-gram holds a newline: its first line is cut short before the tab or holds an empty n-gram. */
  lemma NewlineRecord(ngram: string, count: nat, rest: string)
    requires |ngram| <= 2 && Newline in ngram
    ensures ReadProfile(Record(ngram, count) + rest) == None
  {
    var text := Record(ngram, count) + rest;
    var p := IndexOf(ngram, Newline);
    var tail := ngram[p + 1..] + [Tab] + DecimalString(count) + [Newline] + rest;
    assert text == ngram[..p] + [Newline] + tail;
    IndexOfAfter(ngram[..p], Newline, tail);
    assert text[..p] == ngram[..p];
    if p == 1 && Tab in ngram[..1] {
      assert ngram[..1] == [Tab] + [];
      IndexOfAfter([], Tab, []);
    }
  }

  /** A record whose n-gram holds a tab but no newline: its first line splits at that tab. */
  lemma TabRecord(ngram: string, count: nat, rest: string)
    requires |ngram| <= 2 && Tab in ngram && Newline !in ngram
    ensures ReadProfile(Record(ngram, count) + rest) == None
  {
    var digits := DecimalString(count);
    var text := Record(ngram, count) + rest;
    var q := IndexOf(ngram, Tab);
    var line := ngram + [Tab] + digits;
    assert text == line + [Newline] + rest;
    assert Newline !in line;
    IndexOfAfter(line, Newline, rest);
    assert text[..|line|] == line;
    var after := ngram[q + 1..] + [Tab] + digits;
    assert line == ngram[..q] + [Tab] + after;
    IndexOfAfter(ngram[..q], Tab, after);
    assert line[q + 1..] == after;
    if q == 0 {
      assert line[..q] == [];
    } else {
      assert after[0] == Tab;
    }
  }

  /**
   * The record of a one- or two-character n-gram holding a tab or a newline
   * does not read back, whatever follows it: its first line either has no
   * tab, or has an empty n-gram field, or has a tab where the digits start.
   */
  lemma UnwritableRecord(ngram: string, count: nat, rest: string)
    requires 1 <= |ngram| <= 2 && !Writable(ngram)
    ensures ReadProfile(Record(ngram, count) + rest) == None
  {
    if Newline in ngram {
      NewlineRecord(ngram, count, rest);
    } else {
      TabRecord(ngram, count, rest);
    }
  }

  /**
   * A profile text one of whose n-grams, all of one or two characters, holds
   * a tab or a newline does not read back: the records before it read back
   * and its own record fails.
   */
  lemma {:induction false} UnreadableProfile(items: seq<(string, nat)>, j: nat)
    requires forall i :: 0 <= i < |items| ==> 1 <= |items[i].0| <= 2
    requires j < |items| && !Writable(items[j].0)
    ensures ReadProfile(ProfileText(items)) == None
  {
    if Writable(items[0].0) {
      assert items[1..][j - 1] == items[j];
      UnreadableProfile(items[1..], j - 1);
      ReadRecord(items[0].0, items[0].1, ProfileText(items[1..]));
    } else {
      UnwritableRecord(items[0].0, items[0].1, ProfileText(items[1..]));
    }
  }
}
